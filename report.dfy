/**
 * How the weather commands assemble their reply: each present field is pushed as
 * `label value unit, `, and the trailing ", " is stripped at the end. Stated once here, for
 * the FMI and OpenWeatherMap messages.
 */
module Report {
  import opened Wrappers
  import opened Text

  const Separator := ", "

  /** The parts, each followed by the separator. */
  function Terminated(parts: seq<string>): (r: string)
    ensures parts == [] ==> r == ""
  {
    if parts == [] then "" else Terminated(parts[..|parts| - 1]) + parts[|parts| - 1] + Separator
  }

  /** Pushing one more part and its separator. */
  lemma TerminatedSnoc(parts: seq<string>, part: string)
    ensures Terminated(parts + [part]) == Terminated(parts) + part + Separator
  {
    assert (parts + [part])[..|parts|] == parts;
  }

  /** The place part of a weather message: the place and ": ", or nothing. */
  function PlacePart(place: Option<string>): string
  {
    if place.Some? then place.value + ": " else ""
  }

  /** The place part never ends in a separator, so stripping the last separator of a message
      never reaches into it. */
  lemma PlacePartNoSeparator(place: Option<string>)
    ensures !EndsWith(PlacePart(place), Separator)
  {
    var p := PlacePart(place);
    if place.Some? {
      assert p[|p| - 2] == ':';
    }
  }

  /** A message body after `strip_suffix(", ")`. */
  function StripSeparator(s: string): (r: string)
    ensures EndsWith(s, Separator) ==> r + Separator == s
    ensures !EndsWith(s, Separator) ==> r == s
  {
    StripSuffix(s, Separator).GetOr(s)
  }

  lemma {:induction false} JoinSnoc(parts: seq<string>, last: string)
    requires parts != []
    ensures Join(Separator, parts + [last]) == Join(Separator, parts) + Separator + last
    decreases |parts|
  {
    if |parts| == 1 {
      assert parts + [last] == [parts[0], last];
      assert [parts[0], last][1..] == [last];
    } else {
      assert (parts + [last])[1..] == parts[1..] + [last];
      JoinSnoc(parts[1..], last);
    }
  }

  /** Parts each followed by the separator are the parts joined by it, plus one separator. */
  lemma {:induction false} TerminatedIsJoin(parts: seq<string>)
    requires parts != []
    ensures Terminated(parts) == Join(Separator, parts) + Separator
    decreases |parts|
  {
    var init := parts[..|parts| - 1];
    if init == [] {
      assert parts == [parts[0]];
    } else {
      TerminatedIsJoin(init);
      JoinSnoc(init, parts[|parts| - 1]);
      assert init + [parts[|parts| - 1]] == parts;
    }
  }

  /** Pushing the parts with separators and then a last part gives all of them joined. */
  lemma TerminatedThenLast(parts: seq<string>, last: string)
    ensures Terminated(parts) + last == Join(Separator, parts + [last])
  {
    if parts == [] {
      assert parts + [last] == [last];
    } else {
      TerminatedIsJoin(parts);
      JoinSnoc(parts, last);
    }
  }

  /** The assembled message: the prefix, then the labelled parts each with its separator, then
      the unlabelled tail, with one trailing separator stripped. When the prefix does not end in
      a separator and the tail, if any, does not end in a space, this is the prefix followed by
      all the parts joined by ", ". */
  lemma Assembled(prefix: string, parts: seq<string>, tail: Option<string>)
    requires !EndsWith(prefix, Separator)
    requires tail.Some? ==> tail.value != [] && tail.value[|tail.value| - 1] != ' '
    ensures var all := parts + (if tail.Some? then [tail.value] else []);
      StripSeparator(prefix + Terminated(parts) + tail.GetOr("")) == prefix + Join(Separator, all)
  {
    var all := parts + (if tail.Some? then [tail.value] else []);
    var body := prefix + Terminated(parts) + tail.GetOr("");
    if tail.Some? {
      TerminatedThenLast(parts, tail.value);
      assert body == prefix + Join(Separator, all);
      assert body[|body| - 1] == tail.value[|tail.value| - 1];
      assert !EndsWith(body, Separator);
    } else if parts == [] {
      assert all == [];
      assert body == prefix;
    } else {
      TerminatedIsJoin(parts);
      assert all == parts;
      assert body == (prefix + Join(Separator, parts)) + Separator;
    }
  }

  /** A labelled field of the message, when present: label, value, unit. */
  function Labelled(value: Option<string>, name: string, unit: string): (r: Option<string>)
    ensures r.Some? <==> value.Some?
  {
    if value.Some? then Some(name + value.value + unit) else None
  }

  /** `parts` with one more part, if there is one. */
  function Push(parts: seq<string>, part: Option<string>): seq<string>
  {
    if part.Some? then parts + [part.value] else parts
  }

  /** One `push_str(&format!("{name}{value}{unit}, "))` of `generate_msg`, for a present field. */
  method PushField(msg: string, value: Option<string>, name: string, unit: string,
                   ghost prefix: string, ghost parts: seq<string>)
    returns (pushed: string, ghost parts': seq<string>)
    requires msg == prefix + Terminated(parts)
    ensures parts' == Push(parts, Labelled(value, name, unit))
    ensures pushed == prefix + Terminated(parts')
  {
    pushed := msg;
    if value.Some? {
      TerminatedSnoc(parts, name + value.value + unit);
      pushed := msg + name + value.value + unit + Separator;
    }
    parts' := Push(parts, Labelled(value, name, unit));
  }
}
