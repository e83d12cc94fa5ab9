/**
 * The WolframAlpha command (`src/wolfram_alpha.rs`): the children of a query result are scanned
 * in order for the input interpretation, the first result and a did-you-mean suggestion, and
 * one line is chosen from what was found. The XML arrives already parsed, as the list of the
 * result's children.
 */
module WolframAlpha {
  import opened Wrappers
  import opened Text
  import opened Actions

  /** A child of the query result: a `pod` with its `id` attribute and, when it has a `subpod`,
      the text of that subpod's `plaintext` element (None when there is no such element or it
      has no text); a `didyoumeans` element with the text of its first `didyoumean`; or
      anything else. */
  datatype Child =
    | Pod(id: Option<string>, subpod: Option<Option<string>>)
    | DidYouMeans(suggestion: Option<string>)
    | OtherChild

  const ParseError := "Error parsing xml"
  const NotUnderstood := "Sorry, couldn't understand the question"

  /** `clean_plaintext`: " | " becomes ": ", each line break becomes " | ", and the ends are
      trimmed. */
  function CleanPlaintext(text: string): string
  {
    Trim(ReplaceChar(ReplaceAll(text, " | ", ": "), '\n', " | "))
  }

  /** A cleaned text is one line with no whitespace at either end. */
  lemma CleanPlaintextIsOneLine(text: string)
    ensures '\n' !in CleanPlaintext(text)
    ensures var r := CleanPlaintext(text); r == [] || (!IsWhitespace(r[0]) && !IsWhitespace(r[|r| - 1]))
  {
    var flat := ReplaceChar(ReplaceAll(text, " | ", ": "), '\n', " | ");
    TrimIsSlice(flat);
    TrimKeepsAbsent(flat, '\n');
  }

  /** Text with no " | ", no line break and no whitespace at either end is left as it is. */
  lemma CleanPlaintextFixpoint(text: string)
    requires Lacks(text, " | ") && '\n' !in text
    requires text == [] || (!IsWhitespace(text[0]) && !IsWhitespace(text[|text| - 1]))
    ensures CleanPlaintext(text) == text
  {
    ReplaceAllAbsent(text, " | ", ": ");
    ReplaceCharAbsent(text, '\n', " | ");
    TrimmedIsFixpoint(text);
  }

  /** The plaintext of a pod that has an id and a subpod. */
  function PodText(c: Child): Option<string>
  {
    if c.Pod? && c.id.Some? && c.subpod.Some? then c.subpod.value else None
  }

  /** An "Input" or "Input information" pod with text. */
  predicate IsInterpretation(c: Child)
  {
    c.Pod? && (c.id == Some("Input") || c.id == Some("Input information")) && PodText(c).Some?
  }

  /** A "Result" pod with text. */
  predicate IsAnswer(c: Child)
  {
    c.Pod? && c.id == Some("Result") && PodText(c).Some?
  }

  /** A `didyoumeans` element with a suggestion. */
  predicate IsSuggestion(c: Child)
  {
    c.DidYouMeans? && c.suggestion.Some?
  }

  /** The children at which the scan stops. */
  predicate Stops(c: Child)
  {
    IsAnswer(c) || IsSuggestion(c)
  }

  /** The position of the first child at which the scan stops, or `|cs|`. */
  function FirstStop(cs: seq<Child>): (k: nat)
    ensures k <= |cs|
    ensures forall j :: 0 <= j < k ==> !Stops(cs[j])
    ensures k < |cs| ==> Stops(cs[k])
  {
    if cs == [] then 0
    else if Stops(cs[0]) then 0
    else 1 + FirstStop(cs[1..])
  }

  /** The text a child gives the interpretation, before cleaning: that of an interpretation
      pod. */
  function RawInterpretation(c: Child): Option<string>
  {
    if IsInterpretation(c) then PodText(c) else None
  }

  /** What each child gives the interpretation, in order. */
  function RawInterpretations(cs: seq<Child>): (rs: seq<Option<string>>)
    ensures |rs| == |cs|
    ensures forall k :: 0 <= k < |cs| ==> rs[k] == RawInterpretation(cs[k])
  {
    seq(|cs|, k requires 0 <= k < |cs| => RawInterpretation(cs[k]))
  }

  /** The text of the last interpretation pod, if any: later pods overwrite earlier ones. */
  function LastRawInterpretation(cs: seq<Child>): (r: Option<string>)
    ensures r.None? <==> forall k :: 0 <= k < |cs| ==> !IsInterpretation(cs[k])
    ensures r.Some? ==> exists k :: 0 <= k < |cs| && IsInterpretation(cs[k]) && r == PodText(cs[k])
                                    && forall j :: k < j < |cs| ==> !IsInterpretation(cs[j])
  {
    var rs := RawInterpretations(cs);
    var i := LastSomeIndex(rs);
    assert i >= 0 ==> LastSome(rs) == PodText(cs[i]) && IsInterpretation(cs[i]);
    LastSome(rs)
  }

  /** Reading one more child. */
  lemma LastRawInterpretationSnoc(cs: seq<Child>, c: Child)
    ensures LastRawInterpretation(cs + [c]) == if IsInterpretation(c) then PodText(c) else LastRawInterpretation(cs)
  {
    assert RawInterpretations(cs + [c]) == RawInterpretations(cs) + [RawInterpretation(c)];
    LastSomeSnoc(RawInterpretations(cs), RawInterpretation(c));
  }

  /** A text, if any, cleaned. */
  function Cleaned(text: Option<string>): (r: Option<string>)
    ensures r.Some? <==> text.Some?
  {
    if text.Some? then Some(CleanPlaintext(text.value)) else None
  }

  /** What the scan finds. */
  datatype Scan = Scan(interpretation: Option<string>, answer: Option<string>, didyoumean: Option<string>)

  /** The scan of the children: the last interpretation before the stop, and the answer or the
      suggestion the scan stopped at. */
  function Scanned(cs: seq<Child>): Scan
  {
    var k := FirstStop(cs);
    Scan(Cleaned(LastRawInterpretation(cs[..k])),
         if k < |cs| && IsAnswer(cs[k]) then Cleaned(PodText(cs[k])) else None,
         if k < |cs| && IsSuggestion(cs[k]) then cs[k].suggestion else None)
  }

  /** A stopping child not preceded by one is where the scan stops. */
  lemma StopsHere(cs: seq<Child>, i: nat)
    requires i < |cs| && i <= FirstStop(cs) && Stops(cs[i])
    ensures FirstStop(cs) == i
  {
  }

  /** The scan loop of `response_from_xml`; the loop's `break` becomes a `return`, since nothing
      follows the loop here. */
  method ScanChildren(cs: seq<Child>) returns (interpretation: Option<string>, answer: Option<string>,
                                               didyoumean: Option<string>)
    ensures Scan(interpretation, answer, didyoumean) == Scanned(cs)
  {
    interpretation, answer, didyoumean := None, None, None;
    var i := 0;
    while i < |cs|
      invariant i <= FirstStop(cs)
      invariant interpretation == Cleaned(LastRawInterpretation(cs[..i]))
      invariant answer.None? && didyoumean.None?
    {
      var c := cs[i];
      assert cs[..i + 1] == cs[..i] + [c];
      LastRawInterpretationSnoc(cs[..i], c);
      if c.Pod? {
        if c.id.Some? && c.subpod.Some? {
          var id := c.id.value;
          if id == "Input" {
            if c.subpod.value.Some? {
              interpretation := Some(CleanPlaintext(c.subpod.value.value));
            }
          } else if id == "Input information" {
            if c.subpod.value.Some? {
              interpretation := Some(CleanPlaintext(c.subpod.value.value));
            }
          } else if id == "Result" {
            if c.subpod.value.Some? {
              answer := Some(CleanPlaintext(c.subpod.value.value));
              StopsHere(cs, i);
              return;
            }
          }
        }
      } else if c.DidYouMeans? {
        if c.suggestion.Some? {
          didyoumean := c.suggestion;
          StopsHere(cs, i);
          return;
        }
      }
      i := i + 1;
    }
  }

  /** The line chosen from the scan. */
  function Message(s: Scan): string
  {
    if s.interpretation.Some? && s.answer.Some? then s.interpretation.value + " = " + s.answer.value
    else if s.answer.Some? then s.answer.value
    else if s.didyoumean.Some? then "Did you mean: " + s.didyoumean.value
    else NotUnderstood
  }

  /** `response_from_xml`: None for a body that is not XML. */
  method ResponseFromXml(xml: Option<seq<Child>>) returns (r: Result<string, string>)
    ensures xml.None? ==> r == Err(ParseError)
    ensures xml.Some? ==> r == Ok(Message(Scanned(xml.value)))
  {
    if xml.None? {
      return Err(ParseError);
    }
    var interpretation, answer, didyoumean := ScanChildren(xml.value);
    var msg;
    if interpretation.Some? && answer.Some? {
      msg := interpretation.value + " = " + answer.value;
    } else if answer.Some? {
      msg := answer.value;
    } else if didyoumean.Some? {
      msg := "Did you mean: " + didyoumean.value;
    } else {
      msg := NotUnderstood;
    }
    r := Ok(msg);
  }

  /** `command_wa`: `fetch(query, key)` is the outcome of the request (None when it failed,
      `Some(None)` when the body is not XML). Nothing is sent without a key or a parsed body. */
  method CommandWa(source: IrcChannel, params: string, apikey: Option<string>,
                   fetch: (string, string) -> Option<Option<seq<Child>>>) returns (effects: seq<Effect>)
    ensures apikey.None? ==> effects == []
    ensures apikey.Some? ==>
      var fetched := fetch(params, apikey.value);
      effects == if fetched.Some? && fetched.value.Some? then [Say(source, Message(Scanned(fetched.value.value)))] else []
  {
    effects := [];
    if apikey.Some? {
      var fetched := fetch(params, apikey.value);
      if fetched.Some? {
        var response := ResponseFromXml(fetched.value);
        if response.Ok? {
          effects := [Say(source, response.value)];
        }
      }
    }
  }

  /** The position of the stop is where the children stop, whatever follows it. */
  lemma {:induction false} FirstStopOfPrefix(cs: seq<Child>, rest: seq<Child>)
    requires FirstStop(cs) < |cs|
    ensures FirstStop(cs + rest) == FirstStop(cs)
    decreases |cs|
  {
    if !Stops(cs[0]) {
      assert (cs + rest)[1..] == cs[1..] + rest;
      FirstStopOfPrefix(cs[1..], rest);
    }
  }

  /** Children after the first result or suggestion change nothing. */
  lemma ChildrenAfterStopIgnored(cs: seq<Child>, rest: seq<Child>)
    requires FirstStop(cs) < |cs|
    ensures Scanned(cs + rest) == Scanned(cs)
  {
    FirstStopOfPrefix(cs, rest);
    var k := FirstStop(cs);
    assert (cs + rest)[..k] == cs[..k];
  }

  /** A later interpretation pod overwrites an earlier one. */
  lemma LaterInterpretationWins(cs: seq<Child>, c: Child)
    requires IsInterpretation(c)
    ensures LastRawInterpretation(cs + [c]) == PodText(c)
  {
    LastRawInterpretationSnoc(cs, c);
  }

  /** The first result with text is the answer, and the suggestion is then absent: a did-you-mean
      line is never sent together with an answer. */
  lemma FirstResultAnswers(cs: seq<Child>, k: nat)
    requires k < |cs| && IsAnswer(cs[k])
    requires forall j :: 0 <= j < k ==> !Stops(cs[j])
    ensures Scanned(cs).answer == Cleaned(PodText(cs[k]))
    ensures Scanned(cs).didyoumean.None?
  {
    assert FirstStop(cs) == k;
  }

  /** With neither a result nor a suggestion the question is not understood, whatever
      interpretation was found. */
  lemma NothingFound(cs: seq<Child>)
    requires forall j :: 0 <= j < |cs| ==> !Stops(cs[j])
    ensures Message(Scanned(cs)) == NotUnderstood
  {
    assert FirstStop(cs) == |cs|;
  }
}
