/**
 * Timers (`src/timer.rs`): `.pizza`, `.bigone` and `.timer <when> <message>`, and the table
 * in which the timer manager keeps pending timers across restarts.
 *
 * `.timer` accepts three forms for `<when>`: a wall-clock time `HH:MM` (or `HH.MM`), an
 * `[Nh][Nm|Nmin][Ns]` span, or a bare number of minutes. The clock is a parameter: the local
 * time of day in whole seconds.
 */
module Timer {
  import opened Wrappers
  import opened Text
  import opened Actions

  // ---------------------------------------------------------------------------------------
  // `.pizza` and `.bigone`.

  const PizzaMinutes: nat := 12
  const BigoneMinutes: nat := 15

  /** The confirmation first, then a timer of `minutes` whose text calls the user by nick. */
  function PizzaOrder(source: IrcChannel, prefix: Option<Prefix>, minutes: nat, size: string): (r: seq<Effect>)
    ensures |r| == 2 && r[0].Send? && r[1].StartTimer?
    ensures r[0] == Say(source, "Huudan sitten " + NatToString(minutes) + " minuutin päästä pizzasta.")
    ensures r[1].event.target == source && r[1].event.seconds == minutes * 60
    ensures prefix.Some? && prefix.value.Nickname? ==>
      r[1].event.message == "Apua " + prefix.value.nick + "! " + size + " pizza palaa!"
    ensures !(prefix.Some? && prefix.value.Nickname?) ==> r[1].event.message == "Apua! " + size + " pizza palaa!"
  {
    var call := if prefix.Some? && prefix.value.Nickname? then "Apua " + prefix.value.nick + "! " + size + " pizza palaa!"
      else "Apua! " + size + " pizza palaa!";
    [Say(source, "Huudan sitten " + NatToString(minutes) + " minuutin päästä pizzasta."),
     StartTimer(TimerEvent(source, call, minutes * 60))]
  }

  function CommandPizza(source: IrcChannel, prefix: Option<Prefix>): (r: seq<Effect>)
    ensures |r| == 2 && r[0].Send? && r[1].StartTimer? && r[1].event.seconds == 720
  {
    PizzaOrder(source, prefix, PizzaMinutes, "Pikku")
  }

  function CommandBigone(source: IrcChannel, prefix: Option<Prefix>): (r: seq<Effect>)
    ensures |r| == 2 && r[0].Send? && r[1].StartTimer? && r[1].event.seconds == 900
  {
    PizzaOrder(source, prefix, BigoneMinutes, "Iso")
  }

  // ---------------------------------------------------------------------------------------
  // Splitting the parameters.

  /** The time part: everything before the first whitespace character. */
  function TimePart(params: string): string
  {
    params[..WordLength(params)]
  }

  /** The message part: everything after the first whitespace character, untrimmed. */
  function MessagePart(params: string): string
  {
    var n := WordLength(params);
    if n < |params| then params[n + 1..] else ""
  }

  /** Walks the characters once, switching from the time part to the message part at the
      first whitespace character (which belongs to neither). */
  method SplitParams(params: string) returns (timePart: string, messagePart: string)
    ensures timePart == TimePart(params) && messagePart == MessagePart(params)
    ensures NoWhitespace(timePart) && params == timePart + (if |timePart| < |params| then [params[|timePart|]] else []) + messagePart
  {
    var n := WordLength(params);
    timePart, messagePart := "", "";
    var processingTime := true;
    for i := 0 to |params|
      invariant i <= n ==> processingTime && timePart == params[..i] && messagePart == ""
      invariant i > n ==> !processingTime && timePart == params[..n] && messagePart == params[n + 1..i]
    {
      var c := params[i];
      if processingTime {
        if !IsWhitespace(c) {
          timePart := timePart + [c];
        } else {
          processingTime := false;
        }
      } else {
        messagePart := messagePart + [c];
      }
    }
    assert params[..|params|] == params;
    if n < |params| {
      assert params == params[..n] + [params[n]] + params[n + 1..];
    }
  }

  // ---------------------------------------------------------------------------------------
  // Reading the time part.

  /** The longest run of ASCII digits at the start of `s`. */
  function DigitRun(s: string): (n: nat)
    ensures n <= |s|
    ensures forall k :: 0 <= k < n ==> IsDigit(s[k])
    ensures n == |s| || !IsDigit(s[n])
  {
    if s == [] || !IsDigit(s[0]) then 0 else 1 + DigitRun(s[1..])
  }

  /** `HH:MM` or `H:MM`, with ':' or '.' between. */
  predicate IsClock(t: string)
  {
    (|t| == 4 || |t| == 5)
    && IsDigits(t[..|t| - 3]) && (t[|t| - 3] == ':' || t[|t| - 3] == '.') && IsDigits(t[|t| - 2..])
  }

  /** One `<digits><marker>` group of the span form, if `s` starts with one: its value and
      what follows it. */
  function Group(s: string, marker: string): (r: Option<(nat, string)>)
    requires marker != []
    ensures r.Some? ==> |r.value.1| < |s|
  {
    var n := DigitRun(s);
    if n > 0 && StartsWith(s[n..], marker) then Some((DigitsValue(s[..n]), s[n + |marker|..])) else None
  }

  /** An optional group: its value and the rest, or 0 and `s` itself when absent. */
  function TakeGroup(s: string, marker: string): (nat, string)
    requires marker != []
  {
    match Group(s, marker) case Some(g) => g case None => (0, s)
  }

  /** The minutes group, where the longer marker "min" is tried before "m". */
  function TakeMinutes(s: string): (nat, string)
  {
    match Group(s, "min") case Some(g) => g case None => TakeGroup(s, "m")
  }

  /** The number of seconds an `[Nh][Nm|Nmin][Ns]` span stands for (the empty span is 0), or
      None when `t` is not such a span. */
  function SpanSeconds(t: string): Option<nat>
  {
    var hours := TakeGroup(t, "h");
    var minutes := TakeMinutes(hours.1);
    var seconds := TakeGroup(minutes.1, "s");
    if seconds.1 == [] then Some(hours.0 * 3600 + minutes.0 * 60 + seconds.0) else None
  }

  /** The longest span the duration type holds, in seconds: `i64::MAX` milliseconds. */
  const MaxDurationSeconds: nat := I64Max / 1000

  /** What the time part says. A span or minute count beyond the duration type's range makes
      the command panic, which ends it silently like a time part in no known form. */
  datatype When = AtClock(hour: nat, minute: nat) | After(seconds: nat) | Unrecognised | Overflow

  function ReadWhen(t: string): (w: When)
    ensures w.After? ==> w.seconds <= MaxDurationSeconds
    ensures w.AtClock? ==> w.hour < 100 && w.minute < 100
  {
    if IsClock(t) then
      var hour := DigitsValue(t[..|t| - 3]);
      var minute := DigitsValue(t[|t| - 2..]);
      TwoDigitsBound(t[..|t| - 3]);
      TwoDigitsBound(t[|t| - 2..]);
      AtClock(hour, minute)
    else match SpanSeconds(t)
      case Some(secs) => if secs <= MaxDurationSeconds then After(secs) else Overflow
      case None =>
        if IsDigits(t) then
          if DigitsValue(t) * 60 <= MaxDurationSeconds then After(DigitsValue(t) * 60) else Overflow
        else Unrecognised
  }

  lemma TwoDigitsBound(s: string)
    requires |s| <= 2 && forall k :: 0 <= k < |s| ==> IsDigit(s[k])
    ensures DigitsValue(s) < 100
  {
    if |s| == 2 {
      assert s[..1][..0] == [];
    } else if |s| == 1 {
      assert s[..0] == [];
    }
  }

  const SecondsPerDay: nat := 86400

  /** The wait until the next `hour:minute` of local time, seen at `now` seconds into the day:
      today's if it has not passed, tomorrow's otherwise. None for an impossible time. */
  function ClockWait(hour: nat, minute: nat, now: nat): (wait: Option<nat>)
    requires now < SecondsPerDay
    ensures wait.Some? <==> hour < 24 && minute < 60
    ensures wait.Some? ==> wait.value < SecondsPerDay && (now + wait.value) % SecondsPerDay == hour * 3600 + minute * 60
  {
    if hour < 24 && minute < 60 then
      var target := hour * 3600 + minute * 60;
      if target - now < 0 then Some(target + SecondsPerDay - now) else Some(target - now)
    else None
  }

  // ---------------------------------------------------------------------------------------
  // Replies.

  /** A span as the confirmation shows it: hours, then minutes and seconds below 60, each
      only when it is not zero. */
  function CompactDuration(total: nat): string
  {
    SpanText(total / 3600, total / 60 % 60, total % 60)
  }

  function Confirmation(total: nat): string
  {
    "Huudan sitten " + CompactDuration(total) + " päästä asiasta."
  }

  /** The text said when the timer goes off: addressed to the user, or headed "Timer". */
  function TimerText(prefix: Option<Prefix>, message: string): string
  {
    if prefix.Some? && prefix.value.Nickname? then prefix.value.nick + ": " + message else "Timer: " + message
  }

  /** A scheduled timer: the confirmation, then the timer itself. */
  function Scheduled(source: IrcChannel, prefix: Option<Prefix>, message: string, seconds: nat): seq<Effect>
  {
    [Say(source, Confirmation(seconds)), StartTimer(TimerEvent(source, TimerText(prefix, message), seconds))]
  }

  const NegativeReply := "Time parser failed: negative duration."

  /** Rejects a negative duration; otherwise builds the confirmation piece by piece and
      schedules the timer after it. */
  method Schedule(source: IrcChannel, prefix: Option<Prefix>, message: string, duration: int)
    returns (effects: seq<Effect>)
    ensures duration < 0 ==> effects == [Say(source, NegativeReply)]
    ensures duration >= 0 ==> effects == Scheduled(source, prefix, message, duration)
  {
    if duration < 0 {
      return [Say(source, NegativeReply)];
    }
    var text := if prefix.Some? && prefix.value.Nickname? then prefix.value.nick + ": " + message else "Timer: " + message;
    var confirmation := ConfirmationOf(duration);
    effects := [Say(source, confirmation), StartTimer(TimerEvent(source, text, duration))];
  }

  /** The confirmation built piece by piece: hours, minutes and seconds, each only when not
      zero. */
  method ConfirmationOf(duration: nat) returns (confirmation: string)
    ensures confirmation == Confirmation(duration)
  {
    var s := duration % 60;
    var minutesTotal := duration / 60;
    var m := minutesTotal % 60;
    var h := minutesTotal / 60;
    HoursOfSeconds(duration);
    var span := "";
    if h > 0 {
      span := span + NatToString(h) + "h";
    }
    if m > 0 {
      span := span + NatToString(m) + "m";
    }
    if s > 0 {
      span := span + NatToString(s) + "s";
    }
    assert span == SpanText(h, m, s);
    confirmation := "Huudan sitten " + span + " päästä asiasta.";
  }

  lemma HoursOfSeconds(duration: nat)
    ensures duration / 60 / 60 == duration / 3600
  {
  }

  /**
   * `.timer <when> <message>`: nothing for an unknown form; "Unable to parse time from ..."
   * for an impossible wall-clock time; otherwise a confirmation and a timer.
   */
  method CommandTimer(source: IrcChannel, params: string, prefix: Option<Prefix>, now: nat)
    returns (effects: seq<Effect>)
    requires now < SecondsPerDay
    ensures match ReadWhen(TimePart(params))
      case Unrecognised => effects == []
      case Overflow => effects == []
      case After(d) => effects == Scheduled(source, prefix, MessagePart(params), d)
      case AtClock(h, m) =>
        if h < 24 && m < 60 then effects == Scheduled(source, prefix, MessagePart(params), ClockWait(h, m, now).value)
        else effects == [Say(source, "Unable to parse time from " + TimePart(params))]
    ensures Say(source, NegativeReply) !in effects
  {
    var timePart, messagePart := SplitParams(params);
    var duration: nat;
    match ReadWhen(timePart) {
      case AtClock(hour, minute) =>
        var wait := ClockWait(hour, minute, now);
        if wait.None? {
          NeverNegative(source, prefix, messagePart, timePart, now, 0);
          return [Say(source, "Unable to parse time from " + timePart)];
        }
        duration := wait.value;
      case After(seconds) =>
        duration := seconds;
      case Unrecognised =>
        return [];
      case Overflow =>
        return [];
    }
    effects := Schedule(source, prefix, messagePart, duration);
    NeverNegative(source, prefix, messagePart, timePart, now, duration);
  }

  // ---------------------------------------------------------------------------------------
  // Properties of the time forms.

  /** The confirmation's span reads back as the same number of seconds: the text tells the
      user exactly the duration that was scheduled. */
  lemma CompactDurationRoundTrip(total: nat)
    requires total <= MaxDurationSeconds
    ensures ReadWhen(CompactDuration(total)) == After(total)
  {
    var h, m, s := total / 3600, total / 60 % 60, total % 60;
    assert h * 3600 + m * 60 + s == total;
    SpanOf(h, m, s);
    assert CompactDuration(total) == SpanText(h, m, s);
    SpanTextNotClock(h, m, s);
  }

  /** The span text for h hours, m minutes and s seconds, with zero parts left out. */
  function SpanText(h: nat, m: nat, s: nat): string
  {
    (if h > 0 then NatToString(h) + "h" else "")
    + (if m > 0 then NatToString(m) + "m" else "")
    + (if s > 0 then NatToString(s) + "s" else "")
  }

  lemma SpanOf(h: nat, m: nat, s: nat)
    ensures SpanSeconds(SpanText(h, m, s)) == Some(h * 3600 + m * 60 + s)
  {
    HoursStage(h, m, s);
    MinutesStage(m, s);
    SecondsStage(s);
    ComposeStages(SpanText(h, m, s), h, m, s, SpanText(0, m, s), SpanText(0, 0, s));
  }

  lemma ComposeStages(t: string, h: nat, m: nat, s: nat, afterHours: string, afterMinutes: string)
    requires TakeGroup(t, "h") == (h, afterHours)
    requires TakeMinutes(afterHours) == (m, afterMinutes)
    requires TakeGroup(afterMinutes, "s") == (s, "")
    ensures SpanSeconds(t) == Some(h * 3600 + m * 60 + s)
  {
  }

  lemma HoursStage(h: nat, m: nat, s: nat)
    ensures TakeGroup(SpanText(h, m, s), "h") == (h, SpanText(0, m, s))
  {
    var ms := if m > 0 then NatToString(m) + "m" else "";
    var ss := if s > 0 then NatToString(s) + "s" else "";
    var t := SpanText(h, m, s);
    assert SpanText(0, m, s) == "" + ms + ss == ms + ss;
    if h > 0 {
      assert t == NatToString(h) + "h" + (ms + ss);
      GroupReads(h, "h", ms + ss);
    } else if m > 0 {
      assert t == NatToString(m) + ['m'] + ss;
      GroupOther(m, 'm', ss, "h");
    } else if s > 0 {
      assert t == NatToString(s) + ['s'] + "";
      GroupOther(s, 's', "", "h");
    } else {
      assert t == [];
    }
  }

  lemma MinutesStage(m: nat, s: nat)
    ensures TakeMinutes(SpanText(0, m, s)) == (m, SpanText(0, 0, s))
  {
    if m > 0 {
      MinutesGroupRead(m, s);
    } else if s > 0 {
      MinutesGroupAbsent(s);
    } else {
      assert SpanText(0, m, s) == [];
    }
  }

  lemma MinutesGroupRead(m: nat, s: nat)
    requires m > 0
    ensures TakeMinutes(SpanText(0, m, s)) == (m, SpanText(0, 0, s))
  {
    var ss := if s > 0 then NatToString(s) + "s" else "";
    assert SpanText(0, 0, s) == ss;
    assert SpanText(0, m, s) == NatToString(m) + "m" + ss;
    GroupReads(m, "m", ss);
    MinutesNotMin(m, ss);
  }

  lemma MinutesGroupAbsent(s: nat)
    requires s > 0
    ensures TakeMinutes(SpanText(0, 0, s)) == (0, SpanText(0, 0, s))
  {
    assert SpanText(0, 0, s) == NatToString(s) + ['s'] + "";
    GroupOther(s, 's', "", "min");
    GroupOther(s, 's', "", "m");
  }

  lemma SecondsStage(s: nat)
    ensures TakeGroup(SpanText(0, 0, s), "s") == (s, "")
  {
    if s > 0 {
      assert SpanText(0, 0, s) == NatToString(s) + "s" + "";
      GroupReads(s, "s", "");
    } else {
      assert SpanText(0, 0, s) == "";
    }
  }

  lemma {:induction false} DigitRunOfDigits(digits: string, rest: string)
    requires forall k :: 0 <= k < |digits| ==> IsDigit(digits[k])
    requires rest == [] || !IsDigit(rest[0])
    ensures DigitRun(digits + rest) == |digits|
  {
    if digits == [] {
      assert digits + rest == rest;
    } else {
      assert (digits + rest)[1..] == digits[1..] + rest;
      DigitRunOfDigits(digits[1..], rest);
    }
  }

  /** A number followed by its marker is read as one group. */
  lemma GroupReads(n: nat, marker: string, rest: string)
    requires n > 0 && marker != [] && !IsDigit(marker[0])
    ensures Group(NatToString(n) + marker + rest, marker) == Some((n, rest))
  {
    var digits := NatToString(n);
    var t := digits + marker + rest;
    assert t == digits + (marker + rest);
    DigitRunOfDigits(digits, marker + rest);
    assert t[..|digits|] == digits;
    assert t[|digits|..] == marker + rest;
    DigitsValueOfNatToString(n);
    assert t[|digits| + |marker|..] == rest;
  }

  /** A number followed by a different marker is not a group of `marker`. */
  lemma GroupOther(n: nat, c: char, rest: string, marker: string)
    requires n > 0 && !IsDigit(c) && marker != [] && marker[0] != c
    ensures Group(NatToString(n) + [c] + rest, marker) == None
  {
    var digits := NatToString(n);
    var t := digits + [c] + rest;
    assert t == digits + ([c] + rest);
    DigitRunOfDigits(digits, [c] + rest);
    assert t[|digits|..] == [c] + rest;
  }

  /** "<m>m" followed by seconds or nothing is not "<m>min". */
  lemma MinutesNotMin(m: nat, ss: string)
    requires m > 0
    requires ss == [] || IsDigit(ss[0])
    ensures Group(NatToString(m) + "m" + ss, "min") == None
  {
    var digits := NatToString(m);
    var t := digits + "m" + ss;
    assert t == digits + ("m" + ss);
    DigitRunOfDigits(digits, "m" + ss);
    assert t[|digits|..] == "m" + ss;
    if |ss| >= 2 {
      assert ("m" + ss)[1] == ss[0] != 'i';
    }
    assert !StartsWith("m" + ss, "min");
  }

  /** A span text has no ':' or '.', so it is never taken for a wall-clock time. */
  lemma SpanTextNotClock(h: nat, m: nat, s: nat)
    ensures !IsClock(SpanText(h, m, s))
  {
    var hs := if h > 0 then NatToString(h) + "h" else "";
    var ms := if m > 0 then NatToString(m) + "m" else "";
    var ss := if s > 0 then NatToString(s) + "s" else "";
    NoSeparator(h, "h");
    NoSeparator(m, "m");
    NoSeparator(s, "s");
    var t := SpanText(h, m, s);
    assert t == hs + ms + ss;
    assert ':' !in t && '.' !in t;
    if |t| >= 3 {
      assert t[|t| - 3] in t;
    }
  }

  lemma NoSeparator(n: nat, marker: string)
    requires marker == "h" || marker == "m" || marker == "s"
    ensures var part := if n > 0 then NatToString(n) + marker else "";
      ':' !in part && '.' !in part
  {
    var digits := NatToString(n);
    assert ':' !in digits && '.' !in digits by {
      forall k | 0 <= k < |digits| ensures digits[k] != ':' && digits[k] != '.' {
        assert IsDigit(digits[k]);
      }
    }
  }

  /** The spans of the unit tests in `src/timer.rs`: "1h50m2s" is 6602 seconds, "2s" is 2, "3h" is 10800 and "3h36s" is 10836. */
  lemma ExampleSpans()
    ensures ReadWhen("1h50m2s") == After(6602)
  {
    SpanText1h50m2s();
    ExampleSpan(1, 50, 2, "1h50m2s");
  }

  lemma ExampleSecondsSpan()
    ensures ReadWhen("2s") == After(2)
  {
    SpanText2s();
    ExampleSpan(0, 0, 2, "2s");
  }

  lemma ExampleHourSpan()
    ensures ReadWhen("3h") == After(10800)
  {
    SpanText3h();
    ExampleSpan(3, 0, 0, "3h");
  }

  lemma ExampleHourSecondsSpan()
    ensures ReadWhen("3h36s") == After(10836)
  {
    SpanText3h36s();
    ExampleSpan(3, 0, 36, "3h36s");
  }

  lemma SpanText1h50m2s() ensures SpanText(1, 50, 2) == "1h50m2s" { assert NatToString(50) == "50"; }
  lemma SpanText2s() ensures SpanText(0, 0, 2) == "2s" { }
  lemma SpanText3h() ensures SpanText(3, 0, 0) == "3h" { }
  lemma SpanText3h36s() ensures SpanText(3, 0, 36) == "3h36s" { assert NatToString(36) == "36"; }

  lemma ExampleSpan(h: nat, m: nat, s: nat, text: string)
    requires h * 3600 + m * 60 + s <= MaxDurationSeconds
    requires SpanText(h, m, s) == text
    ensures ReadWhen(text) == After(h * 3600 + m * 60 + s)
  {
    SpanOf(h, m, s);
    SpanTextNotClock(h, m, s);
  }

  /** A bare "60" is sixty minutes. */
  lemma ExampleMinutes()
    ensures ReadWhen("60") == After(3600)
  {
    assert DigitRun("60") == 2 by {
      assert "60"[1..] == "0" && "0"[1..] == "";
    }
    assert "60"[2..] == "";
    assert DigitsValue("60") == 60 by {
      assert "60"[..1] == "6";
      assert "6"[..0] == "";
    }
  }

  /** "36:90" is read as a wall-clock time that does not exist. */
  lemma ImpossibleClock()
    ensures ReadWhen("36:90") == AtClock(36, 90)
    ensures ClockWait(36, 90, 0).None?
  {
    var t := "36:90";
    assert t[..2] == "36" && t[3..] == "90";
    assert "36"[..1] == "3" && "90"[..1] == "9";
    assert "3"[..0] == "" && "9"[..0] == "";
    assert IsClock(t);
  }

  /** No form ever gives a negative duration, so the negative-duration reply is never sent:
      neither a scheduled timer nor the unparsable-time reply is that reply. */
  lemma NeverNegative(source: IrcChannel, prefix: Option<Prefix>, message: string, t: string, now: nat, seconds: nat)
    requires now < SecondsPerDay
    ensures ReadWhen(t).After? ==> ReadWhen(t).seconds >= 0
    ensures ReadWhen(t).AtClock? && ClockWait(ReadWhen(t).hour, ReadWhen(t).minute, now).Some? ==>
      ClockWait(ReadWhen(t).hour, ReadWhen(t).minute, now).value >= 0
    ensures Say(source, NegativeReply) !in Scheduled(source, prefix, message, seconds)
    ensures Say(source, NegativeReply) != Say(source, "Unable to parse time from " + t)
  {
    assert Confirmation(seconds)[0] == 'H' && NegativeReply[0] == 'T';
    assert ("Unable to parse time from " + t)[0] == 'U';
  }
}

/**
 * The table in which the timer manager keeps timers across restarts: rows with an
 * auto-incremented id, the instant the timer goes off (seconds since the epoch) and where
 * and what it says.
 */
module TimerStore {
  import opened Actions

  datatype TimerRow = TimerRow(id: int, time: int, message: string, channel: string, network: string)

  /** The rows that have not yet gone off at `now`, in table order. */
  function NotPast(rows: seq<TimerRow>, now: int): (r: seq<TimerRow>)
    ensures forall row :: row in r <==> row in rows && row.time >= now
    ensures |r| <= |rows|
  {
    if rows == [] then []
    else (if rows[0].time >= now then [rows[0]] else []) + NotPast(rows[1..], now)
  }

  /** The rows whose id is not `id`, in table order. */
  function Without(rows: seq<TimerRow>, id: int): (r: seq<TimerRow>)
    ensures forall row :: row in r <==> row in rows && row.id != id
    ensures |r| <= |rows|
  {
    if rows == [] then []
    else (if rows[0].id != id then [rows[0]] else []) + Without(rows[1..], id)
  }

  /** The event a stored row stands for, seen at `now`: the wait is what is left of it. */
  function EventOf(row: TimerRow, now: int): TimerEvent
  {
    TimerEvent(IrcChannel(row.network, row.channel), row.message, row.time - now)
  }

  /** Removing the row just added gives back the table as it was before. */
  lemma {:induction false} WithoutNewRow(rows: seq<TimerRow>, row: TimerRow)
    requires forall r :: r in rows ==> r.id != row.id
    ensures Without(rows + [row], row.id) == rows
  {
    if rows == [] {
      assert rows + [row] == [row];
    } else {
      assert (rows + [row])[1..] == rows[1..] + [row];
      WithoutNewRow(rows[1..], row);
    }
  }

  class TimerTable {
    var rows: seq<TimerRow>
    /** The largest id handed out so far: ids are never reused. */
    var lastId: int

    ghost predicate Valid()
      reads this
    {
      && lastId >= 0
      && (forall row :: row in rows ==> 0 < row.id <= lastId)
      && (forall r1, r2 :: r1 in rows && r2 in rows && r1.id == r2.id ==> r1 == r2)
    }

    constructor ()
      ensures Valid() && rows == [] && lastId == 0
    {
      rows := [];
      lastId := 0;
    }

    /** Stores a new timer to go off `event.seconds` after `now`, under a fresh id. */
    method Add(now: int, event: TimerEvent) returns (id: int)
      requires Valid()
      modifies this
      ensures Valid()
      ensures id == old(lastId) + 1 && lastId == id
      ensures rows == old(rows) + [TimerRow(id, now + event.seconds, event.message, event.target.channel, event.target.network)]
      ensures forall row :: row in old(rows) ==> row.id != id
    {
      lastId := lastId + 1;
      id := lastId;
      rows := rows + [TimerRow(id, now + event.seconds, event.message, event.target.channel, event.target.network)];
    }

    /** Drops the row of a timer that went off. */
    method Remove(id: int)
      requires Valid()
      modifies this
      ensures Valid()
      ensures rows == Without(old(rows), id) && lastId == old(lastId)
    {
      rows := Without(rows, id);
    }

    /** Drops every timer that should already have gone off. */
    method RemoveOld(now: int)
      requires Valid()
      modifies this
      ensures Valid()
      ensures rows == NotPast(old(rows), now) && lastId == old(lastId)
    {
      rows := NotPast(rows, now);
    }

    /** Reads every stored timer back as an event, with the wait left at `now`. */
    method Pending(now: int) returns (events: seq<(int, TimerEvent)>)
      ensures |events| == |rows|
      ensures forall k :: 0 <= k < |rows| ==> events[k] == (rows[k].id, EventOf(rows[k], now))
    {
      events := [];
      var i := 0;
      while i < |rows|
        invariant 0 <= i <= |rows|
        invariant |events| == i
        invariant forall k :: 0 <= k < i ==> events[k] == (rows[k].id, EventOf(rows[k], now))
      {
        var row := rows[i];
        events := events + [(row.id, TimerEvent(IrcChannel(row.network, row.channel), row.message, row.time - now))];
        i := i + 1;
      }
    }

    /** At start-up: old timers are dropped, and every remaining one is restarted with a wait
        that is never negative. */
    method Restore(now: int) returns (events: seq<(int, TimerEvent)>)
      requires Valid()
      modifies this
      ensures Valid()
      ensures rows == NotPast(old(rows), now) && lastId == old(lastId)
      ensures |events| == |rows|
      ensures forall k :: 0 <= k < |rows| ==> events[k] == (rows[k].id, EventOf(rows[k], now))
      ensures forall k :: 0 <= k < |events| ==> events[k].1.seconds >= 0
    {
      RemoveOld(now);
      events := Pending(now);
      forall k | 0 <= k < |events| ensures events[k].1.seconds >= 0 {
        assert rows[k] in rows;
      }
    }
  }
}
