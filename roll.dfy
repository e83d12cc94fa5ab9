/**
 * `.roll <min> <max>` (`src/roll.rs`): two whitespace-separated 64-bit integers with
 * `min < max`, and a draw from `min..=max`.
 */
module Roll {
  import opened Wrappers
  import opened Text
  import opened Actions
  import opened Random

  /** The bounds of a roll: exactly two tokens, both 64-bit integers, the first below the second. */
  function SplitParams(params: string): (r: Option<(int, int)>)
    ensures var tokens := SplitWhitespace(params);
      r.Some? <==> (|tokens| == 2 && ParseI64(tokens[0]).Some? && ParseI64(tokens[1]).Some?
                    && ParseI64(tokens[0]).value < ParseI64(tokens[1]).value)
    ensures r.Some? ==> var tokens := SplitWhitespace(params);
      r.value == (ParseI64(tokens[0]).value, ParseI64(tokens[1]).value)
    ensures r.Some? ==> I64Min <= r.value.0 < r.value.1 <= I64Max
  {
    var tokens := SplitWhitespace(params);
    if |tokens| >= 1 then
      match ParseI64(tokens[0])
      case None => None
      case Some(min) =>
        if |tokens| >= 2 then
          match ParseI64(tokens[1])
          case None => None
          case Some(max) => if |tokens| == 2 && min < max then Some((min, max)) else None
        else None
    else None
  }

  const Usage := "Usage: .roll <min> <max>"

  /** The reply: the rolled number, or the usage line for parameters that are not bounds. */
  function CommandRoll(source: IrcChannel, params: string, raw: nat): (e: Effect)
    ensures e.Send? && e.action.target == source && e.action.actionType.Message?
    ensures SplitParams(params).None? <==> e.action.actionType.text == Usage
    ensures SplitParams(params).Some? ==>
      var (min, max) := SplitParams(params).value;
      var n := ParseI64(e.action.actionType.text);
      n.Some? && min <= n.value <= max
  {
    match SplitParams(params)
    case Some((min, max)) =>
      var rolled := Pick(min, max, raw);
      IntToStringRoundTrip(rolled);
      NumberIsNotUsage(rolled);
      Say(source, IntToString(rolled))
    case None => Say(source, Usage)
  }

  lemma NumberIsNotUsage(i: int)
    ensures IntToString(i) != Usage
  {
    var s := IntToString(i);
    if i < 0 {
      assert s[0] == '-';
    }
    assert s[0] == '-' || IsDigit(s[0]);
  }

  /** Two whitespace-separated tokens are read as the two bounds. */
  lemma TwoTokens(params: string, a: string, b: string)
    requires SplitWhitespace(params) == [a, b]
    ensures SplitParams(params) ==
      if ParseI64(a).Some? && ParseI64(b).Some? && ParseI64(a).value < ParseI64(b).value
      then Some((ParseI64(a).value, ParseI64(b).value)) else None
  {
  }

  /** A printed integer is one whitespace-free token. */
  lemma IntToStringIsWord(i: int)
    ensures IntToString(i) != [] && NoWhitespace(IntToString(i))
  {
    var digits := NatToString(if i < 0 then -i else i);
    assert forall k :: 0 <= k < |digits| ==> IsDigit(digits[k]);
    if i < 0 {
      assert IntToString(i) == "-" + digits;
      assert forall k :: 1 <= k < |IntToString(i)| ==> IntToString(i)[k] == digits[k - 1];
    }
  }

  /** Two printed 64-bit integers with any whitespace around and between them are read back
      as bounds exactly when the first is below the second. */
  lemma BoundsRead(before: string, between: string, after: string, a: int, b: int)
    requires AllWhitespace(before) && AllWhitespace(between) && AllWhitespace(after) && between != []
    requires I64Min <= a <= I64Max && I64Min <= b <= I64Max
    ensures SplitParams(before + IntToString(a) + between + IntToString(b) + after)
      == if a < b then Some((a, b)) else None
  {
    var params := before + IntToString(a) + between + IntToString(b) + after;
    IntToStringIsWord(a);
    IntToStringIsWord(b);
    SplitTwoWords(before, IntToString(a), between, IntToString(b), after);
    IntToStringRoundTrip(a);
    IntToStringRoundTrip(b);
    TwoTokens(params, IntToString(a), IntToString(b));
  }

  /** Surrounding and repeated whitespace and negative bounds are accepted: "    -1     10    "
      is the range from -1 to 10. */
  lemma AcceptedSpaced()
    ensures SplitParams("    -1     10    ") == Some((-1, 10))
  {
    assert IntToString(-1) == "-1" && IntToString(10) == "10";
    assert "    " + IntToString(-1) + "     " + IntToString(10) + "    " == "    -1     10    ";
    BoundsRead("    ", "     ", "    ", -1, 10);
  }

  /** One bound, or none, is rejected. */
  lemma RejectedMissing()
    ensures SplitParams("10") == None
    ensures SplitParams("") == None
  {
    SplitLastWord("10", "");
    assert "10" + "" == "10";
  }
}
