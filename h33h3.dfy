/**
 * The "h33h3" game (`src/h33h3.rs`): a draw from `0..=100` picks a fixed reply, and most
 * draws fall through to the "kasipallo" (magic eight-ball) table, a second draw from
 * `1..=20`, some of whose entries draw a third number. Draws are parameters.
 */
module H33h3 {
  import opened Wrappers
  import opened Text
  import opened Actions
  import opened Random

  /** The largest number a numeric kasipallo entry can say, for the entries that draw one. */
  function NumericBound(draw: int): (b: Option<int>)
    ensures b.Some? ==> 1 <= draw <= 20 && 1 <= b.value <= 5
  {
    if draw == 1 || draw == 14 then Some(4)
    else if draw == 3 || draw == 20 then Some(5)
    else if draw == 4 || draw == 12 then Some(2)
    else if draw == 5 || draw == 11 || draw == 15 then Some(1)
    else if draw == 6 || draw == 13 then Some(3)
    else None
  }

  /** `nbotti_kasipallo`: the entry for `draw`, with `inner` the raw value of the entry's own draw;
      a draw outside `1..=20` panics (None). */
  function Kasipallo(draw: int, inner: nat): (r: Option<ActionType>)
    ensures r.None? <==> !(1 <= draw <= 20)
    ensures r.Some? ==> (r.value.Action? <==> draw == 7)
    ensures r.Some? && NumericBound(draw).Some? ==>
      var n := ParseI64(r.value.text);
      n.Some? && 0 <= n.value <= NumericBound(draw).value
  {
    match NumericBound(draw)
    case Some(bound) =>
      var n := Pick(0, bound, inner);
      IntToStringRoundTrip(n);
      Some(Message(IntToString(n)))
    case None =>
      if draw == 2 then Some(Message(".____________."))
      else if draw == 7 then Some(Action("am cry"))
      else if draw == 8 then Some(Message("fail"))
      else if draw == 9 || draw == 10 || draw == 16 || draw == 19 then Some(Message("0"))
      else if draw == 17 then Some(Message("::|"))
      else if draw == 18 then Some(Message("h3-- not."))
      else None
  }

  /** The outcome of one game: the main reply and, for two draws, a line said before it. */
  datatype Outcome = Outcome(main: ActionType, extra: Option<ActionType>)

  const LaughLow := "<W> har har har"
  const LaughHigh := "<W> HAR VITUN HAR"

  function LoseText(nick: string): string {
    "GOOD DAY " + nick + ", YOU LOSE AT THE INTTER NETS"
  }

  /** `nbotti_h33h3`: the first draw `draw` (from `0..=100`), and the raw values of the
      kasipallo draw and of its inner draw. */
  function Game(nick: string, draw: int, kasiRaw: nat, innerRaw: nat): (o: Outcome)
    ensures o.extra.Some? <==> draw == 30 || draw == 31
    ensures draw == 30 ==> o.extra == Some(Message(LaughLow))
    ensures draw == 31 ==> o.extra == Some(Message(LaughHigh))
    ensures draw == 23 || draw == 55 ==> o.main == Message(LoseText(nick))
    ensures draw == 28 ==> o.main == Message("hngggg")
    ensures draw == 29 ==> o.main == Message("h33h3")
    ensures draw !in {23, 55, 28, 29} ==> Some(o.main) == Kasipallo(Pick(1, 20, kasiRaw), innerRaw)
  {
    var kasipallo := Kasipallo(Pick(1, 20, kasiRaw), innerRaw);
    if draw == 23 || draw == 55 then Outcome(Message(LoseText(nick)), None)
    else if draw == 28 then Outcome(Message("hngggg"), None)
    else if draw == 29 then Outcome(Message("h33h3"), None)
    else if draw == 30 then Outcome(kasipallo.value, Some(Message(LaughLow)))
    else if draw == 31 then Outcome(kasipallo.value, Some(Message(LaughHigh)))
    else Outcome(kasipallo.value, None)
  }

  /** `handle_h33h3`: the extra line, if any, then the main reply, both to `source`. */
  function HandleH33h3(source: IrcChannel, nick: string, outerRaw: nat, kasiRaw: nat, innerRaw: nat)
    : (effects: seq<Effect>)
    ensures var o := Game(nick, Pick(0, 100, outerRaw), kasiRaw, innerRaw);
      && 1 <= |effects| && effects[|effects| - 1] == Send(BotAction(source, o.main))
      && (o.extra.Some? ==> effects == [Send(BotAction(source, o.extra.value)), Send(BotAction(source, o.main))])
      && (o.extra.None? ==> |effects| == 1)
  {
    var o := Game(nick, Pick(0, 100, outerRaw), kasiRaw, innerRaw);
    var main := Send(BotAction(source, o.main));
    match o.extra
    case Some(extra) => [Send(BotAction(source, extra)), main]
    case None => [main]
  }

  /** A kasipallo draw taken from `1..=20` never reaches the panic. */
  lemma KasipalloNeverPanics(kasiRaw: nat, innerRaw: nat)
    ensures Kasipallo(Pick(1, 20, kasiRaw), innerRaw).Some?
  {
  }

  /** Every number an entry can say is said for some inner draw. */
  lemma {:induction false} NumericOnto(draw: int, n: int)
    requires NumericBound(draw).Some? && 0 <= n <= NumericBound(draw).value
    ensures exists inner: nat :: Kasipallo(draw, inner) == Some(Message(IntToString(n)))
  {
    var inner: nat := n;
    assert Pick(0, NumericBound(draw).value, inner) == n;
    assert Kasipallo(draw, inner) == Some(Message(IntToString(n)));
  }

  /** Two lines are sent exactly when the first draw is 30 or 31, and every line goes to the
      channel the game was played on. */
  lemma ExtraFirst(source: IrcChannel, nick: string, outerRaw: nat, kasiRaw: nat, innerRaw: nat)
    ensures var effects := HandleH33h3(source, nick, outerRaw, kasiRaw, innerRaw);
      |effects| == 2 <==> outerRaw % 101 == 30 || outerRaw % 101 == 31
    ensures var effects := HandleH33h3(source, nick, outerRaw, kasiRaw, innerRaw);
      forall k :: 0 <= k < |effects| ==> effects[k].Send? && effects[k].action.target == source
  {
  }
}
