/**
 * The Games Done Quick command (`src/gdq.rs`): the rows of the schedule table are scanned in
 * order; each row with a readable start time is a run, the last run that has started is the
 * one playing and the first that has not is the one up next. The HTML arrives already parsed,
 * as the rows of the run table; the clock and the RFC 3339 parser are parameters.
 */
module Gdq {
  import opened Wrappers
  import opened Actions

  /** A row of the run table: the text of its first `start-time` cell and of its second `td`
      cell, each None when the row has no such cell. */
  datatype Row = Row(startTime: Option<string>, secondCell: Option<string>)

  const NowPlaying := "Now playing: "
  const UpNext := " | Up next: "

  /** A row whose start time is present and parses: a run. */
  predicate Timed(row: Row, parse: string -> Option<int>)
  {
    row.startTime.Some? && parse(row.startTime.value).Some?
  }

  /** A run that starts at `now` or later. */
  predicate Upcoming(row: Row, now: int, parse: string -> Option<int>)
  {
    Timed(row, parse) && parse(row.startTime.value).value >= now
  }

  /** The rows at which the scan ends: an upcoming run, or a run without a second cell, whose
      name `unwrap` cannot read (the handler then panics). */
  predicate Ends(row: Row, now: int, parse: string -> Option<int>)
  {
    Timed(row, parse) && (parse(row.startTime.value).value >= now || row.secondCell.None?)
  }

  /** The position of the first row at which the scan ends, or `|rows|`. */
  function FirstEnd(rows: seq<Row>, now: int, parse: string -> Option<int>): (k: nat)
    ensures k <= |rows|
    ensures forall j :: 0 <= j < k ==> !Ends(rows[j], now, parse)
    ensures k < |rows| ==> Ends(rows[k], now, parse)
  {
    if rows == [] then 0
    else if Ends(rows[0], now, parse) then 0
    else 1 + FirstEnd(rows[1..], now, parse)
  }

  /** The name of the last named run among the rows, or "". */
  function Current(rows: seq<Row>, parse: string -> Option<int>): string
  {
    if rows == [] then ""
    else
      var last := rows[|rows| - 1];
      if Timed(last, parse) && last.secondCell.Some? then last.secondCell.value
      else Current(rows[..|rows| - 1], parse)
  }

  lemma CurrentSnoc(rows: seq<Row>, row: Row, parse: string -> Option<int>)
    ensures Current(rows + [row], parse)
         == if Timed(row, parse) && row.secondCell.Some? then row.secondCell.value else Current(rows, parse)
  {
    assert (rows + [row])[..|rows|] == rows;
  }

  /** A named run. */
  predicate Named(row: Row, parse: string -> Option<int>)
  {
    Timed(row, parse) && row.secondCell.Some?
  }

  /** The current run is that of the last named run, and "" when there is none. */
  lemma {:induction false} CurrentIsLastRun(rows: seq<Row>, parse: string -> Option<int>)
    ensures (forall j :: 0 <= j < |rows| ==> !Named(rows[j], parse)) ==> Current(rows, parse) == ""
    ensures (exists j :: 0 <= j < |rows| && Named(rows[j], parse)) ==>
      exists k :: 0 <= k < |rows| && Named(rows[k], parse) && Current(rows, parse) == rows[k].secondCell.value
                  && forall j :: k < j < |rows| ==> !Named(rows[j], parse)
  {
    if rows != [] {
      var init := rows[..|rows| - 1];
      var last := rows[|rows| - 1];
      assert forall j :: 0 <= j < |init| ==> init[j] == rows[j];
      CurrentIsLastRun(init, parse);
      if Named(last, parse) {
        assert Current(rows, parse) == last.secondCell.value;
      } else {
        assert Current(rows, parse) == Current(init, parse);
        if exists j :: 0 <= j < |rows| && Named(rows[j], parse) {
          var j :| 0 <= j < |rows| && Named(rows[j], parse);
          assert Named(init[j], parse);
          var k :| 0 <= k < |init| && Named(init[k], parse) && Current(init, parse) == init[k].secondCell.value
                   && forall i :: k < i < |init| ==> !Named(init[i], parse);
          assert rows[k] == init[k];
        }
      }
    }
  }

  /** What the scan gives: None when it reaches a run without a name, otherwise the current
      run and the next one ("" when there is none). */
  function Parsed(rows: seq<Row>, now: int, parse: string -> Option<int>): Option<(string, string)>
  {
    var k := FirstEnd(rows, now, parse);
    if k < |rows| && rows[k].secondCell.None? then None
    else Some((Current(rows[..k], parse), if k < |rows| then rows[k].secondCell.value else ""))
  }

  /** An ending row not preceded by one is where the scan ends. */
  lemma EndsHere(rows: seq<Row>, i: nat, now: int, parse: string -> Option<int>)
    requires i < |rows| && i <= FirstEnd(rows, now, parse) && Ends(rows[i], now, parse)
    ensures FirstEnd(rows, now, parse) == i
  {
  }

  /** `parse_html`; None stands for the panic of `unwrap` on a run without a second cell. The
      loop's `break` becomes a `return`, since the loop is followed only by the result. */
  method ParseHtml(rows: seq<Row>, now: int, parse: string -> Option<int>) returns (r: Option<(string, string)>)
    ensures r == Parsed(rows, now, parse)
  {
    var current := "";
    var next := "";
    for i := 0 to |rows|
      invariant i <= FirstEnd(rows, now, parse)
      invariant current == Current(rows[..i], parse)
      invariant next == ""
    {
      var line := rows[i];
      assert rows[..i + 1] == rows[..i] + [line];
      CurrentSnoc(rows[..i], line, parse);
      if line.startTime.Some? {
        var dt := parse(line.startTime.value);
        if dt.Some? {
          if line.secondCell.None? {
            EndsHere(rows, i, now, parse);
            return None;
          }
          var gameName := line.secondCell.value;
          if dt.value < now {
            current := gameName;
          } else {
            next := gameName;
            EndsHere(rows, i, now, parse);
            return Some((current, next));
          }
        }
      }
    }
    assert rows[..|rows|] == rows;
    r := Some((current, next));
  }

  /** The first row of the run table at which the scan ends is where it ends, whatever
      follows it. */
  lemma {:induction false} FirstEndOfPrefix(rows: seq<Row>, rest: seq<Row>, now: int, parse: string -> Option<int>)
    requires FirstEnd(rows, now, parse) < |rows|
    ensures FirstEnd(rows + rest, now, parse) == FirstEnd(rows, now, parse)
    decreases |rows|
  {
    if !Ends(rows[0], now, parse) {
      assert (rows + rest)[1..] == rows[1..] + rest;
      FirstEndOfPrefix(rows[1..], rest, now, parse);
    }
  }

  /** Rows after the first upcoming run change nothing. */
  lemma RowsAfterNextIgnored(rows: seq<Row>, rest: seq<Row>, now: int, parse: string -> Option<int>)
    requires FirstEnd(rows, now, parse) < |rows|
    ensures Parsed(rows + rest, now, parse) == Parsed(rows, now, parse)
  {
    FirstEndOfPrefix(rows, rest, now, parse);
    var k := FirstEnd(rows, now, parse);
    assert (rows + rest)[..k] == rows[..k];
  }

  /** When every run before it has started and is named, the first upcoming named run is the
      one up next, and the one playing is the last run before it. */
  lemma FirstUpcomingIsNext(rows: seq<Row>, k: nat, now: int, parse: string -> Option<int>)
    requires k < |rows| && Upcoming(rows[k], now, parse) && rows[k].secondCell.Some?
    requires forall j :: 0 <= j < k && Timed(rows[j], parse) ==> !Upcoming(rows[j], now, parse) && rows[j].secondCell.Some?
    ensures Parsed(rows, now, parse) == Some((Current(rows[..k], parse), rows[k].secondCell.value))
  {
    assert FirstEnd(rows, now, parse) == k;
  }

  /** With no upcoming run, and every run named, nothing is up next. */
  lemma NothingUpcoming(rows: seq<Row>, now: int, parse: string -> Option<int>)
    requires forall j :: 0 <= j < |rows| && Timed(rows[j], parse) ==> !Upcoming(rows[j], now, parse) && rows[j].secondCell.Some?
    ensures Parsed(rows, now, parse) == Some((Current(rows, parse), ""))
  {
    assert FirstEnd(rows, now, parse) == |rows|;
    assert rows[..|rows|] == rows;
  }

  /** A run without a second cell reached before any upcoming run makes the command panic. */
  lemma UnnamedRunPanics(rows: seq<Row>, k: nat, now: int, parse: string -> Option<int>)
    requires k < |rows| && Timed(rows[k], parse) && rows[k].secondCell.None?
    requires forall j :: 0 <= j < k ==> !Ends(rows[j], now, parse)
    ensures Parsed(rows, now, parse).None?
  {
    assert FirstEnd(rows, now, parse) == k;
  }

  /** `generate_msg`. */
  function GenerateMsg(current: string, next: string): string
  {
    NowPlaying + current + UpNext + next
  }

  /** The current and the next run can be read back from the line. */
  lemma GenerateMsgParts(current: string, next: string)
    ensures var msg := GenerateMsg(current, next);
      && |msg| == |NowPlaying| + |current| + |UpNext| + |next|
      && msg[..|NowPlaying|] == NowPlaying
      && msg[|NowPlaying|..|NowPlaying| + |current|] == current
      && msg[|NowPlaying| + |current|..|NowPlaying| + |current| + |UpNext|] == UpNext
      && msg[|NowPlaying| + |current| + |UpNext|..] == next
  {
    var msg := GenerateMsg(current, next);
    var a := |NowPlaying|;
    var b := a + |current|;
    var c := b + |UpNext|;
    assert msg[..a] == NowPlaying;
    assert msg[a..b] == current;
    assert msg[b..c] == UpNext;
    assert msg[c..] == next;
  }

  /** `command_gdq`: `fetched` is the outcome of the request (None when it failed, which
      panics). Nothing is sent when the handler panics. */
  method CommandGdq(source: IrcChannel, fetched: Option<seq<Row>>, now: int, parse: string -> Option<int>)
    returns (effects: seq<Effect>)
    ensures fetched.None? ==> effects == []
    ensures fetched.Some? ==>
      var parsed := Parsed(fetched.value, now, parse);
      effects == if parsed.Some? then [Say(source, GenerateMsg(parsed.value.0, parsed.value.1))] else []
  {
    if fetched.None? {
      return [];
    }
    var parsed := ParseHtml(fetched.value, now, parse);
    if parsed.None? {
      return [];
    }
    effects := [Say(source, GenerateMsg(parsed.value.0, parsed.value.1))];
  }
}
