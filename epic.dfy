/**
 * The Epic Games command (`src/epic.rs`): the store's promotions JSON is scanned for games
 * whose discounted price is zero and whose promotional offer is running now, and their titles
 * are announced in one line. The JSON arrives already parsed, as the fields the handler reads
 * from each element; the clock and the date parser are parameters.
 */
module Epic {
  import opened Wrappers
  import opened Text
  import opened Actions

  /** One element of `data.Catalog.searchStore.elements`: its `title` string,
      `price.totalPrice.discountPrice` read as an unsigned integer, and the `startDate` and
      `endDate` strings of its first promotional offer. A field that is absent or of another
      JSON type is None. */
  datatype Game = Game(title: Option<string>, discountPrice: Option<nat>,
                       startDate: Option<string>, endDate: Option<string>)

  /** A body that is not JSON, or a JSON document with (or without) the elements array. */
  datatype Document = NotJson | Json(elements: Option<seq<Game>>)

  const ParseError := "Error parsing JSON"
  const NoGamesError := "No games found"
  const MysteryGame := "Mystery Game"
  const NoFreeGames := "Ei ilmaisia pelejä Epicissä."
  const FreeGamesPrefix := "Epicissä nyt ilmaiseksi: "
  const FetchError := "Virhe ilmaispelien haussa"

  /** A game that is free now: titled (but not the "Mystery Game" placeholder), discounted to
      zero, and with both offer dates present, parseable by `parse` and enclosing `now`. */
  predicate Offered(g: Game, now: int, parse: string -> Option<int>)
  {
    && g.title.Some? && g.title.value != MysteryGame
    && g.discountPrice == Some(0)
    && g.startDate.Some? && g.endDate.Some?
    && parse(g.startDate.value).Some? && parse(g.endDate.value).Some?
    && parse(g.startDate.value).value <= now <= parse(g.endDate.value).value
  }

  /** The titles of the games free now, in the order of the elements. */
  function FreeTitles(games: seq<Game>, now: int, parse: string -> Option<int>): seq<string>
  {
    if games == [] then []
    else
      var last := games[|games| - 1];
      FreeTitles(games[..|games| - 1], now, parse) + (if Offered(last, now, parse) then [last.title.value] else [])
  }

  /** Reading one more element. */
  lemma FreeTitlesSnoc(games: seq<Game>, g: Game, now: int, parse: string -> Option<int>)
    ensures FreeTitles(games + [g], now, parse)
         == FreeTitles(games, now, parse) + (if Offered(g, now, parse) then [g.title.value] else [])
  {
    assert (games + [g])[..|games|] == games;
  }

  /** The loop of `parse_json`: every element failing a check is skipped with `continue`. */
  method CollectFreeTitles(games: seq<Game>, now: int, parse: string -> Option<int>) returns (free: seq<string>)
    ensures free == FreeTitles(games, now, parse)
  {
    free := [];
    for i := 0 to |games|
      invariant free == FreeTitles(games[..i], now, parse)
    {
      var game := games[i];
      assert games[..i + 1] == games[..i] + [game];
      FreeTitlesSnoc(games[..i], game, now, parse);
      if game.title.None? || game.title.value == MysteryGame {
        continue;
      }
      var title := game.title.value;
      if game.discountPrice.None? || game.discountPrice.value != 0 {
        continue;
      }
      if game.startDate.None? || game.endDate.None? {
        continue;
      }
      var start := parse(game.startDate.value);
      var end := parse(game.endDate.value);
      if start.None? || end.None? || start.value > now || end.value < now {
        continue;
      }
      free := free + [title];
    }
    assert games[..|games|] == games;
  }

  /** `parse_json`. */
  method ParseJson(doc: Document, now: int, parse: string -> Option<int>) returns (r: Result<seq<string>, string>)
    ensures doc.NotJson? ==> r == Err(ParseError)
    ensures doc.Json? && doc.elements.None? ==> r == Err(NoGamesError)
    ensures doc.Json? && doc.elements.Some? ==> r == Ok(FreeTitles(doc.elements.value, now, parse))
  {
    if doc.NotJson? {
      return Err(ParseError);
    }
    if doc.elements.None? {
      return Err(NoGamesError);
    }
    var free := CollectFreeTitles(doc.elements.value, now, parse);
    r := Ok(free);
  }

  /** A title is listed exactly when some element with that title is free now. */
  lemma {:induction false} FreeTitlesMembership(games: seq<Game>, now: int, parse: string -> Option<int>, t: string)
    ensures t in FreeTitles(games, now, parse) <==>
      exists k :: 0 <= k < |games| && Offered(games[k], now, parse) && games[k].title == Some(t)
  {
    if games != [] {
      var init := games[..|games| - 1];
      var last := games[|games| - 1];
      assert games == init + [last];
      FreeTitlesSnoc(init, last, now, parse);
      FreeTitlesMembership(init, now, parse, t);
      if exists k :: 0 <= k < |games| && Offered(games[k], now, parse) && games[k].title == Some(t) {
        var k :| 0 <= k < |games| && Offered(games[k], now, parse) && games[k].title == Some(t);
        if k < |init| {
          assert init[k] == games[k];
        }
      }
      if t in FreeTitles(init, now, parse) {
        var k :| 0 <= k < |init| && Offered(init[k], now, parse) && init[k].title == Some(t);
        assert games[k] == init[k];
      }
    }
  }

  /** The placeholder "Mystery Game" is never announced. */
  lemma MysteryGameNeverListed(games: seq<Game>, now: int, parse: string -> Option<int>)
    ensures MysteryGame !in FreeTitles(games, now, parse)
  {
    FreeTitlesMembership(games, now, parse, MysteryGame);
  }

  /** The titles of two runs of elements are those of the first followed by those of the
      second: the scan keeps the order of the elements. */
  lemma {:induction false} FreeTitlesAppend(a: seq<Game>, b: seq<Game>, now: int, parse: string -> Option<int>)
    ensures FreeTitles(a + b, now, parse) == FreeTitles(a, now, parse) + FreeTitles(b, now, parse)
    decreases |b|
  {
    if b == [] {
      assert a + b == a;
    } else {
      var init := b[..|b| - 1];
      var last := b[|b| - 1];
      assert b == init + [last];
      assert a + b == (a + init) + [last];
      FreeTitlesSnoc(a + init, last, now, parse);
      FreeTitlesSnoc(init, last, now, parse);
      FreeTitlesAppend(a, init, now, parse);
    }
  }

  /** At most one title per element. */
  lemma {:induction false} FreeTitlesBounded(games: seq<Game>, now: int, parse: string -> Option<int>)
    ensures |FreeTitles(games, now, parse)| <= |games|
  {
    if games != [] {
      FreeTitlesBounded(games[..|games| - 1], now, parse);
    }
  }

  /** `generate_msg`. */
  function GenerateMsg(titles: seq<string>): string
  {
    if titles == [] then NoFreeGames else FreeGamesPrefix + Join(", ", titles)
  }

  /** The no-free-games line is sent exactly when the list is empty; otherwise the line lists
      the titles after its prefix. */
  lemma GenerateMsgEmptyIff(titles: seq<string>)
    ensures GenerateMsg(titles) == NoFreeGames <==> titles == []
    ensures titles != [] ==>
      var msg := GenerateMsg(titles);
      |FreeGamesPrefix| <= |msg| && msg[..|FreeGamesPrefix|] == FreeGamesPrefix
      && msg[|FreeGamesPrefix|..] == Join(", ", titles)
  {
    if titles != [] {
      var msg := GenerateMsg(titles);
      assert msg[1] == FreeGamesPrefix[1] == 'p';
      assert NoFreeGames[1] == 'i';
      assert msg[..|FreeGamesPrefix|] == FreeGamesPrefix;
    }
  }

  /** The reply to the outcome of the request: None when the request failed. */
  function Reply(fetched: Option<Document>, now: int, parse: string -> Option<int>): string
  {
    if fetched.None? || fetched.value.NotJson? || fetched.value.elements.None? then FetchError
    else GenerateMsg(FreeTitles(fetched.value.elements.value, now, parse))
  }

  /** The error line is sent exactly when the request, the JSON or its elements array failed. */
  lemma ReplyErrorIff(fetched: Option<Document>, now: int, parse: string -> Option<int>)
    ensures Reply(fetched, now, parse) == FetchError <==>
      fetched.None? || fetched.value.NotJson? || fetched.value.elements.None?
  {
    var r := Reply(fetched, now, parse);
    if !(fetched.None? || fetched.value.NotJson? || fetched.value.elements.None?) {
      if FreeTitles(fetched.value.elements.value, now, parse) == [] {
        assert r[0] == 'E' && FetchError[0] == 'V';
      } else {
        assert r[0] == FreeGamesPrefix[0] == 'E';
        assert FetchError[0] == 'V';
      }
    }
  }

  /** `command_epic`: one line to the channel the command came from, whatever happened. */
  method CommandEpic(source: IrcChannel, fetched: Option<Document>, now: int, parse: string -> Option<int>)
    returns (effects: seq<Effect>)
    ensures effects == [Say(source, Reply(fetched, now, parse))]
  {
    var msg := FetchError;
    if fetched.Some? {
      var parsed := ParseJson(fetched.value, now, parse);
      if parsed.Ok? {
        msg := if parsed.value == [] then NoFreeGames else FreeGamesPrefix + Join(", ", parsed.value);
      }
    }
    effects := [Say(source, msg)];
  }
}
