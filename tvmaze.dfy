/**
 * The TVmaze episode command (`src/tvmaze.rs`): a show's status and its next or previous
 * episode are read from the show search response, a missing episode is looked up in the
 * embedded episode list according to the status, and one line says when the show airs. The
 * JSON arrives already parsed; an airstamp arrives as the moment and the calendar date it
 * names, or as None when it is missing or not RFC 3339. The clock is two parameters: `now`,
 * the current moment, and `today`, the day number of the local date.
 */
module TvMaze {
  import opened Wrappers
  import opened Text
  import opened Actions

  datatype ShowStatus = Running | Ended | InDevelopment | Tbd

  /** An airing time: `instant` orders it against the clock; `year`, `month` and `day` are its
      calendar date in its own offset, and `dayNumber` counts the days of that date, so that two
      dates lie `b.dayNumber - a.dayNumber` days apart. */
  datatype Airdate = Airdate(instant: int, year: int, month: nat, day: nat, dayNumber: int)

  /** An episode: each of its fields may be missing from the response. */
  datatype EpData = EpData(name: Option<string>, airdate: Option<Airdate>, season: Option<Int64>,
                           number: Option<Int64>)

  datatype ShowData = ShowData(showname: string, status: Option<ShowStatus>, previousep: Option<EpData>,
                               nextep: Option<EpData>)

  /** A parsed response: `null` when no show matches, otherwise the show's name, its status
      string, the links to its next and previous episodes and the embedded episode list, each as
      found (None when absent or of another JSON type). */
  datatype ShowJson =
    | Null
    | Show(name: Option<string>, status: Option<string>, nextLink: Option<string>,
           previousLink: Option<string>, episodes: Option<seq<EpData>>)

  const ParseError := "Error parsing JSON"
  const NotFound := "Show not found"
  const ApiError := "TVmaze API error"

  /** The status strings of the API. */
  function StatusName(s: ShowStatus): string
  {
    match s
    case Running => "Running"
    case Ended => "Ended"
    case InDevelopment => "In Development"
    case Tbd => "To Be Determined"
  }

  /** The status a status string names: one of the four, or None for any other string. */
  function StatusOf(r: string): (s: Option<ShowStatus>)
    ensures s.Some? ==> StatusName(s.value) == r
    ensures s.None? ==> forall st: ShowStatus :: StatusName(st) != r
  {
    if r == "Running" then Some(Running)
    else if r == "Ended" then Some(Ended)
    else if r == "In Development" then Some(InDevelopment)
    else if r == "To Be Determined" then Some(Tbd)
    else None
  }

  /** An episode whose airdate is after `now`. */
  predicate Airs(ep: EpData, now: int)
  {
    ep.airdate.Some? && ep.airdate.value.instant > now
  }

  /** An episode with every field present. */
  predicate Complete(ep: EpData)
  {
    ep.name.Some? && ep.airdate.Some? && ep.season.Some? && ep.number.Some?
  }

  /** The position of the first episode airing after `now`, or `|eps|` when there is none. */
  function FirstAiring(eps: seq<EpData>, now: int): (k: nat)
    ensures k <= |eps|
    ensures forall j :: 0 <= j < k ==> !Airs(eps[j], now)
    ensures k < |eps| ==> Airs(eps[k], now)
  {
    if eps == [] then 0
    else if Airs(eps[0], now) then 0
    else 1 + FirstAiring(eps[1..], now)
  }

  /** The next episode taken from the list: the first one airing after `now`, when it is
      complete; a later episode is never considered. */
  function NextEp(eps: Option<seq<EpData>>, now: int): (r: Option<EpData>)
    ensures r.Some? ==> eps.Some? && Complete(r.value) && Airs(r.value, now)
  {
    if eps.None? then None
    else
      var k := FirstAiring(eps.value, now);
      if k < |eps.value| && Complete(eps.value[k]) then Some(eps.value[k]) else None
  }

  /** `next_ep_from_eplist`. */
  method NextEpFromList(eps: Option<seq<EpData>>, now: int) returns (r: Option<EpData>)
    ensures r == NextEp(eps, now)
  {
    var airdate: Option<Airdate> := None;
    var name: Option<string> := None;
    var season: Option<Int64> := None;
    var number: Option<Int64> := None;
    if eps.None? {
      return None;
    }
    var list := eps.value;
    var i := 0;
    while i < |list|
      invariant i <= FirstAiring(list, now)
      invariant airdate.None? && name.None?
    {
      var ep := list[i];
      if ep.airdate.Some? {
        if ep.airdate.value.instant > now {
          airdate := ep.airdate;
          if ep.name.Some? {
            name := ep.name;
          }
          season := ep.season;
          number := ep.number;
          break;
        }
      }
      i := i + 1;
    }
    if name.Some? && airdate.Some? && season.Some? && number.Some? {
      return Some(EpData(name, airdate, season, number));
    }
    return None;
  }

  /** The episode the list gives, among episodes before it that do not air after `now`: the
      first airing one, when it is complete. */
  lemma NextEpIsFirstAiring(eps: seq<EpData>, now: int, k: nat)
    requires k < |eps| && Airs(eps[k], now)
    requires forall j :: 0 <= j < k ==> !Airs(eps[j], now)
    ensures NextEp(Some(eps), now) == if Complete(eps[k]) then Some(eps[k]) else None
  {
    assert FirstAiring(eps, now) == k;
  }

  /** An incomplete first airing episode hides every later one. */
  lemma IncompleteFirstHidesLater(eps: seq<EpData>, now: int, k: nat)
    requires k < |eps| && Airs(eps[k], now) && !Complete(eps[k])
    requires forall j :: 0 <= j < k ==> !Airs(eps[j], now)
    ensures NextEp(Some(eps), now) == None
  {
    NextEpIsFirstAiring(eps, now, k);
  }

  /** `last_ep_from_eplist`: the last element of the list, as it is. */
  function LastEp(eps: Option<seq<EpData>>): (r: Option<EpData>)
    ensures r.Some? <==> eps.Some? && eps.value != []
    ensures r.Some? ==> r.value == eps.value[|eps.value| - 1]
  {
    if eps.Some? && eps.value != [] then Some(eps.value[|eps.value| - 1]) else None
  }

  /** The episode a link leads to: `get_ep_info(url)`, a request, is the parameter `epInfo`;
      None when there is no link or the request fails. */
  function Linked(link: Option<string>, epInfo: string -> Option<EpData>): Option<EpData>
  {
    if link.Some? then epInfo(link.value) else None
  }

  /** The statuses whose missing next episode is looked up in the list. */
  predicate SeeksNext(status: Option<ShowStatus>)
  {
    status == Some(Running) || status == Some(InDevelopment) || status == Some(Tbd)
  }

  /** The statuses whose missing previous episode is looked up in the list. */
  predicate SeeksPrevious(status: Option<ShowStatus>)
  {
    status == Some(Ended) || status == Some(Tbd)
  }

  /** The show data a response gives. */
  function Parsed(show: ShowJson, epInfo: string -> Option<EpData>, now: int): (d: ShowData)
    requires show.Show?
    ensures d.status == if show.status.Some? then StatusOf(show.status.value) else None
    ensures Linked(show.nextLink, epInfo).Some? ==> d.nextep == Linked(show.nextLink, epInfo)
    ensures Linked(show.previousLink, epInfo).Some? ==> d.previousep == Linked(show.previousLink, epInfo)
    ensures Linked(show.nextLink, epInfo).None? ==>
      d.nextep == if SeeksNext(d.status) then NextEp(show.episodes, now) else None
    ensures Linked(show.previousLink, epInfo).None? ==>
      d.previousep == if SeeksPrevious(d.status) then LastEp(show.episodes) else None
  {
    var status := if show.status.Some? then StatusOf(show.status.value) else None;
    var next := Linked(show.nextLink, epInfo);
    var previous := Linked(show.previousLink, epInfo);
    ShowData(show.name.GetOr(""), status,
             if previous.None? && SeeksPrevious(status) then LastEp(show.episodes) else previous,
             if next.None? && SeeksNext(status) then NextEp(show.episodes, now) else next)
  }

  /** `parse_json`: None for a body that is not JSON. */
  method ParseJson(json: Option<ShowJson>, epInfo: string -> Option<EpData>, now: int)
    returns (r: Result<ShowData, string>)
    ensures json.None? ==> r == Err(ParseError)
    ensures json == Some(Null) ==> r == Err(NotFound)
    ensures json.Some? && json.value.Show? ==> r == Ok(Parsed(json.value, epInfo, now))
  {
    if json.None? {
      return Err(ParseError);
    }
    if json.value.Null? {
      return Err(NotFound);
    }
    var show := json.value;
    var showname := "";
    var status: Option<ShowStatus> := None;
    var nextep: Option<EpData> := None;
    var previousep: Option<EpData> := None;
    if show.name.Some? {
      showname := show.name.value;
    }
    if show.status.Some? {
      status := StatusOf(show.status.value);
    }
    if show.nextLink.Some? {
      var ep := epInfo(show.nextLink.value);
      if ep.Some? {
        nextep := ep;
      }
    }
    if show.previousLink.Some? {
      var ep := epInfo(show.previousLink.value);
      if ep.Some? {
        previousep := ep;
      }
    }
    match status {
    case Some(Running) =>
      if nextep.None? {
        nextep := NextEpFromList(show.episodes, now);
      }
    case Some(Ended) =>
      if previousep.None? {
        previousep := LastEp(show.episodes);
      }
    case Some(InDevelopment) =>
      if nextep.None? {
        nextep := NextEpFromList(show.episodes, now);
      }
    case Some(Tbd) =>
      if nextep.None? {
        nextep := NextEpFromList(show.episodes, now);
      }
      if previousep.None? {
        previousep := LastEp(show.episodes);
      }
    case None =>
    }
    r := Ok(ShowData(showname, status, previousep, nextep));
  }

  /** `time_from_last_ep`, for the number of days since the airdate. */
  function SinceAired(days: int): (r: string)
    ensures r == "" <==> days < 0
  {
    if days < 0 then ""
    else if days == 0 then ", today"
    else if days == 1 then ", yesterday"
    else if days <= 364 then ", " + IntToString(days) + " days ago"
    else if days <= 729 then ", 1 year ago"
    else ", " + IntToString(days / 365) + " years ago"
  }

  /** `n years ago`, in the singular for one. */
  function YearsAgo(n: nat): string
  {
    if n == 1 then ", 1 year ago" else ", " + IntToString(n) + " years ago"
  }

  /** From a year on, the time since airing is counted in whole years, rounded down. */
  lemma SinceAiredInYears(days: int)
    requires days >= 365
    ensures SinceAired(days) == YearsAgo(days / 365)
  {
    if days <= 729 {
      assert days / 365 == 1;
    } else {
      assert days / 365 >= 2;
    }
  }

  /** `time_until_next_ep`, for the number of days until the airdate. */
  function UntilAiring(days: int): (r: string)
    ensures r == "" <==> days < 0
  {
    if days < 0 then ""
    else if days == 0 then ", today"
    else if days == 1 then ", tomorrow"
    else ", " + IntToString(days) + " days from now"
  }

  /** A number printed with the `02` format: zero-padded to two digits. */
  function Pad2(n: nat): (r: string)
    ensures n < 100 ==> |r| == 2
    ensures forall k :: 0 <= k < |r| ==> IsDigit(r[k])
    ensures DigitsValue(r) == n
  {
    DigitsValueOfNatToString(n);
    if n < 10 then
      assert DigitsValue("0" + NatToString(n)) == n by {
        assert ("0" + NatToString(n))[..1] == "0";
      }
      "0" + NatToString(n)
    else NatToString(n)
  }

  /** The airdate printed as year-month-day, with month and day zero-padded to two digits. */
  function DateText(a: Airdate): string
  {
    IntToString(a.year) + "-" + Pad2(a.month) + "-" + Pad2(a.day)
  }

  /** `{season}x{number}`. */
  function EpisodeCode(season: Int64, number: Int64): string
  {
    IntToString(season) + "x" + IntToString(number)
  }

  /** The message about a next episode that is known. */
  function NextAiringMsg(show: string, ep: EpData, today: int): string
  {
    if ep.airdate.None? then "Next episode of " + show + " not found"
    else
      var a := ep.airdate.value;
      var until := UntilAiring(a.dayNumber - today);
      if ep.season.Some? && ep.number.Some? && ep.name.Some? then
        "Next episode of " + show + " " + EpisodeCode(ep.season.value, ep.number.value) + " '"
        + ep.name.value + "' airs on " + DateText(a) + until
      else if ep.name.Some? then
        "Next episode of " + show + " '" + ep.name.value + "' airs on " + DateText(a) + until
      else "Next episode of " + show + " airs on " + DateText(a)
  }

  /** The message about the previous episode when the next one is unknown. */
  function LastAiredMsg(show: string, season: Int64, number: Int64, name: string, a: Airdate, today: int)
    : string
  {
    "No airdate found for next episode of " + show + ". Last episode " + EpisodeCode(season, number)
    + " '" + name + "' aired on " + DateText(a) + SinceAired(today - a.dayNumber)
  }

  /** `next_ep_msg` as written: its previous-episode branch checks number, season and airdate and
      then unwraps the name, which panics when the name is missing (None). */
  function NextEpMsgAsWritten(data: ShowData, today: int): Option<string>
  {
    if data.nextep.Some? then Some(NextAiringMsg(data.showname, data.nextep.value, today))
    else if data.previousep.Some? then
      var p := data.previousep.value;
      if p.number.Some? && p.season.Some? && p.airdate.Some? then
        if p.name.Some? then
          Some(LastAiredMsg(data.showname, p.season.value, p.number.value, p.name.value, p.airdate.value, today))
        else None
      else Some("No episode of " + data.showname + " found")
    else Some("No airdate found for next episode of " + data.showname)
  }

  /** `next_ep_msg` with the name checked alongside number, season and airdate: a previous
      episode without a name is reported like any other incomplete one. */
  function NextEpMsg(data: ShowData, today: int): string
  {
    if data.nextep.Some? then NextAiringMsg(data.showname, data.nextep.value, today)
    else if data.previousep.Some? then
      var p := data.previousep.value;
      if p.number.Some? && p.season.Some? && p.airdate.Some? && p.name.Some? then
        LastAiredMsg(data.showname, p.season.value, p.number.value, p.name.value, p.airdate.value, today)
      else "No episode of " + data.showname + " found"
    else "No airdate found for next episode of " + data.showname
  }

  /** The unchecked unwrap is reached exactly when there is no next episode and the previous one
      has number, season and airdate but no name; everywhere else the corrected message is the
      message as written. */
  lemma NextEpMsgAgrees(data: ShowData, today: int)
    ensures NextEpMsgAsWritten(data, today).None? <==>
      && data.nextep.None? && data.previousep.Some?
      && data.previousep.value.number.Some? && data.previousep.value.season.Some?
      && data.previousep.value.airdate.Some? && data.previousep.value.name.None?
    ensures NextEpMsgAsWritten(data, today).Some? ==> NextEpMsgAsWritten(data, today).value == NextEpMsg(data, today)
  {
  }

  /** A running show with no next episode and an unnamed previous one: the message as written
      panics, and the corrected one says no episode was found. */
  lemma UnnamedPreviousPanics()
    ensures var data := ShowData("Show", Some(Running), Some(EpData(None, Some(Airdate(0, 2020, 1, 1, 0)), Some(1), Some(2))), None);
      && NextEpMsgAsWritten(data, 0) == None
      && NextEpMsg(data, 0) == "No episode of Show found"
  {
  }

  /** The message for an ended show. */
  function EndedMsg(data: ShowData, today: int): string
  {
    if data.previousep.None? || data.previousep.value.airdate.None? then data.showname + " has ended"
    else
      var p := data.previousep.value;
      var a := p.airdate.value;
      var since := SinceAired(today - a.dayNumber);
      if p.name.Some? && p.number.Some? && p.season.Some? then
        "Last episode of " + data.showname + " " + EpisodeCode(p.season.value, p.number.value) + " '"
        + p.name.value + "' aired on " + DateText(a) + since
      else data.showname + " ended on " + DateText(a) + since
  }

  /** The message for a show in development. */
  function DevelopmentMsg(data: ShowData, today: int): string
  {
    if data.nextep.Some? && data.nextep.value.airdate.Some? then
      var a := data.nextep.value.airdate.value;
      data.showname + " will premiere on " + DateText(a) + UntilAiring(a.dayNumber - today)
    else data.showname + " is in development"
  }

  /** `generate_msg` as written: None where `next_ep_msg` panics. */
  function GenerateMsgAsWritten(data: ShowData, today: int): Option<string>
  {
    match data.status
    case Some(Running) => NextEpMsgAsWritten(data, today)
    case Some(Ended) => Some(EndedMsg(data, today))
    case Some(InDevelopment) => Some(DevelopmentMsg(data, today))
    case Some(Tbd) => NextEpMsgAsWritten(data, today)
    case None => Some("Unknown status")
  }

  /** `generate_msg`, with the corrected `next_ep_msg`. */
  function GenerateMsg(data: ShowData, today: int): (msg: string)
    ensures data.status.None? ==> msg == "Unknown status"
    ensures data.status == Some(Ended) && (data.previousep.None? || data.previousep.value.airdate.None?)
            ==> msg == data.showname + " has ended"
    ensures data.status == Some(InDevelopment) && (data.nextep.None? || data.nextep.value.airdate.None?)
            ==> msg == data.showname + " is in development"
    ensures GenerateMsgAsWritten(data, today).Some? ==> GenerateMsgAsWritten(data, today).value == msg
  {
    NextEpMsgAgrees(data, today);
    match data.status
    case Some(Running) => NextEpMsg(data, today)
    case Some(Ended) => EndedMsg(data, today)
    case Some(InDevelopment) => DevelopmentMsg(data, today)
    case Some(Tbd) => NextEpMsg(data, today)
    case None => "Unknown status"
  }

  /** The reply to the outcome of the search: None when the request failed, `Some(None)` when the
      body is not JSON. */
  function Reply(fetched: Option<Option<ShowJson>>, epInfo: string -> Option<EpData>, now: int, today: int)
    : (msg: string)
    ensures fetched.None? ==> msg == ApiError
    ensures fetched == Some(None) ==> msg == ParseError
    ensures fetched == Some(Some(Null)) ==> msg == NotFound
  {
    match fetched
    case None => ApiError
    case Some(None) => ParseError
    case Some(Some(Null)) => NotFound
    case Some(Some(show)) => GenerateMsg(Parsed(show, epInfo, now), today)
  }

  /** `command_ep`: `fetch(params)` is the outcome of the search for `params`. */
  method CommandEp(source: IrcChannel, params: string, fetch: string -> Option<Option<ShowJson>>,
                   epInfo: string -> Option<EpData>, now: int, today: int) returns (effect: Effect)
    ensures effect == Say(source, Reply(fetch(params), epInfo, now, today))
  {
    var fetched := fetch(params);
    var msg := ApiError;
    if fetched.Some? {
      var parsed := ParseJson(fetched.value, epInfo, now);
      match parsed
      case Ok(data) => msg := GenerateMsg(data, today);
      case Err(e) => msg := e;
    }
    effect := Say(source, msg);
  }

  /** A linked episode is never replaced by one from the list. */
  lemma LinkedEpisodesKept(show: ShowJson, epInfo: string -> Option<EpData>, now: int)
    requires show.Show?
    ensures Linked(show.nextLink, epInfo).Some? ==> Parsed(show, epInfo, now).nextep == Linked(show.nextLink, epInfo)
    ensures Linked(show.previousLink, epInfo).Some? ==>
      Parsed(show, epInfo, now).previousep == Linked(show.previousLink, epInfo)
  {
  }
}
