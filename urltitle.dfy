/**
 * URL titles (`src/urltitle.rs`): which URLs of a message are looked up, which responses are
 * worth reading, which title a page offers, how the title is cleaned up before it is said,
 * and the age phrase used for tweets.
 */
module UrlTitle {
  import opened Wrappers
  import opened Text
  import opened Actions

  // ---------------------------------------------------------------------------------------
  // URL extraction: the matches of `https?://[^ ]+`, leftmost first, never overlapping.

  /** Length of the run of non-space characters at the start of `s` (only ' ' ends a URL). */
  function NonSpaceRun(s: string): (n: nat)
    ensures n <= |s|
    ensures forall k :: 0 <= k < n ==> s[k] != ' '
    ensures n == |s| || s[n] == ' '
  {
    if s == [] || s[0] == ' ' then 0 else 1 + NonSpaceRun(s[1..])
  }

  /** Length of the URL match that starts at the first character of `s`, 0 when none does. */
  function MatchAt(s: string): (n: nat)
    ensures n <= |s|
    ensures n > 0 ==> (StartsWith(s, "https://") && n > 8) || (StartsWith(s, "http://") && n > 7)
    ensures forall k :: 0 <= k < n ==> s[k] != ' '
    ensures n > 0 ==> n == |s| || s[n] == ' '
  {
    if StartsWith(s, "https://") && |s| > 8 && s[8] != ' ' then 8 + NonSpaceRun(s[8..])
    else if StartsWith(s, "http://") && |s| > 7 && s[7] != ' ' then 7 + NonSpaceRun(s[7..])
    else 0
  }

  /** A URL as the bot recognises one: a scheme prefix, then one or more non-space characters. */
  predicate IsUrl(u: string)
  {
    ((StartsWith(u, "https://") && |u| > 8) || (StartsWith(u, "http://") && |u| > 7))
    && forall k :: 0 <= k < |u| ==> u[k] != ' '
  }

  /** A match is a URL: its scheme prefix followed by one or more non-space characters. */
  lemma MatchIsUrl(t: string)
    requires MatchAt(t) > 0
    ensures IsUrl(t[..MatchAt(t)])
  {
    var n := MatchAt(t);
    assert t[..n][..8] == t[..8] || n <= 8;
    assert t[..n][..7] == t[..7];
  }

  /** The length of the match at each position of `s`. */
  function MatchLens(s: string): (m: seq<nat>)
    ensures |m| == |s|
    ensures forall p :: 0 <= p < |s| ==> m[p] == MatchAt(s[p..]) && p + m[p] <= |s|
  {
    seq(|s|, p requires 0 <= p < |s| => MatchAt(s[p..]))
  }

  /** No match runs past the end of the text. */
  predicate InBounds(m: seq<nat>)
  {
    forall p :: 0 <= p < |m| ==> p + m[p] <= |m|
  }

  /** The scan `find_iter` makes over match lengths `m` from position `i`: take the match at
      the current position and continue after it, or move on one position when there is none. */
  function Scan(m: seq<nat>, i: nat): (st: seq<nat>)
    requires i <= |m| && InBounds(m)
    ensures forall k :: 0 <= k < |st| ==> i <= st[k] < |m| && m[st[k]] > 0
    ensures forall k :: 0 <= k < |st| - 1 ==> st[k] + m[st[k]] <= st[k + 1]
    decreases |m| - i
  {
    if i == |m| then []
    else if m[i] > 0 then [i] + Scan(m, i + m[i])
    else Scan(m, i + 1)
  }

  /** Position `j` lies within one of the matches starting at the positions `st`. */
  predicate Covered(m: seq<nat>, st: seq<nat>, j: nat)
    requires j < |m|
  {
    exists k :: 0 <= k < |st| && st[k] <= j && j < st[k] + m[st[k]]
  }

  /** The scan skips no match: every position from `i` on where a match starts lies within
      one of the matches the scan takes. */
  lemma {:induction false} ScanComplete(m: seq<nat>, i: nat, j: nat)
    requires InBounds(m) && i <= j < |m| && m[j] > 0
    ensures Covered(m, Scan(m, i), j)
    decreases |m| - i
  {
    if m[i] > 0 && j < i + m[i] {
      assert Scan(m, i)[0] == i;
    } else if m[i] > 0 {
      ScanComplete(m, i + m[i], j);
      CoveredCons(m, i, Scan(m, i + m[i]), j);
    } else {
      assert j != i;
      ScanComplete(m, i + 1, j);
    }
  }

  /** A position covered by the later matches stays covered when one more is put in front. */
  lemma CoveredCons(m: seq<nat>, x: nat, rest: seq<nat>, j: nat)
    requires j < |m| && Covered(m, rest, j)
    ensures Covered(m, [x] + rest, j)
  {
    var k :| 0 <= k < |rest| && rest[k] <= j && j < rest[k] + m[rest[k]];
    assert ([x] + rest)[k + 1] == rest[k];
  }

  /** Where the regex's matches in `s` start, left to right: the regex matches at each of
      them, and each match ends before the next one starts. */
  function MatchStarts(s: string): (st: seq<nat>)
    ensures forall k :: 0 <= k < |st| ==> st[k] < |s| && MatchAt(s[st[k]..]) > 0
    ensures forall k :: 0 <= k < |st| - 1 ==> st[k] + MatchAt(s[st[k]..]) <= st[k + 1]
  {
    Scan(MatchLens(s), 0)
  }

  /** No match is skipped: every position where the regex matches lies within one of the
      matches taken, at its start or inside it. With the order of `MatchStarts`, the matches
      taken are therefore the leftmost non-overlapping ones. */
  lemma MatchStartsComplete(s: string, j: nat)
    requires j < |s| && MatchAt(s[j..]) > 0
    ensures exists k :: (0 <= k < |MatchStarts(s)| && MatchStarts(s)[k] <= j
                         && j < MatchStarts(s)[k] + MatchAt(s[MatchStarts(s)[k]..]))
  {
    var m := MatchLens(s);
    ScanComplete(m, 0, j);
    var st := MatchStarts(s);
    var k :| 0 <= k < |st| && st[k] <= j && j < st[k] + m[st[k]];
    assert m[st[k]] == MatchAt(s[st[k]..]);
  }

  /** Every URL of a message, left to right: the text of each match the scan finds. */
  function ExtractUrls(s: string): (r: seq<string>)
    ensures |r| == |MatchStarts(s)|
    ensures forall k :: 0 <= k < |r| ==>
      var p := MatchStarts(s)[k]; r[k] == s[p..p + MatchAt(s[p..])] && IsUrl(r[k])
  {
    var st := MatchStarts(s);
    seq(|st|, k requires 0 <= k < |st| => MatchText(s, st[k]))
  }

  /** The text of the match at position `p`, which is a URL. */
  function MatchText(s: string, p: nat): (u: string)
    requires p < |s| && MatchAt(s[p..]) > 0
    ensures u == s[p..p + MatchAt(s[p..])] && IsUrl(u)
  {
    MatchIsUrl(s[p..]);
    assert s[p..][..MatchAt(s[p..])] == s[p..p + MatchAt(s[p..])];
    s[p..p + MatchAt(s[p..])]
  }

  /** The regex finds a match somewhere in `s`. */
  predicate ContainsUrl(s: string)
  {
    exists i :: 0 <= i < |s| && MatchAt(s[i..]) > 0
  }

  /** A message has a URL worth looking up exactly when the extraction finds one. */
  lemma ContainsUrlIffExtracted(s: string)
    ensures ContainsUrl(s) <==> ExtractUrls(s) != []
  {
    if ContainsUrl(s) {
      var i :| 0 <= i < |s| && MatchAt(s[i..]) > 0;
      MatchStartsComplete(s, i);
    }
    if ExtractUrls(s) != [] {
      var p := MatchStarts(s)[0];
      assert 0 <= p < |s| && MatchAt(s[p..]) > 0;
    }
  }

  /** The lookup of one URL: a Twitter or Wikipedia URL goes its own way (`special` gives
      Some of its outcome), every other URL is fetched and read by `TitleFromPage`. */
  function TitleOf(url: string, special: string -> Option<Option<string>>, fetch: string -> Option<Page>): Option<string>
  {
    if special(url).Some? then special(url).value else TitleFromPage(fetch(url))
  }

  /** Each URL found gets its own lookup, and every title found is said on the channel the
      message came from. */
  function UrlTitleReplies(source: IrcChannel, msg: string, special: string -> Option<Option<string>>,
                           fetch: string -> Option<Page>): (r: seq<Effect>)
    ensures |r| <= |ExtractUrls(msg)|
    ensures forall k :: 0 <= k < |r| ==> r[k].Send? && r[k].action.target == source
  {
    TitleReplies(source, ExtractUrls(msg), url => TitleOf(url, special, fetch))
  }

  function TitleReplies(source: IrcChannel, urls: seq<string>, titleOf: string -> Option<string>): (r: seq<Effect>)
    ensures |r| <= |urls|
    ensures forall k :: 0 <= k < |r| ==> r[k].Send? && r[k].action.target == source
  {
    if urls == [] then []
    else
      (match titleOf(urls[0]) case Some(t) => [Say(source, t)] case None => [])
      + TitleReplies(source, urls[1..], titleOf)
  }

  /** The positions from `i` on whose lookup gives a title, in increasing order. */
  function TitledFrom(urls: seq<string>, titleOf: string -> Option<string>, i: nat): (ix: seq<nat>)
    requires i <= |urls|
    ensures forall k :: 0 <= k < |ix| ==> i <= ix[k] < |urls| && titleOf(urls[ix[k]]).Some?
    ensures forall k :: 0 < k < |ix| ==> ix[k - 1] < ix[k]
    decreases |urls| - i
  {
    if i == |urls| then []
    else if titleOf(urls[i]).Some? then [i] + TitledFrom(urls, titleOf, i + 1)
    else TitledFrom(urls, titleOf, i + 1)
  }

  /** Every position from `i` on whose lookup gives a title is among `TitledFrom`. */
  lemma {:induction false} TitledFromComplete(urls: seq<string>, titleOf: string -> Option<string>, i: nat, j: nat)
    requires i <= j < |urls| && titleOf(urls[j]).Some?
    ensures j in TitledFrom(urls, titleOf, i)
    decreases |urls| - i
  {
    if j != i {
      TitledFromComplete(urls, titleOf, i + 1, j);
    }
  }

  /** The replies `r` say, one each and in order, the titles at the positions `ix`. */
  predicate SaysTitlesAt(source: IrcChannel, urls: seq<string>, titleOf: string -> Option<string>,
                         r: seq<Effect>, ix: seq<nat>)
  {
    |r| == |ix| &&
    forall k :: 0 <= k < |ix| ==>
      ix[k] < |urls| && titleOf(urls[ix[k]]).Some? && r[k] == Say(source, titleOf(urls[ix[k]]).value)
  }

  /** Saying the title at one more position in front keeps the correspondence. */
  lemma SaysTitlesAtCons(source: IrcChannel, urls: seq<string>, titleOf: string -> Option<string>,
                         r: seq<Effect>, ix: seq<nat>, i: nat)
    requires SaysTitlesAt(source, urls, titleOf, r, ix)
    requires i < |urls| && titleOf(urls[i]).Some?
    ensures SaysTitlesAt(source, urls, titleOf, [Say(source, titleOf(urls[i]).value)] + r, [i] + ix)
  {
    var r' := [Say(source, titleOf(urls[i]).value)] + r;
    var ix' := [i] + ix;
    forall k | 0 < k < |ix'|
      ensures ix'[k] < |urls| && titleOf(urls[ix'[k]]).Some? && r'[k] == Say(source, titleOf(urls[ix'[k]]).value)
    {
      assert ix'[k] == ix[k - 1] && r'[k] == r[k - 1];
    }
  }

  /** The replies for the URLs from position `i` on: one per titled position, in order. */
  lemma {:induction false} TitleRepliesFrom(source: IrcChannel, urls: seq<string>, titleOf: string -> Option<string>, i: nat)
    requires i <= |urls|
    ensures SaysTitlesAt(source, urls, titleOf, TitleReplies(source, urls[i..], titleOf), TitledFrom(urls, titleOf, i))
    decreases |urls| - i
  {
    if i < |urls| {
      TitleRepliesFrom(source, urls, titleOf, i + 1);
      var r := TitleReplies(source, urls[i + 1..], titleOf);
      assert urls[i..][1..] == urls[i + 1..];
      assert urls[i..][0] == urls[i];
      if titleOf(urls[i]).Some? {
        assert TitleReplies(source, urls[i..], titleOf) == [Say(source, titleOf(urls[i]).value)] + r;
        SaysTitlesAtCons(source, urls, titleOf, r, TitledFrom(urls, titleOf, i + 1), i);
      } else {
        assert TitleReplies(source, urls[i..], titleOf) == r;
      }
    }
  }

  /** Exactly one reply per URL whose lookup gives a title and none for the others: the replies
      are the titled URLs' titles, one each, taken in the order of the URLs. */
  lemma TitleRepliesExact(source: IrcChannel, urls: seq<string>, titleOf: string -> Option<string>)
    ensures var r := TitleReplies(source, urls, titleOf);
      var ix := TitledFrom(urls, titleOf, 0);
      |r| == |ix| && forall k :: 0 <= k < |ix| ==> r[k] == Say(source, titleOf(urls[ix[k]]).value)
    ensures forall j :: 0 <= j < |urls| && titleOf(urls[j]).Some? ==> j in TitledFrom(urls, titleOf, 0)
  {
    assert urls[0..] == urls;
    TitleRepliesFrom(source, urls, titleOf, 0);
    forall j | 0 <= j < |urls| && titleOf(urls[j]).Some?
      ensures j in TitledFrom(urls, titleOf, 0)
    {
      TitledFromComplete(urls, titleOf, 0, j);
    }
  }

  /** A reply is sent exactly for each URL whose lookup gives a title, and it says that title. */
  lemma {:induction false} TitleRepliesMembership(source: IrcChannel, urls: seq<string>, titleOf: string -> Option<string>, e: Effect)
    ensures e in TitleReplies(source, urls, titleOf) <==>
      exists j :: 0 <= j < |urls| && titleOf(urls[j]).Some? && e == Say(source, titleOf(urls[j]).value)
  {
    if urls != [] {
      TitleRepliesMembership(source, urls[1..], titleOf, e);
      if exists j :: 0 <= j < |urls| && titleOf(urls[j]).Some? && e == Say(source, titleOf(urls[j]).value) {
        var j :| 0 <= j < |urls| && titleOf(urls[j]).Some? && e == Say(source, titleOf(urls[j]).value);
        if j > 0 {
          assert urls[1..][j - 1] == urls[j];
        }
      }
      if e in TitleReplies(source, urls[1..], titleOf) {
        var j :| 0 <= j < |urls[1..]| && titleOf(urls[1..][j]).Some? && e == Say(source, titleOf(urls[1..][j]).value);
        assert urls[j + 1] == urls[1..][j];
      }
    }
  }

  /** For a message: exactly one reply per URL found whose lookup gives a title, saying that
      title, and no reply for a URL without one. */
  lemma UrlTitleRepliesExact(source: IrcChannel, msg: string, special: string -> Option<Option<string>>,
                             fetch: string -> Option<Page>)
    ensures var urls := ExtractUrls(msg);
      var r := UrlTitleReplies(source, msg, special, fetch);
      var ix := TitledFrom(urls, url => TitleOf(url, special, fetch), 0);
      |r| == |ix| && forall k :: 0 <= k < |ix| ==> r[k] == Say(source, TitleOf(urls[ix[k]], special, fetch).value)
    ensures var urls := ExtractUrls(msg);
      forall j :: 0 <= j < |urls| && TitleOf(urls[j], special, fetch).Some? ==>
        j in TitledFrom(urls, url => TitleOf(url, special, fetch), 0)
  {
    TitleRepliesExact(source, ExtractUrls(msg), url => TitleOf(url, special, fetch));
  }

  /** Where no URL of the message is a Twitter or Wikipedia URL, every reply is a page title:
      "Title: " followed by a one-line title. */
  lemma GenericRepliesAreTitles(source: IrcChannel, msg: string, special: string -> Option<Option<string>>,
                                fetch: string -> Option<Page>, e: Effect)
    requires forall k :: 0 <= k < |ExtractUrls(msg)| ==> special(ExtractUrls(msg)[k]).None?
    requires e in UrlTitleReplies(source, msg, special, fetch)
    ensures e.Send? && e.action.actionType.Message?
    ensures var text := e.action.actionType.text;
      StartsWith(text, TitlePrefix) && '\n' !in text && '\r' !in text
  {
    var urls := ExtractUrls(msg);
    var titleOf := url => TitleOf(url, special, fetch);
    TitleRepliesMembership(source, urls, titleOf, e);
    var j :| 0 <= j < |urls| && titleOf(urls[j]).Some? && e == Say(source, titleOf(urls[j]).value);
    var r := TitleFromPage(fetch(urls[j]));
    assert titleOf(urls[j]) == r;
    TitleShape(fetch(urls[j]));
  }

  // ---------------------------------------------------------------------------------------
  // The response-header gate.

  /** A header value converts to text only when it is visible ASCII (or tab). */
  predicate VisibleAscii(v: string)
  {
    forall k :: 0 <= k < |v| ==> v[k] == '\t' || (' ' <= v[k] <= '~')
  }

  datatype Gate = Proceed | Reject | Panic

  const MaxKilobytes: nat := 2048

  /**
   * Whether the body of a response is read: a present Content-Type must start with
   * `text/html` (a value that is not visible ASCII makes the lookup panic), and a present
   * Content-Length must be a number whose kilobytes (rounded down) are at most 2048.
   */
  function HeaderGate(contentType: Option<string>, contentLength: Option<string>): (g: Gate)
    ensures g == Panic <==> contentType.Some? && !VisibleAscii(contentType.value)
    ensures g == Proceed <==>
      && (contentType.None? || (VisibleAscii(contentType.value) && StartsWith(contentType.value, "text/html")))
      && (contentLength.None? || (VisibleAscii(contentLength.value)
            && ParseUnsigned(contentLength.value, U64Max).Some?
            && ParseUnsigned(contentLength.value, U64Max).value < (MaxKilobytes + 1) * 1024))
  {
    if contentType.Some? && !VisibleAscii(contentType.value) then Panic
    else if contentType.Some? && !StartsWith(contentType.value, "text/html") then Reject
    else if contentLength.Some? then
      if !VisibleAscii(contentLength.value) then Reject
      else match ParseUnsigned(contentLength.value, U64Max)
        case None => Reject
        case Some(length) => if length / 1024 > MaxKilobytes then Reject else Proceed
    else Proceed
  }

  // ---------------------------------------------------------------------------------------
  // Choosing and cleaning the title.

  /** A `<meta>` element: its `property` and `content` attributes. */
  datatype Meta = Meta(property: Option<string>, content: Option<string>)

  predicate IsOgTitle(m: Meta)
  {
    m.property == Some("og:title") && m.content.Some?
  }

  /** The content of the last `og:title` meta that has one. */
  function LastOgTitle(metas: seq<Meta>): (r: Option<string>)
    ensures r.Some? <==> exists k :: 0 <= k < |metas| && IsOgTitle(metas[k])
    ensures r.Some? ==> exists k :: (0 <= k < |metas| && IsOgTitle(metas[k]) && r.value == metas[k].content.value
      && forall j :: k < j < |metas| ==> !IsOgTitle(metas[j]))
  {
    if metas == [] then None
    else if IsOgTitle(metas[|metas| - 1]) then metas[|metas| - 1].content
    else
      var r := LastOgTitle(metas[..|metas| - 1]);
      assert forall k :: 0 <= k < |metas| - 1 ==> metas[..|metas| - 1][k] == metas[k];
      r
  }

  /** Scans the metas (the last `og:title` wins); only without one is the first `<title>` used. */
  method FindTitle(metas: seq<Meta>, titleTexts: seq<string>) returns (found: Option<string>)
    ensures LastOgTitle(metas).Some? ==> found == LastOgTitle(metas)
    ensures LastOgTitle(metas).None? ==> found == (if titleTexts == [] then None else Some(titleTexts[0]))
  {
    found := None;
    for i := 0 to |metas|
      invariant found == LastOgTitle(metas[..i])
    {
      assert metas[..i + 1][..i] == metas[..i];
      if metas[i].property == Some("og:title") {
        if metas[i].content.Some? {
          found := metas[i].content;
        }
      }
    }
    assert metas[..|metas|] == metas;
    if found.None? {
      if titleTexts != [] {
        found := Some(titleTexts[0]);
      }
    }
  }

  /** Line breaks and tabs turned into spaces, one character for one (the three `replace`
      calls). */
  function Flatten(title: string): (r: string)
    ensures |r| == |title|
    ensures forall k :: 0 <= k < |title| ==>
      r[k] == (if title[k] == '\n' || title[k] == '\r' || title[k] == '\t' then ' ' else title[k])
  {
    assert " " == [' '];
    var noLf := ReplaceChar(title, '\n', " ");
    ReplaceCharPointwise(title, '\n', ' ');
    var noCr := ReplaceChar(noLf, '\r', " ");
    ReplaceCharPointwise(noLf, '\r', ' ');
    ReplaceCharPointwise(noCr, '\t', ' ');
    ReplaceChar(noCr, '\t', " ")
  }

  /** A title flattened to one line: the flattened title with exactly its surrounding
      whitespace cut off. */
  function CleanBody(title: string): (r: string)
    ensures var flat := Flatten(title); var i := SkipWhitespace(flat, 0);
      && i + |r| <= |flat| && r == flat[i..i + |r|]
      && (forall k :: 0 <= k < i ==> IsWhitespace(flat[k]))
      && (forall k :: i + |r| <= k < |flat| ==> IsWhitespace(flat[k]))
    ensures '\n' !in r && '\r' !in r && '\t' !in r
    ensures r == [] || (!IsWhitespace(r[0]) && !IsWhitespace(r[|r| - 1]))
  {
    var flat := Flatten(title);
    TrimIsSlice(flat);
    FlatHasNoBreaks(title);
    TrimKeepsAbsent(flat, '\n');
    TrimKeepsAbsent(flat, '\r');
    TrimKeepsAbsent(flat, '\t');
    Trim(flat)
  }

  lemma FlatHasNoBreaks(title: string)
    ensures '\n' !in Flatten(title) && '\r' !in Flatten(title) && '\t' !in Flatten(title)
  {
    var flat := Flatten(title);
    assert forall k :: 0 <= k < |flat| ==> flat[k] != '\n' && flat[k] != '\r' && flat[k] != '\t';
  }

  const TitlePrefix := "Title: "

  /** What the request for a URL gets back: the Content-Type and Content-Length headers, and
      the page's `<meta>` elements and `<title>` texts in document order (None when the body
      cannot be read). */
  datatype Page = Page(contentType: Option<string>, contentLength: Option<string>,
                       body: Option<(seq<Meta>, seq<string>)>)

  /** The generic path of `title_from_url`; `fetched` is None when the request fails. A title
      is said only for a response the header gate lets through, whose body is read and offers
      a title; a gate that panics sends nothing either. */
  function TitleFromPage(fetched: Option<Page>): (r: Option<string>)
    ensures r.Some? <==>
      && fetched.Some? && HeaderGate(fetched.value.contentType, fetched.value.contentLength) == Proceed
      && fetched.value.body.Some?
      && (LastOgTitle(fetched.value.body.value.0).Some? || fetched.value.body.value.1 != [])
    ensures r.Some? ==>
      var metas := fetched.value.body.value.0;
      var titles := fetched.value.body.value.1;
      r.value == TitlePrefix + CleanBody(if LastOgTitle(metas).Some? then LastOgTitle(metas).value else titles[0])
  {
    if fetched.None? then None
    else
      var page := fetched.value;
      if HeaderGate(page.contentType, page.contentLength) != Proceed || page.body.None? then None
      else
        var og := LastOgTitle(page.body.value.0);
        if og.Some? then Some(TitlePrefix + CleanBody(og.value))
        else if page.body.value.1 == [] then None
        else Some(TitlePrefix + CleanBody(page.body.value.1[0]))
  }

  /** A title reply is "Title: " and then a title on one line without surrounding whitespace. */
  lemma TitleShape(fetched: Option<Page>)
    requires TitleFromPage(fetched).Some?
    ensures var text := TitleFromPage(fetched).value;
      && StartsWith(text, TitlePrefix)
      && '\n' !in text && '\r' !in text && '\t' !in text
      && var title := text[|TitlePrefix|..];
         title == [] || (!IsWhitespace(title[0]) && !IsWhitespace(title[|title| - 1]))
  {
    var metas := fetched.value.body.value.0;
    var titles := fetched.value.body.value.1;
    var body := CleanBody(if LastOgTitle(metas).Some? then LastOgTitle(metas).value else titles[0]);
    PrefixedTitle(body);
  }

  lemma PrefixedTitle(body: string)
    requires '\n' !in body && '\r' !in body && '\t' !in body
    ensures var text := TitlePrefix + body;
      && StartsWith(text, TitlePrefix) && text[|TitlePrefix|..] == body
      && '\n' !in text && '\r' !in text && '\t' !in text
  {
    var text := TitlePrefix + body;
    assert text[..|TitlePrefix|] == TitlePrefix;
    assert text[|TitlePrefix|..] == body;
  }

  /** `title_from_url`: the special flows first, then the request, the header gate, the body,
      the title scan and the cleanup. */
  method TitleFromUrl(url: string, special: string -> Option<Option<string>>, fetch: string -> Option<Page>)
    returns (r: Option<string>)
    ensures r == TitleOf(url, special, fetch)
  {
    if special(url).Some? {
      return special(url).value;
    }
    var fetched := fetch(url);
    if fetched.None? {
      return None;
    }
    var page := fetched.value;
    var gate := HeaderGate(page.contentType, page.contentLength);
    if gate != Proceed || page.body.None? {
      return None;
    }
    var found := FindTitle(page.body.value.0, page.body.value.1);
    if found.None? {
      return None;
    }
    r := Some(TitlePrefix + CleanBody(found.value));
  }

  /** Flattening is stable: a flattened title flattens to itself. */
  lemma CleanBodyIdempotent(title: string)
    ensures CleanBody(CleanBody(title)) == CleanBody(title)
  {
    CleanBodyFixpoint(CleanBody(title));
  }

  lemma CleanBodyFixpoint(s: string)
    requires '\n' !in s && '\r' !in s && '\t' !in s
    requires s == [] || (!IsWhitespace(s[0]) && !IsWhitespace(s[|s| - 1]))
    ensures CleanBody(s) == s
  {
    FlattenUnchanged(s);
    TrimmedIsFixpoint(s);
  }

  lemma FlattenUnchanged(s: string)
    requires '\n' !in s && '\r' !in s && '\t' !in s
    ensures Flatten(s) == s
  {
  }

  // ---------------------------------------------------------------------------------------
  // The age of a tweet.

  /** Which phrase `timestr` uses for an age of `diff` seconds (chrono's whole days, hours and
      minutes round toward zero). */
  datatype Age = Date | MonthDay | Days(n: int) | Hours(n: int) | Minutes(n: int)

  function TimeBucket(diff: int): (a: Age)
    ensures a == Date <==> diff >= 180 * 86400
    ensures a == MonthDay <==> 31 * 86400 <= diff < 180 * 86400
    ensures a.Days? <==> 86400 <= diff < 31 * 86400
    ensures a.Days? ==> 1 <= a.n <= 30 && a.n * 86400 <= diff < (a.n + 1) * 86400
    ensures a.Hours? <==> 3600 <= diff < 86400
    ensures a.Hours? ==> 1 <= a.n <= 23 && a.n * 3600 <= diff < (a.n + 1) * 3600
    ensures a.Minutes? <==> diff < 3600
    ensures a.Minutes? && diff >= 0 ==> a.n < 60 && a.n * 60 <= diff < (a.n + 1) * 60
  {
    var days := TruncDiv(diff, 86400);
    if days >= 30 * 6 then Date
    else if days > 30 then MonthDay
    else if days >= 1 then Days(days)
    else if TruncDiv(diff, 3600) >= 1 then Hours(TruncDiv(diff, 3600))
    else Minutes(TruncDiv(diff, 60))
  }

  /** The phrase itself; `ymd` and `monthDay` are the post time written as `%Y-%m-%d` and
      `%b %d`, and an unparseable time gives the empty phrase. */
  function TimeStr(diff: Option<int>, ymd: string, monthDay: string): (r: string)
    ensures diff.None? ==> r == ""
    ensures diff.Some? && diff.value >= 180 * 86400 ==> r == ymd
    ensures diff.Some? && 31 * 86400 <= diff.value < 180 * 86400 ==> r == monthDay
    ensures diff.Some? && 86400 <= diff.value < 31 * 86400 ==> r == IntToString(diff.value / 86400) + "d"
    ensures diff.Some? && 3600 <= diff.value < 86400 ==> r == IntToString(diff.value / 3600) + "h"
    ensures diff.Some? && 0 <= diff.value < 3600 ==> r == IntToString(diff.value / 60) + "min"
    ensures diff.Some? && -60 < diff.value < 0 ==> r == "0min"
    ensures diff.Some? && diff.value <= -60 ==> r == "-" + NatToString(-diff.value / 60) + "min"
  {
    match diff
    case None => ""
    case Some(d) =>
      match TimeBucket(d)
      case Date => ymd
      case MonthDay => monthDay
      case Days(n) => IntToString(n) + "d"
      case Hours(n) => IntToString(n) + "h"
      case Minutes(n) => IntToString(n) + "min"
  }
}
