/**
 * RSS feeds per channel (`src/rss.rs`): the `.rss add|remove|list` parameters, the `feeds`
 * and `posts` tables, and the refresh that announces entries not yet posted.
 *
 * The SQLite file is two sequences in row order. `feeds.id` is an `integer primary key`
 * without AUTOINCREMENT, so a new row gets one more than the largest id present. In `posts`,
 * `id` is the primary key and `url` is unique, across all feeds; an insert that breaks either
 * fails. Fetching a URL and parsing the body as a feed are one parameter.
 */
module Rss {
  import opened Wrappers
  import opened Text
  import opened Actions

  datatype RssCommand = Add(url: string) | Remove(id: int) | List

  /** `rsscommand_from_params`; `scheme(u)` is the scheme `Url::parse` finds in `u`, None when `u`
      does not parse as a URL. */
  function FromParams(s: string, scheme: string -> Option<string>): (c: Option<RssCommand>)
    ensures (c.Some? && c.value.Add?) <==>
      (StartsWith(s, "add ") && |SplitWhitespace(s[4..])| == 1
       && scheme(SplitWhitespace(s[4..])[0]).Some? && StartsWith(scheme(SplitWhitespace(s[4..])[0]).value, "http"))
    ensures c.Some? && c.value.Add? ==> c.value.url == SplitWhitespace(s[4..])[0]
    ensures (c.Some? && c.value.Remove?) <==>
      (!StartsWith(s, "add ") && StartsWith(s, "remove ") && ParseI64(s[7..]).Some?)
    ensures c.Some? && c.value.Remove? ==> c.value.id == ParseI64(s[7..]).value
    ensures c == Some(List) <==> s == "list"
  {
    if StartsWith(s, "add ") then
      assert s[0] == 'a';
      var tokens := SplitWhitespace(s[4..]);
      if |tokens| == 1 then
        match scheme(tokens[0])
        case Some(sc) => if StartsWith(sc, "http") then Some(Add(tokens[0])) else None
        case None => None
      else None
    else if StartsWith(s, "remove ") then
      assert s[0] == 'r';
      match ParseI64(s[7..])
      case Some(id) => Some(Remove(id))
      case None => None
    else if s == "list" then Some(List)
    else None
  }

  /** A feed entry as the feed parser gives it. */
  datatype Entry = Entry(id: string, title: Option<string>, links: seq<string>)

  /** The outcome of fetching a feed URL and parsing the body. */
  datatype Download = Unreachable | Unparseable | Parsed(title: Option<string>, entries: seq<Entry>)

  /** A row of `feeds`; `title` is the `name` column. */
  datatype Feed = Feed(id: int, url: string, title: string, network: string, channel: string)

  /** A row of `posts`. */
  datatype Post = Post(id: string, url: string, title: string, feed: int)

  function MaxFeedId(feeds: seq<Feed>): (m: int)
    ensures m >= 0
    ensures forall k :: 0 <= k < |feeds| ==> feeds[k].id <= m
  {
    if feeds == [] then 0
    else
      var m := MaxFeedId(feeds[..|feeds| - 1]);
      if feeds[|feeds| - 1].id > m then feeds[|feeds| - 1].id else m
  }

  /** The id SQLite gives the next row: one more than the largest present. */
  function NewFeedId(feeds: seq<Feed>): (id: int)
    ensures id >= 1
    ensures forall k :: 0 <= k < |feeds| ==> feeds[k].id < id
  {
    MaxFeedId(feeds) + 1
  }

  function FeedTarget(feed: Feed): IrcChannel {
    IrcChannel(feed.network, feed.channel)
  }

  /** `SELECT * FROM feeds WHERE network = :network AND channel = :channel`, in row order. */
  function ForChannel(feeds: seq<Feed>, target: IrcChannel): (r: seq<Feed>)
    ensures forall f :: f in r <==> f in feeds && FeedTarget(f) == target
    ensures |r| <= |feeds|
  {
    if feeds == [] then []
    else
      var last := feeds[|feeds| - 1];
      ForChannel(feeds[..|feeds| - 1], target) + (if FeedTarget(last) == target then [last] else [])
  }

  /** The first feed row with this URL on this channel (`query_row` takes the first). */
  function FirstFeedId(feeds: seq<Feed>, url: string, target: IrcChannel): (r: Option<int>)
    ensures r.Some? <==> exists k :: 0 <= k < |feeds| && feeds[k].url == url && FeedTarget(feeds[k]) == target
    ensures r.Some? ==> exists k :: (0 <= k < |feeds| && feeds[k].id == r.value && feeds[k].url == url
      && FeedTarget(feeds[k]) == target
      && forall j :: 0 <= j < k ==> !(feeds[j].url == url && FeedTarget(feeds[j]) == target))
  {
    if feeds == [] then None
    else if feeds[0].url == url && FeedTarget(feeds[0]) == target then Some(feeds[0].id)
    else
      var r := FirstFeedId(feeds[1..], url, target);
      if r.Some? then
        var k :| 0 <= k < |feeds[1..]| && feeds[1..][k].id == r.value && feeds[1..][k].url == url
          && FeedTarget(feeds[1..][k]) == target
          && forall j :: 0 <= j < k ==> !(feeds[1..][j].url == url && FeedTarget(feeds[1..][j]) == target);
        assert feeds[k + 1] == feeds[1..][k];
        assert forall j :: 1 <= j < k + 1 ==> feeds[j] == feeds[1..][j - 1];
        r
      else
        assert forall k :: 1 <= k < |feeds| ==> feeds[k] == feeds[1..][k - 1];
        r
  }

  /** The feeds left by `DELETE FROM feeds WHERE id = :id AND network = :network AND channel = :channel`. */
  function FeedsWithout(feeds: seq<Feed>, id: int, target: IrcChannel): (r: seq<Feed>)
    ensures forall f :: f in r <==> f in feeds && !(f.id == id && FeedTarget(f) == target)
  {
    if feeds == [] then []
    else
      var last := feeds[|feeds| - 1];
      FeedsWithout(feeds[..|feeds| - 1], id, target) + (if last.id == id && FeedTarget(last) == target then [] else [last])
  }

  /** The posts left by `DELETE FROM posts WHERE feed = :id`. */
  function PostsWithout(posts: seq<Post>, id: int): (r: seq<Post>)
    ensures forall p :: p in r <==> p in posts && p.feed != id
  {
    if posts == [] then []
    else
      var last := posts[|posts| - 1];
      PostsWithout(posts[..|posts| - 1], id) + (if last.feed == id then [] else [last])
  }

  /** Whether the `posts` constraints let `p` in: its id and its URL are both new. */
  predicate Accepted(posts: seq<Post>, p: Post) {
    forall k :: 0 <= k < |posts| ==> posts[k].id != p.id && posts[k].url != p.url
  }

  /** The `posts` constraints: ids and URLs are each unique. */
  predicate UniquePosts(posts: seq<Post>) {
    forall j, k :: 0 <= j < k < |posts| ==> posts[j].id != posts[k].id && posts[j].url != posts[k].url
  }

  /** Inserting posts one by one, stopping at the first the constraints refuse: the table
      afterwards, and whether all went in. */
  function AddPosts(posts: seq<Post>, news: seq<Post>): (r: (seq<Post>, bool))
    ensures r.1 ==> r.0 == posts + news
    ensures |posts| <= |r.0| && r.0[..|posts|] == posts
    decreases |news|
  {
    if news == [] then (posts, true)
    else if Accepted(posts, news[0]) then
      var r := AddPosts(posts + [news[0]], news[1..]);
      assert (posts + [news[0]]) + news[1..] == posts + news;
      assert r.0[..|posts|] == (r.0[..|posts| + 1])[..|posts|];
      r
    else (posts, false)
  }

  /** Whether an entry has been recorded for this feed (`entry_is_posted`). */
  predicate Posted(posts: seq<Post>, entryId: string, feedId: int) {
    exists k :: 0 <= k < |posts| && posts[k].id == entryId && posts[k].feed == feedId
  }

  /** The post recorded for an entry: its first link, and its title or "". */
  function PostOf(e: Entry, feedId: int): Post
    requires e.links != []
  {
    Post(e.id, e.links[0], e.title.GetOr(""), feedId)
  }

  /** The entries that have a link, in order. */
  function Linked(entries: seq<Entry>): (r: seq<Entry>)
    ensures |r| <= |entries|
    ensures forall e :: e in r <==> e in entries && e.links != []
  {
    if entries == [] then []
    else (if entries[0].links != [] then [entries[0]] else []) + Linked(entries[1..])
  }

  /** Filtering keeps the order: the linked entries of two runs of entries are those of the
      first run followed by those of the second. */
  lemma {:induction false} LinkedAppend(a: seq<Entry>, b: seq<Entry>)
    ensures Linked(a + b) == Linked(a) + Linked(b)
  {
    if a == [] {
      assert a + b == b;
    } else {
      assert (a + b)[0] == a[0];
      assert (a + b)[1..] == a[1..] + b;
      LinkedAppend(a[1..], b);
    }
  }

  /** The posts recorded for the entries that have a link, in order. */
  function LinkedPosts(entries: seq<Entry>, feedId: int): (r: seq<Post>)
    ensures forall k :: 0 <= k < |r| ==> r[k].feed == feedId
    ensures forall e :: e in entries && e.links != [] ==> PostOf(e, feedId) in r
  {
    if entries == [] then []
    else if entries[0].links == [] then LinkedPosts(entries[1..], feedId)
    else [PostOf(entries[0], feedId)] + LinkedPosts(entries[1..], feedId)
  }

  /** The posts recorded are exactly one per linked entry, in entry order: the entry's id, first
      link and title for this feed. */
  lemma {:induction false} LinkedPostsInOrder(entries: seq<Entry>, feedId: int)
    ensures |LinkedPosts(entries, feedId)| == |Linked(entries)|
    ensures forall k :: 0 <= k < |Linked(entries)| ==>
      LinkedPosts(entries, feedId)[k] == PostOf(Linked(entries)[k], feedId)
  {
    if entries != [] {
      LinkedPostsInOrder(entries[1..], feedId);
      if entries[0].links != [] {
        assert Linked(entries) == [entries[0]] + Linked(entries[1..]);
      } else {
        assert Linked(entries) == Linked(entries[1..]);
      }
    }
  }

  /** The entries a refresh announces: those with a link not yet posted for this feed, in order. */
  function NewEntries(posts: seq<Post>, feedId: int, entries: seq<Entry>): (r: seq<Entry>)
    ensures forall e :: e in r <==> e in entries && e.links != [] && !Posted(posts, e.id, feedId)
  {
    if entries == [] then []
    else
      var last := entries[|entries| - 1];
      NewEntries(posts, feedId, entries[..|entries| - 1])
        + (if last.links != [] && !Posted(posts, last.id, feedId) then [last] else [])
  }

  /** The posts recorded for announced entries. */
  function PostsOf(entries: seq<Entry>, feedId: int): (r: seq<Post>)
    requires forall k :: 0 <= k < |entries| ==> entries[k].links != []
    ensures |r| == |entries|
    ensures forall k :: 0 <= k < |entries| ==> r[k] == PostOf(entries[k], feedId)
  {
    if entries == [] then [] else PostsOf(entries[..|entries| - 1], feedId) + [PostOf(entries[|entries| - 1], feedId)]
  }

  /** The announcement of a new entry: `[feed] title <link>` on the feed's channel. */
  function Announcement(feed: Feed, e: Entry): Effect
    requires e.links != []
  {
    Say(FeedTarget(feed), "[" + feed.title + "] " + e.title.GetOr("") + " <" + e.links[0] + ">")
  }

  function Announcements(feed: Feed, entries: seq<Entry>): (r: seq<Effect>)
    requires forall k :: 0 <= k < |entries| ==> entries[k].links != []
    ensures |r| == |entries|
    ensures forall k :: 0 <= k < |entries| ==> r[k] == Announcement(feed, entries[k])
  {
    if entries == [] then [] else Announcements(feed, entries[..|entries| - 1]) + [Announcement(feed, entries[|entries| - 1])]
  }

  /** How a refresh ended: every feed done, stopped at the feed (by row position) that could not
      be fetched or parsed, or a panic on a refused insert. */
  datatype RefreshEnd = Finished | Stopped(at: nat) | Panicked

  /** A line of `.rss list`. */
  function ListLine(target: IrcChannel, feed: Feed): Effect {
    Say(target, IntToString(feed.id) + ": " + feed.title + " | " + feed.url)
  }

  function ListLines(target: IrcChannel, feeds: seq<Feed>): (r: seq<Effect>)
    ensures |r| == |feeds|
    ensures forall k :: 0 <= k < |feeds| ==> r[k] == ListLine(target, feeds[k])
  {
    if feeds == [] then [] else ListLines(target, feeds[..|feeds| - 1]) + [ListLine(target, feeds[|feeds| - 1])]
  }

  /** The two tables of `db/rss.db`. */
  class FeedStore {
    var feeds: seq<Feed>
    var posts: seq<Post>

    /** Feed ids are positive and unique, and the `posts` constraints hold. */
    predicate Valid()
      reads this
    {
      && (forall k :: 0 <= k < |feeds| ==> feeds[k].id >= 1)
      && (forall j, k :: 0 <= j < k < |feeds| ==> feeds[j].id != feeds[k].id)
      && UniquePosts(posts)
    }

    constructor ()
      ensures Valid() && feeds == [] && posts == []
    {
      feeds := [];
      posts := [];
    }

    /** One `INSERT INTO posts`; refused by the constraints, it changes nothing. */
    method InsertPost(p: Post) returns (ok: bool)
      requires Valid()
      modifies this
      ensures Valid()
      ensures ok == Accepted(old(posts), p)
      ensures posts == if ok then old(posts) + [p] else old(posts)
      ensures feeds == old(feeds)
    {
      ok := forall k :: 0 <= k < |posts| ==> posts[k].id != p.id && posts[k].url != p.url;
      if ok {
        posts := posts + [p];
      }
    }

    /** `add_feed_to_db`: insert the feed row, look its id up, then record every entry that has
        a link as posted, so that existing entries are not announced; the first refused post
        ends it with an error, keeping what was inserted before. */
    method AddFeedToDb(title: string, url: string, entries: seq<Entry>, target: IrcChannel) returns (ok: bool)
      requires Valid()
      modifies this
      ensures Valid()
      ensures feeds == old(feeds) + [Feed(NewFeedId(old(feeds)), url, title, target.network, target.channel)]
      ensures FirstFeedId(feeds, url, target).Some?
      ensures var feedId := FirstFeedId(feeds, url, target).value;
        (posts, ok) == AddPosts(old(posts), LinkedPosts(entries, feedId))
    {
      var newId := NewFeedId(feeds);
      feeds := feeds + [Feed(newId, url, title, target.network, target.channel)];
      assert feeds[|feeds| - 1].url == url && FeedTarget(feeds[|feeds| - 1]) == target;
      var feedId := FirstFeedId(feeds, url, target).value;
      ghost var posts0 := posts;
      var i := 0;
      while i < |entries|
        invariant 0 <= i <= |entries|
        invariant Valid() && feeds == old(feeds) + [Feed(newId, url, title, target.network, target.channel)]
        invariant AddPosts(posts0, LinkedPosts(entries, feedId)) == AddPosts(posts, LinkedPosts(entries[i..], feedId))
      {
        assert entries[i..][1..] == entries[i + 1..];
        if entries[i].links != [] {
          var p := PostOf(entries[i], feedId);
          var inserted := InsertPost(p);
          if !inserted {
            ok := false;
            return;
          }
        }
        i := i + 1;
      }
      assert entries[i..] == [];
      ok := true;
    }

    /** `remove_feed`: a feed of this channel with the id is deleted together with every post
        that refers to the id; otherwise an error and no change. */
    method RemoveFeed(source: IrcChannel, id: int) returns (r: Result<(), string>)
      requires Valid()
      modifies this
      ensures Valid()
      ensures r.Ok? <==> exists k :: 0 <= k < |old(feeds)| && old(feeds)[k].id == id && FeedTarget(old(feeds)[k]) == source
      ensures r.Ok? ==> feeds == FeedsWithout(old(feeds), id, source) && posts == PostsWithout(old(posts), id)
      ensures r.Err? ==> (feeds == old(feeds) && posts == old(posts)
        && r.error == "Feed " + IntToString(id) + " does not exists in this channel")
    {
      if exists k :: 0 <= k < |feeds| && feeds[k].id == id && FeedTarget(feeds[k]) == source {
        FeedsWithoutKeepsValid(feeds, id, source);
        PostsWithoutUnique(posts, id);
        feeds := FeedsWithout(feeds, id, source);
        posts := PostsWithout(posts, id);
        r := Ok(());
      } else {
        r := Err("Feed " + IntToString(id) + " does not exists in this channel");
      }
    }

    /** `get_feeds_for_channel`. */
    method FeedsForChannel(target: IrcChannel) returns (r: seq<Feed>)
      ensures r == ForChannel(feeds, target)
    {
      r := [];
      var i := 0;
      while i < |feeds|
        invariant 0 <= i <= |feeds|
        invariant r == ForChannel(feeds[..i], target)
      {
        assert feeds[..i + 1][..i] == feeds[..i];
        if FeedTarget(feeds[i]) == target {
          r := r + [feeds[i]];
        }
        i := i + 1;
      }
      assert feeds[..i] == feeds;
    }

    /** The entries of a fetched feed that `refresh_feeds` announces. */
    method Unposted(feedId: int, entries: seq<Entry>) returns (toOutput: seq<Entry>)
      ensures toOutput == NewEntries(posts, feedId, entries)
    {
      toOutput := [];
      var i := 0;
      while i < |entries|
        invariant 0 <= i <= |entries|
        invariant toOutput == NewEntries(posts, feedId, entries[..i])
      {
        assert entries[..i + 1][..i] == entries[..i];
        if entries[i].links != [] && !Posted(posts, entries[i].id, feedId) {
          toOutput := toOutput + [entries[i]];
        }
        i := i + 1;
      }
      assert entries[..i] == entries;
    }

    /** `refresh_feeds`: every feed in row order is fetched and its new entries announced. A
        feed that cannot be fetched or parsed stops the whole refresh; a refused insert panics. */
    method Refresh(download: string -> Download) returns (effects: seq<Effect>, end: RefreshEnd)
      requires Valid()
      modifies this
      ensures Valid() && feeds == old(feeds)
      ensures |old(posts)| <= |posts| && posts[..|old(posts)|] == old(posts)
      ensures end == Finished ==> AllQuiet(posts, feeds, download)
      ensures end.Stopped? ==> end.at < |feeds| && !download(feeds[end.at].url).Parsed?
    {
      effects := [];
      var i := 0;
      while i < |feeds|
        invariant 0 <= i <= |feeds|
        invariant Valid() && feeds == old(feeds)
        invariant |old(posts)| <= |posts| && posts[..|old(posts)|] == old(posts)
        invariant AllQuiet(posts, feeds[..i], download)
      {
        var feed := feeds[i];
        var d := download(feed.url);
        if !d.Parsed? {
          end := Stopped(i);
          return;
        }
        ghost var before := posts;
        var announced, ok := RefreshNext(feed, download, feeds[..i]);
        effects := effects + announced;
        if !ok {
          end := Panicked;
          return;
        }
        assert feeds[..i + 1] == feeds[..i] + [feed];
        assert posts[..|old(posts)|] == before[..|old(posts)|];
        i := i + 1;
      }
      assert feeds[..i] == feeds;
      end := Finished;
    }

    /** One fetched feed of `refresh_feeds`, keeping the feeds refreshed before it quiet. */
    method RefreshNext(feed: Feed, download: string -> Download, ghost done: seq<Feed>)
      returns (announced: seq<Effect>, ok: bool)
      requires Valid() && download(feed.url).Parsed? && AllQuiet(posts, done, download)
      modifies this
      ensures Valid() && feeds == old(feeds)
      ensures |old(posts)| <= |posts| && posts[..|old(posts)|] == old(posts)
      ensures ok ==> AllQuiet(posts, done + [feed], download)
    {
      announced, ok := RefreshFeed(feed, download(feed.url).entries);
      ghost var more := posts[|old(posts)|..];
      assert posts == old(posts) + more;
      if ok {
        RefreshStep(old(posts), more, done, feed, download);
      }
    }

    /** `add_feed`: fetch and parse the feed, store it, and say how that went. */
    method AddFeed(target: IrcChannel, url: string, download: Download) returns (effects: seq<Effect>)
      requires Valid()
      modifies this
      ensures Valid()
      ensures download.Unreachable? ==>
        effects == [Say(target, "Error adding feed: Unable to get URL " + url)] && feeds == old(feeds) && posts == old(posts)
      ensures download.Unparseable? ==>
        effects == [Say(target, "Error adding feed: Unable to parse feed.")] && feeds == old(feeds) && posts == old(posts)
      ensures download.Parsed? ==>
        var title := download.title.GetOr("NoTitle");
        && feeds == old(feeds) + [Feed(NewFeedId(old(feeds)), url, title, target.network, target.channel)]
        && FirstFeedId(feeds, url, target).Some?
        && var added := AddPosts(old(posts), LinkedPosts(download.entries, FirstFeedId(feeds, url, target).value));
        && posts == added.0
        && effects == [Say(target, if added.1 then "Successfully added feed " + title
                                   else "Error adding feed " + title + ": Database error")]
    {
      match download {
        case Unreachable =>
          effects := [Say(target, "Error adding feed: Unable to get URL " + url)];
        case Unparseable =>
          effects := [Say(target, "Error adding feed: Unable to parse feed.")];
        case Parsed(t, entries) =>
          var title := t.GetOr("NoTitle");
          var ok := AddFeedToDb(title, url, entries, target);
          var message := if ok then "Successfully added feed " + title else "Error adding feed " + title + ": Database error";
          effects := [Say(target, message)];
      }
    }

    /** `command_rss`: the `add`, `remove` and `list` subcommands; other parameters do nothing. */
    method CommandRss(source: IrcChannel, params: string, scheme: string -> Option<string>,
                      download: string -> Download) returns (effects: seq<Effect>)
      requires Valid()
      modifies this
      ensures Valid()
      ensures FromParams(params, scheme).None? ==> effects == [] && feeds == old(feeds) && posts == old(posts)
      ensures FromParams(params, scheme) == Some(List) ==>
        effects == ListLines(source, ForChannel(feeds, source)) && feeds == old(feeds) && posts == old(posts)
      ensures FromParams(params, scheme).Some? && FromParams(params, scheme).value.Remove? ==>
        var id := FromParams(params, scheme).value.id;
        |effects| == 1
        && (effects[0] == Say(source, "Removed feed id " + IntToString(id)) <==>
            exists k :: 0 <= k < |old(feeds)| && old(feeds)[k].id == id && FeedTarget(old(feeds)[k]) == source)
    {
      match FromParams(params, scheme) {
        case Some(Add(url)) =>
          effects := AddFeed(source, url, download(url));
        case Some(Remove(id)) =>
          var r := RemoveFeed(source, id);
          var message := if r.Ok? then "Removed feed id " + IntToString(id) else r.error;
          if r.Err? {
            RemovedIsNotError(id);
          }
          effects := [Say(source, message)];
        case Some(List) =>
          var channelFeeds := FeedsForChannel(source);
          effects := ListLines(source, channelFeeds);
        case None =>
          effects := [];
      }
    }

    /** One feed of `refresh_feeds`: collect the entries with a link not yet posted for the
        feed, then announce each and record it. A refused insert panics, which ends the
        refresh after that entry's announcement. */
    method RefreshFeed(feed: Feed, entries: seq<Entry>) returns (effects: seq<Effect>, ok: bool)
      requires Valid()
      modifies this
      ensures Valid() && feeds == old(feeds)
      ensures var unseen := NewEntries(old(posts), feed.id, entries);
        ok ==> effects == Announcements(feed, unseen) && posts == old(posts) + PostsOf(unseen, feed.id)
      ensures var unseen := NewEntries(old(posts), feed.id, entries);
        !ok ==> exists k :: (0 <= k < |unseen| && effects == Announcements(feed, unseen[..k + 1])
          && posts == old(posts) + PostsOf(unseen[..k], feed.id)
          && !Accepted(posts, PostOf(unseen[k], feed.id)))
      ensures ok ==> NewEntries(posts, feed.id, entries) == []
      ensures |old(posts)| <= |posts| && posts[..|old(posts)|] == old(posts)
    {
      var toOutput := Unposted(feed.id, entries);
      assert forall k :: 0 <= k < |toOutput| ==> toOutput[k] in toOutput;
      effects, ok := AnnounceAll(feed, toOutput);
      if ok {
        AnnouncedAreQuiet(old(posts), feed.id, entries);
      }
    }

    /** The second half of a feed's refresh: announce and record each entry in turn. */
    method AnnounceAll(feed: Feed, toOutput: seq<Entry>) returns (effects: seq<Effect>, ok: bool)
      requires Valid()
      requires forall k :: 0 <= k < |toOutput| ==> toOutput[k].links != []
      modifies this
      ensures Valid() && feeds == old(feeds)
      ensures ok ==> effects == Announcements(feed, toOutput) && posts == old(posts) + PostsOf(toOutput, feed.id)
      ensures !ok ==> exists k :: (0 <= k < |toOutput| && effects == Announcements(feed, toOutput[..k + 1])
          && posts == old(posts) + PostsOf(toOutput[..k], feed.id)
          && !Accepted(posts, PostOf(toOutput[k], feed.id)))
      ensures |old(posts)| <= |posts| && posts[..|old(posts)|] == old(posts)
    {
      effects := [];
      var j := 0;
      while j < |toOutput|
        invariant 0 <= j <= |toOutput|
        invariant Valid() && feeds == old(feeds)
        invariant effects == Announcements(feed, toOutput[..j])
        invariant posts == old(posts) + PostsOf(toOutput[..j], feed.id)
        invariant |old(posts)| <= |posts| && posts[..|old(posts)|] == old(posts)
      {
        assert toOutput[..j + 1][..j] == toOutput[..j];
        effects := effects + [Announcement(feed, toOutput[j])];
        var p := PostOf(toOutput[j], feed.id);
        var inserted := InsertPost(p);
        if !inserted {
          ok := false;
          assert effects == Announcements(feed, toOutput[..j + 1]);
          return;
        }
        j := j + 1;
      }
      assert toOutput[..j] == toOutput;
      ok := true;
    }
  }

  lemma FeedsWithoutKeepsValid(feeds: seq<Feed>, id: int, target: IrcChannel)
    requires forall k :: 0 <= k < |feeds| ==> feeds[k].id >= 1
    requires forall j, k :: 0 <= j < k < |feeds| ==> feeds[j].id != feeds[k].id
    ensures var r := FeedsWithout(feeds, id, target);
      (forall k :: 0 <= k < |r| ==> r[k].id >= 1) && (forall j, k :: 0 <= j < k < |r| ==> r[j].id != r[k].id)
  {
    if feeds != [] {
      var init := feeds[..|feeds| - 1];
      FeedsWithoutKeepsValid(init, id, target);
      var r := FeedsWithout(feeds, id, target);
      var r0 := FeedsWithout(init, id, target);
      forall j, k | 0 <= j < k < |r|
        ensures r[j].id != r[k].id
      {
        if k == |r0| {
          assert r[j] in init;
          assert r[k] == feeds[|feeds| - 1];
        }
      }
      forall k | 0 <= k < |r|
        ensures r[k].id >= 1
      {
        assert r[k] in feeds;
      }
    }
  }

  lemma PostsWithoutUnique(posts: seq<Post>, id: int)
    requires UniquePosts(posts)
    ensures UniquePosts(PostsWithout(posts, id))
  {
    if posts != [] {
      var init := posts[..|posts| - 1];
      PostsWithoutUnique(init, id);
      var r := PostsWithout(posts, id);
      var r0 := PostsWithout(init, id);
      forall j, k | 0 <= j < k < |r|
        ensures r[j].id != r[k].id && r[j].url != r[k].url
      {
        if k == |r0| {
          assert r[j] in init;
        }
      }
    }
  }

  lemma RemovedIsNotError(id: int)
    ensures "Removed feed id " + IntToString(id) != "Feed " + IntToString(id) + " does not exists in this channel"
  {
    var a := "Removed feed id " + IntToString(id);
    var b := "Feed " + IntToString(id) + " does not exists in this channel";
    assert a[0] == 'R' && b[0] == 'F';
  }

  /** A feed that gives nothing new on a refresh. */
  predicate Quiet(posts: seq<Post>, feed: Feed, download: string -> Download) {
    download(feed.url).Parsed? && NewEntries(posts, feed.id, download(feed.url).entries) == []
  }

  /** Every feed of `feeds` gives nothing new. */
  predicate AllQuiet(posts: seq<Post>, feeds: seq<Feed>, download: string -> Download) {
    forall k :: 0 <= k < |feeds| ==> Quiet(posts, feeds[k], download)
  }

  /** With every entry that has a link posted, nothing is new. */
  lemma {:induction false} NoneNew(posts: seq<Post>, feedId: int, entries: seq<Entry>)
    requires forall e :: e in entries && e.links != [] ==> Posted(posts, e.id, feedId)
    ensures NewEntries(posts, feedId, entries) == []
  {
    if entries != [] {
      var init := entries[..|entries| - 1];
      assert forall e :: e in init ==> e in entries;
      NoneNew(posts, feedId, init);
      assert entries[|entries| - 1] in entries;
    }
  }

  /** Posts only accumulate, so an entry posted stays posted and a feed with nothing new stays so. */
  lemma QuietStaysQuiet(posts: seq<Post>, more: seq<Post>, feedId: int, entries: seq<Entry>)
    requires NewEntries(posts, feedId, entries) == []
    ensures NewEntries(posts + more, feedId, entries) == []
  {
    forall e | e in entries && e.links != []
      ensures Posted(posts + more, e.id, feedId)
    {
      assert e !in NewEntries(posts, feedId, entries);
      var k :| 0 <= k < |posts| && posts[k].id == e.id && posts[k].feed == feedId;
      assert (posts + more)[k] == posts[k];
    }
    NoneNew(posts + more, feedId, entries);
  }

  /** After a refresh of a feed has recorded what it announced, the same entries give nothing new:
      a second refresh announces nothing. */
  lemma AnnouncedAreQuiet(posts: seq<Post>, feedId: int, entries: seq<Entry>)
    ensures var unseen := NewEntries(posts, feedId, entries);
      NewEntries(posts + PostsOf(unseen, feedId), feedId, entries) == []
  {
    var unseen := NewEntries(posts, feedId, entries);
    var after := posts + PostsOf(unseen, feedId);
    forall e | e in entries && e.links != []
      ensures Posted(after, e.id, feedId)
    {
      if Posted(posts, e.id, feedId) {
        var k :| 0 <= k < |posts| && posts[k].id == e.id && posts[k].feed == feedId;
        assert after[k] == posts[k];
      } else {
        assert e in unseen;
        var k :| 0 <= k < |unseen| && unseen[k] == e;
        assert after[|posts| + k] == PostOf(e, feedId);
      }
    }
    NoneNew(after, feedId, entries);
  }

  /** One feed of a refresh done: it and every feed before it give nothing new. */
  lemma RefreshStep(before: seq<Post>, more: seq<Post>, done: seq<Feed>, feed: Feed, download: string -> Download)
    requires AllQuiet(before, done, download)
    requires download(feed.url).Parsed? && NewEntries(before + more, feed.id, download(feed.url).entries) == []
    ensures AllQuiet(before + more, done + [feed], download)
  {
    forall k | 0 <= k < |done|
      ensures Quiet(before + more, done[k], download)
    {
      QuietStaysQuiet(before, more, done[k].id, download(done[k].url).entries);
    }
  }

  /** Adding a feed records every entry with a link, so the first refresh announces none of the
      entries the feed had when it was added. */
  lemma AddedAreQuiet(posts: seq<Post>, feedId: int, entries: seq<Entry>)
    requires AddPosts(posts, LinkedPosts(entries, feedId)).1
    ensures NewEntries(AddPosts(posts, LinkedPosts(entries, feedId)).0, feedId, entries) == []
  {
    var linked := LinkedPosts(entries, feedId);
    var after := posts + linked;
    forall e | e in entries && e.links != []
      ensures Posted(after, e.id, feedId)
    {
      var k := LinkedPostAt(entries, feedId, e);
      assert after[|posts| + k] == PostOf(e, feedId);
    }
    NoneNew(after, feedId, entries);
  }

  /** A post that the constraints refuse at any point stops the inserts: not all go in. */
  lemma {:induction false} RefusedStops(posts: seq<Post>, news: seq<Post>, k: nat)
    requires k < |news| && !Accepted(posts, news[k])
    ensures !AddPosts(posts, news).1
    decreases |news|
  {
    if k > 0 && Accepted(posts, news[0]) {
      var j :| 0 <= j < |posts| && !(posts[j].id != news[k].id && posts[j].url != news[k].url);
      assert (posts + [news[0]])[j] == posts[j];
      assert news[1..][k - 1] == news[k];
      RefusedStops(posts + [news[0]], news[1..], k - 1);
    }
  }

  /** As written: once a feed's entries are recorded for one channel, adding the same feed to
      another channel fails, because post ids (and URLs) are unique across all feeds, although
      whether an entry was posted is asked per feed. */
  lemma SecondSubscriptionFails(posts: seq<Post>, entries: seq<Entry>, firstId: int, secondId: int, e: Entry)
    requires AddPosts(posts, LinkedPosts(entries, firstId)).1
    requires e in entries && e.links != []
    ensures !AddPosts(AddPosts(posts, LinkedPosts(entries, firstId)).0, LinkedPosts(entries, secondId)).1
  {
    var first := LinkedPosts(entries, firstId);
    var after := posts + first;
    var second := LinkedPosts(entries, secondId);
    var i := LinkedPostAt(entries, firstId, e);
    assert after[|posts| + i] == PostOf(e, firstId);
    var k := LinkedPostAt(entries, secondId, e);
    RefusedStops(after, second, k);
  }

  /** Where the post of a linked entry sits among the posts recorded for the entries. */
  lemma LinkedPostAt(entries: seq<Entry>, feedId: int, e: Entry) returns (i: nat)
    requires e in entries && e.links != []
    ensures i < |LinkedPosts(entries, feedId)| && LinkedPosts(entries, feedId)[i] == PostOf(e, feedId)
  {
    var r := LinkedPosts(entries, feedId);
    assert PostOf(e, feedId) in r;
    i :| 0 <= i < |r| && r[i] == PostOf(e, feedId);
  }

  /** Corrected: a post is refused only when the same entry is already recorded for the same feed. */
  predicate AcceptedPerFeed(posts: seq<Post>, p: Post) {
    forall k :: 0 <= k < |posts| ==> !(posts[k].id == p.id && posts[k].feed == p.feed)
  }

  /** Corrected: `AddPosts` with posts keyed by entry id and feed. */
  function AddPostsPerFeed(posts: seq<Post>, news: seq<Post>): (r: (seq<Post>, bool))
    ensures r.1 ==> r.0 == posts + news
    decreases |news|
  {
    if news == [] then (posts, true)
    else if AcceptedPerFeed(posts, news[0]) then
      var r := AddPostsPerFeed(posts + [news[0]], news[1..]);
      assert (posts + [news[0]]) + news[1..] == posts + news;
      r
    else (posts, false)
  }

  /** Corrected: posts for one feed with distinct entry ids, none of them recorded for that
      feed yet, all go in whatever other feeds have recorded; so the same feed can be added
      to any number of channels. */
  lemma {:induction false} PerFeedSubscriptionSucceeds(posts: seq<Post>, news: seq<Post>, feedId: int)
    requires forall k :: 0 <= k < |news| ==> news[k].feed == feedId
    requires forall j, k :: 0 <= j < k < |news| ==> news[j].id != news[k].id
    requires forall j, k :: 0 <= j < |posts| && 0 <= k < |news| ==> !(posts[j].feed == feedId && posts[j].id == news[k].id)
    ensures AddPostsPerFeed(posts, news).1
    decreases |news|
  {
    if news != [] {
      assert AcceptedPerFeed(posts, news[0]);
      var more := posts + [news[0]];
      var rest := news[1..];
      forall j, k | 0 <= j < |more| && 0 <= k < |rest|
        ensures !(more[j].feed == feedId && more[j].id == rest[k].id)
      {
        assert rest[k] == news[k + 1];
        if j == |posts| {
          assert more[j] == news[0];
        } else {
          assert more[j] == posts[j];
        }
      }
      PerFeedSubscriptionSucceeds(more, rest, feedId);
    }
  }

  /** With posts keyed per feed, a feed's first refresh after it was added to a second channel
      announces nothing there either. */
  lemma PerFeedAddedAreQuiet(posts: seq<Post>, feedId: int, entries: seq<Entry>)
    requires AddPostsPerFeed(posts, LinkedPosts(entries, feedId)).1
    ensures NewEntries(AddPostsPerFeed(posts, LinkedPosts(entries, feedId)).0, feedId, entries) == []
  {
    var linked := LinkedPosts(entries, feedId);
    var after := posts + linked;
    forall e | e in entries && e.links != []
      ensures Posted(after, e.id, feedId)
    {
      var k := LinkedPostAt(entries, feedId, e);
      assert after[|posts| + k] == PostOf(e, feedId);
    }
    NoneNew(after, feedId, entries);
  }

  /** `add` followed by one word: accepted exactly when the word parses as a URL whose scheme
      starts with "http" (so `add http://example.com/feed` is, and `add file:///root/.ssh/id_rsa`
      is not). */
  lemma ParseAddOne(url: string, spaces: string, scheme: string -> Option<string>)
    requires url != [] && NoWhitespace(url) && AllWhitespace(spaces)
    ensures FromParams("add " + url + spaces, scheme) ==
      if scheme(url).Some? && StartsWith(scheme(url).value, "http") then Some(Add(url)) else None
  {
    var s := "add " + url + spaces;
    assert s[..4] == "add ";
    assert s[4..] == url + spaces;
    SplitLastWord(url, spaces);
  }

  /** `add` followed by two or more words is refused, whatever the words are (so
      `add this is not a URL` is). */
  lemma ParseAddWords(first: string, spaces: string, rest: string, scheme: string -> Option<string>)
    requires first != [] && NoWhitespace(first) && spaces != [] && AllWhitespace(spaces)
    requires rest != [] && !IsWhitespace(rest[0])
    ensures FromParams("add " + first + spaces + rest, scheme) == None
  {
    var s := "add " + first + spaces + rest;
    assert s[..4] == "add ";
    assert s[4..] == first + (spaces + rest);
    SplitTakesWord(first, spaces + rest);
    SplitSkipsWhitespace(spaces, rest);
  }

  /** `remove` followed by a 64-bit integer is that integer (`remove 3`); followed by something
      that does not start like a number it is refused (`remove NaN`). */
  lemma ParseRemove(id: int, text: string, scheme: string -> Option<string>)
    requires I64Min <= id <= I64Max
    requires text != [] && !IsDigit(text[0]) && text[0] != '-' && text[0] != '+'
    ensures FromParams("remove " + IntToString(id), scheme) == Some(Remove(id))
    ensures FromParams("remove " + text, scheme) == None
  {
    IntToStringRoundTrip(id);
    var s := "remove " + IntToString(id);
    assert s[..4] != "add " by { assert s[0] == 'r'; }
    assert s[..7] == "remove ";
    assert s[7..] == IntToString(id);
    var t := "remove " + text;
    assert t[..4] != "add " by { assert t[0] == 'r'; }
    assert t[..7] == "remove ";
    assert t[7..] == text;
  }

  /** The store's own add test, for any feed with one linked entry: the feed added to a channel
      gets id 1 and its entry is recorded. */
  method AddScenario(target: IrcChannel, title: string, url: string, entry: Entry)
    returns (feeds: seq<Feed>, recorded: seq<Post>)
    requires entry.links != []
    ensures feeds == [Feed(1, url, title, target.network, target.channel)]
    ensures recorded == [Post(entry.id, entry.links[0], entry.title.GetOr(""), 1)]
  {
    var store := new FeedStore();
    var feed := Feed(1, url, title, target.network, target.channel);
    OneEntryRecorded(entry);
    OnlyFeedFound(feed);
    assert NewFeedId([]) == 1;
    var ok := store.AddFeedToDb(title, url, [entry], target);
    feeds := store.feeds;
    recorded := store.posts;
  }

  lemma OneEntryRecorded(entry: Entry)
    requires entry.links != []
    ensures AddPosts([], LinkedPosts([entry], 1)) == ([PostOf(entry, 1)], true)
  {
    assert LinkedPosts([entry], 1) == [PostOf(entry, 1)] by {
      assert [entry][1..] == [];
    }
    assert [PostOf(entry, 1)][1..] == [];
    assert [] + [PostOf(entry, 1)] == [PostOf(entry, 1)];
  }

  lemma OnlyFeedFound(feed: Feed)
    ensures FirstFeedId([] + [feed], feed.url, FeedTarget(feed)) == Some(feed.id)
  {
    assert [] + [feed] == [feed];
  }

  /** A new store with one feed added to `target` and no entries. */
  method StoreWithOneFeed(target: IrcChannel, title: string, url: string) returns (store: FeedStore)
    ensures fresh(store) && store.Valid()
    ensures store.feeds == [Feed(1, url, title, target.network, target.channel)]
  {
    store := new FeedStore();
    assert NewFeedId([]) == 1;
    var ok := store.AddFeedToDb(title, url, [], target);
  }

  /** A feed alone on its channel is that channel's list. */
  lemma OnlyFeedListed(feed: Feed)
    ensures ForChannel([feed], FeedTarget(feed)) == [feed]
  {
    assert [feed][..0] == [];
  }

  /** Removing a channel's only feed leaves nothing. */
  lemma OnlyFeedRemoved(feed: Feed)
    ensures FeedsWithout([feed], feed.id, FeedTarget(feed)) == []
  {
    assert [feed][..0] == [];
  }

  /** The store's own list test: a channel's only feed is listed as `1: title | url`. */
  method ListScenario(target: IrcChannel, title: string, url: string) returns (lines: seq<Effect>)
    ensures lines == [Say(target, IntToString(1) + ": " + title + " | " + url)]
  {
    var store := StoreWithOneFeed(target, title, url);
    var feed := Feed(1, url, title, target.network, target.channel);
    OnlyFeedListed(feed);
    var feeds := store.FeedsForChannel(target);
    lines := ListLines(target, feeds);
  }

  /** The store's own remove test: removing a channel's only feed from another network fails
      and keeps it; removing it from its own channel empties the channel's list. */
  method RemoveScenario(target: IrcChannel, otherNetwork: string, title: string, url: string)
    returns (wrongRemove: Result<(), string>, afterWrong: seq<Feed>, rightRemove: Result<(), string>, afterRight: seq<Feed>)
    requires otherNetwork != target.network
    ensures wrongRemove.Err? && |afterWrong| == 1
    ensures rightRemove.Ok? && afterRight == []
  {
    var store := StoreWithOneFeed(target, title, url);
    var feed := Feed(1, url, title, target.network, target.channel);
    OnlyFeedListed(feed);
    OnlyFeedRemoved(feed);
    wrongRemove := store.RemoveFeed(IrcChannel(otherNetwork, target.channel), 1);
    afterWrong := store.FeedsForChannel(target);
    rightRemove := store.RemoveFeed(target, 1);
    afterRight := store.FeedsForChannel(target);
  }
}
