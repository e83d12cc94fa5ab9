# t-botti, modelled in Dafny

t-botti is an IRC bot. It connects to several networks, hands every PRIVMSG to a message
handler, and runs `.command` handlers. Most handlers fetch something and reply with one line.
The rest are an RSS poller and a timer manager.

This project models the deterministic core of that bot:

- **Configuration and routing (`IrcLoop`).** The per-network configuration is read from the
  YAML document. The router (`IrcLoop.Router`, a class) forwards outbound actions to the
  connection of their network, merges inbound messages, and answers the admin query.
- **Message handling (`MessageHandler`).** Each message is classified. A `.command` line is
  split and dispatched, `.rss` is gated on the admin check, and `.echo` replies.
- **Command handlers**, each as its extract-and-format step over already-fetched, already-parsed
  input:
  - timers (`Timer`, with the `timers` table in `TimerStore`);
  - RSS (`Rss`, with the `feeds`/`posts` tables in the class `Rss.FeedStore`);
  - stored weather locations (`WeatherDb`, class `WeatherDb.LocationStore`);
  - `.roll` (`Roll`);
  - FMI and OpenWeatherMap weather (`Fmi`, `Owm`, with the shared message assembly in `Report`);
  - TVmaze (`TvMaze`);
  - WolframAlpha (`WolframAlpha`);
  - Epic free games (`Epic`);
  - TeamSpeak 3 (`Ts3`);
  - Games Done Quick (`Gdq`);
  - URL titles (`UrlTitle`);
  - the h33h3 game (`H33h3`).

Inputs the bot takes from the outside are parameters of the model:

- the outcome of an HTTP request;
- the parsed JSON/XML/HTML document;
- the clock (`now`, `today`);
- raw random numbers;
- whether a database opened or an insert succeeded.

Shared pieces live in `Wrappers` (`Option`/`Result`), `Text` (whitespace, trimming, splitting,
integer printing and parsing), `Actions` (channels, actions, prefixes, effects) and `Random`
(`gen_range`).

Each handler returns its effects in order: a message sent, or a timer started. What a handler
sends is stated as an equation with a specification function. The properties the bot promises
are then proved about those functions, for all inputs.

`command_ts` (`src/ts3.rs`) and `command_gdq` (`src/gdq.rs`) are modelled although the dispatch
table of `src/message_handler.rs` does not reach them. Their modules are compiled into the bot,
but no command name runs them.

## Model

| member | source | states |
|---|---|---|
| Wrappers.LastSomeIndex | src/fmi.rs:160-218 | the index of the last present value: present there, absent after it, -1 when none is present |
| Text.SplitWhitespace | src/roll.rs:12 | `split_whitespace`: every token is non-empty and whitespace-free, and there are no more tokens than characters |
| Text.SplitSpreads | src/roll.rs:12 | the text is exactly its tokens, in order, laid out between gaps of whitespace, with a non-empty gap between two tokens: splitting loses only whitespace |
| Text.SpreadSplits | src/roll.rs:12 | conversely, any whitespace-free tokens laid out between such gaps split back into exactly those tokens; with `SplitSpreads`, the tokens are the maximal non-whitespace runs in order |
| Text.StripPrefix | src/fmi.rs:187 | `strip_prefix` succeeds exactly when the text starts with the prefix, and gives the rest after it |
| Text.StripSuffix | src/fmi.rs:187 | `strip_suffix` succeeds exactly when the text ends with the suffix, and gives what comes before it |
| Text.SplitTwoWords | src/roll.rs:12-17 | two non-empty whitespace-free words with whitespace around and between them split into exactly those two words |
| Text.SplitLastWord | src/rss.rs:95 | one word followed only by whitespace splits into that one word |
| Text.TrimmedIsFixpoint | src/message_handler.rs:99 | `trim` leaves text that has no whitespace at either end unchanged |
| Text.TrimKeepsAbsent | src/wolfram_alpha.rs:29 | `trim` adds no character |
| Text.ReplaceCharPointwise | src/urltitle.rs:114-116 | replacing a character by one character keeps the length and changes exactly the occurrences of that character |
| Text.ReplaceAllAbsent | src/wolfram_alpha.rs:29 | `replace` of a pattern that does not occur leaves the text unchanged |
| Text.NatToString | src/ts3.rs:54 | `{}` of a count prints ASCII digits without a leading zero |
| Text.ParseI64 | src/roll.rs:14-16 | `parse::<i64>` accepts only values in the i64 range and refuses the empty string |
| Text.ParseUnsigned | src/fmi.rs:196 | `parse::<u32>` accepts only values up to the bound |
| Text.TrimIsSlice | src/wolfram_alpha.rs:29 | `trim` drops exactly the leading and trailing whitespace: the result is a slice of the input, everything outside it is whitespace, and its own ends are not |
| Text.IntToStringRoundTrip | src/openweathermap.rs:76-82 | printing a 64-bit integer with `{}` and parsing it back as `i64` gives the integer |
| Text.DigitsValueOfNatToString | src/ts3.rs:54 | the decimal digits printed for a count read back as that count |
| Random.Pick | src/roll.rs:28-31 | `gen_range(lo..=hi)` yields a value in `[lo, hi]` |
| Random.PickOnto | src/roll.rs:28-31 | every value of `[lo, hi]` is drawn by some raw number |
| IrcLoop.StringItems | src/ircloop.rs:74-82 | only the string items of a YAML list are kept, and no more items than the list has |
| IrcLoop.ConfigOf | src/ircloop.rs:50-82 | nickname and server as configured; TLS true only for `tls: true` (false otherwise); port kept modulo 65536 (`as u16`); channels are the string items of the `channels` list (those and only those), none when it is not a list |
| IrcLoop.LastNamed | src/ircloop.rs:35-94 | the last entry carrying a network name, or -1: later entries do not carry it |
| IrcLoop.CollectStrings | src/ircloop.rs:74-82 | the channel loop pushes exactly the string items, in configuration order |
| IrcLoop.ReadNetwork | src/ircloop.rs:36-93 | an entry is read exactly when it has a string `network` name and a `server`; otherwise the error names what is missing |
| IrcLoop.FirstIncomplete | src/ircloop.rs:35-62 | the first entry lacking a name or a server: every earlier entry is complete |
| IrcLoop.SetupOfLastNamed | src/ircloop.rs:32-94 | a network has a config and an admin list exactly when some entry names it; both come from the last entry carrying its name, whose admins replace earlier ones |
| IrcLoop.BuildSetup | src/ircloop.rs:24-94 | no `networks` list aborts with NoNetworks; the first incomplete entry aborts the whole setup with its error; otherwise the setup of all entries |
| IrcLoop.ReadNetworks | src/ircloop.rs:35-94 | the loop over the entries, with the same outcome as `BuildSetup` |
| IrcLoop.ToWire | src/ircloop.rs:116-126 | a Message becomes a PRIVMSG and an Action a CTCP ACTION, both to the target channel with the same text |
| IrcLoop.Router.constructor | src/ircloop.rs:96-101 | one idle connection per configured network; the admin lists are those of the setup |
| IrcLoop.Router.Route | src/ircloop.rs:138-142 | an action is queued on its own network's connection only; an unknown network drops it and changes nothing |
| IrcLoop.Router.Flush | src/ircloop.rs:116-126 | a connection writes its oldest pending action as `ToWire` of it; nothing else changes |
| IrcLoop.Router.Receive | src/ircloop.rs:110-114 | a frame that parsed is forwarded tagged with its network; one that did not is dropped |
| IrcLoop.Router.IsAdmin | src/ircloop.rs:143-158 | true exactly when the network has an admin list containing a string equal to the mask; an unknown network gives false |
| MessageHandler.NicknameOnly | src/message_handler.rs:176-183 | only a `nick!user@host` prefix is passed on to commands |
| MessageHandler.Classify | src/message_handler.rs:159-220 | a message that is not a PRIVMSG starts nothing; a PRIVMSG starts at most three tasks, all on its own channel |
| MessageHandler.ClassifyTitles | src/message_handler.rs:163-173 | a title lookup is started exactly when the message holds a URL |
| MessageHandler.ClassifyCommand | src/message_handler.rs:175-205 | a command is started exactly when the message starts with '.', with the prefix passed on only in its Nickname form |
| MessageHandler.ClassifyGame | src/message_handler.rs:207-208 | the game is started exactly when the lower-cased message is `h33h3` and the sender has a Nickname prefix |
| MessageHandler.SplitCommand | src/message_handler.rs:93-100 | the command runs to the first whitespace and the params are the trimmed rest; with no whitespace the params are "" |
| MessageHandler.SplitCommandWords | src/message_handler.rs:93-100 | `.name params` splits back into `name` and `params` for a whitespace-free name and trimmed params |
| MessageHandler.DispatchTable | src/message_handler.rs:102-149 | exactly the listed names run a handler; `sää`/`saa`/`fmi` and `weather`/`owm` are aliases; `rss` is one name |
| MessageHandler.Mask | src/message_handler.rs:65-66 | the admin mask is `nick!`, then the user, then `@host` |
| MessageHandler.MaskInjective | src/message_handler.rs:65-66 | two users whose nicks have no '!' and whose user names have no '@' have different masks |
| MessageHandler.SeparatorSplit | src/message_handler.rs:65-66 | a text cut at its first separator character is cut the same way whichever way it was put together, which makes the mask readable back |
| MessageHandler.IsAdmin | src/message_handler.rs:60-82 | true exactly when the sender has a Nickname prefix, the reply arrives, and the router lists the mask as an admin of the network |
| MessageHandler.HandleCommand | src/message_handler.rs:84-150 | an unknown command runs nothing; `rss` runs only for an admin; every other known command runs with the split params |
| MessageHandler.EchoReply | src/message_handler.rs:39-58 | a Nickname sender gets exactly their mask, `: ` and the parameters; anyone else gets `Echo: params`; the reply goes to the source channel |
| MessageHandler.EchoToAlice | src/message_handler.rs:45-46 | alice!a@host saying `.echo hi` is answered `alice!a@host: hi` |
| MessageHandler.SplitEcho | src/message_handler.rs:93-100 | `.echo hi` splits into `echo` and `hi` |
| MessageHandler.ClassifyEcho | src/message_handler.rs:175-205 | `.echo hi` from alice starts exactly one command task |
| MessageHandler.EchoScenario | src/message_handler.rs:93-104 | `.echo hi` from alice runs the echo handler with params `hi` |
| MessageHandler.NoUrlInEcho | src/message_handler.rs:163 | `.echo hi` holds no URL, so no title lookup starts |
| Timer.PizzaOrder | src/timer.rs:26-62 | the confirmation is sent first, then a timer of the given minutes on the same channel, addressed to the nick when there is one |
| Timer.CommandPizza | src/timer.rs:26-62 | `.pizza` confirms and starts a 720-second timer |
| Timer.CommandBigone | src/timer.rs:64-100 | `.bigone` confirms and starts a 900-second timer |
| Timer.SplitParams | src/timer.rs:117-130 | the character loop gives the whitespace-free text before the first whitespace character and everything after it; these put back together with that character give the params |
| Timer.DigitRun | src/timer.rs:109-114 | the longest run of ASCII digits at the start |
| Timer.ReadWhen | src/timer.rs:134-201 | a span or minute count never exceeds the duration type's range; an `HH:MM` time has two-digit fields |
| Timer.ClockWait | src/timer.rs:145-168 | a time of day exists exactly when hour < 24 and minute < 60; the wait is under a day and ends at that time of day, so a time already past rolls over to tomorrow |
| Timer.Schedule | src/timer.rs:203-262 | a negative duration gets the negative-duration reply; otherwise the confirmation is sent and then the timer is started |
| Timer.ConfirmationOf | src/timer.rs:222-241 | the confirmation built with `push_str` is the specified confirmation text |
| Timer.CommandTimer | src/timer.rs:101-262 | an impossible `HH:MM` gets "Unable to parse time from ..."; a time part matching no format does nothing; otherwise the wait is scheduled; the negative-duration reply is never among its effects |
| Timer.CompactDurationRoundTrip | src/timer.rs:222-241 | the h/m/s text of the confirmation reads back as the same number of seconds |
| Timer.SpanOf | src/timer.rs:169-191 | `NhNmNs` with zero parts left out reads as hours·3600 + minutes·60 + seconds |
| Timer.Group | src/timer.rs:169-191 | a matched `\d+h`, `\d+m` or `\d+s` group consumes part of the text |
| Timer.GroupReads | src/timer.rs:174-186 | printed digits followed by the marker read back as the number, with the rest of the text left |
| Timer.GroupOther | src/timer.rs:174-186 | digits followed by another marker are not that group |
| Timer.MinutesNotMin | src/timer.rs:192-196 | `Nm` followed by seconds digits is not the `min` form |
| Timer.ComposeStages | src/timer.rs:169-191 | an hours group, then a minutes group, then a seconds group ending the text read as hours·3600 + minutes·60 + seconds |
| Timer.HoursStage | src/timer.rs:174 | the hours group of a span text is its hours, leaving the minutes and seconds |
| Timer.MinutesStage | src/timer.rs:180 | the minutes group of a span text is its minutes, leaving the seconds |
| Timer.SecondsStage | src/timer.rs:186 | the seconds group of a span text is its seconds, leaving nothing |
| Timer.NoSeparator | src/timer.rs:134 | no part of a span text holds `:` or `.`, so the clock forms never match it |
| Timer.TwoDigitsBound | src/timer.rs:138-142 | two digits read as less than 100 |
| Timer.HoursOfSeconds | src/timer.rs:222-226 | whole minutes of whole minutes are whole hours |
| Timer.ExampleSpan | src/timer.rs:169-191 | a span text within the duration range reads as its seconds |
| Timer.SpanTextNotClock | src/timer.rs:134 | a span text is never taken for a wall-clock time |
| Timer.ExampleSpans | src/timer.rs:524-527 | `1h50m2s` is 6602 seconds |
| Timer.ExampleSecondsSpan | src/timer.rs:554 | `2s` is 2 seconds |
| Timer.ExampleHourSpan | src/timer.rs:581 | `3h` is 10800 seconds |
| Timer.ExampleHourSecondsSpan | src/timer.rs:608 | `3h36s` is 10836 seconds |
| Timer.ExampleMinutes | src/timer.rs:638 | a bare `60` is one hour |
| Timer.ImpossibleClock | src/timer.rs:476-496 | `36:90` is read as a time of day that does not exist |
| Timer.NeverNegative | src/timer.rs:203-214 | no time part yields a negative duration, and neither a scheduled timer nor the unparsable-time reply is the negative-duration reply |
| TimerStore.NotPast | src/timer.rs:280-296 | the rows left by `DELETE ... WHERE time < :now` are exactly those not yet due |
| TimerStore.Without | src/timer.rs:331-346 | the rows left by `DELETE ... WHERE id = :id` are exactly those with another id |
| TimerStore.WithoutNewRow | src/timer.rs:357-421 | deleting the row just added restores the table |
| TimerStore.TimerTable.constructor | src/timer.rs:264-278 | the timers table starts empty |
| TimerStore.TimerTable.Add | src/timer.rs:365-385 | a new row with a fresh id and the due time `now + wait` is appended |
| TimerStore.TimerTable.Remove | src/timer.rs:331-346 | the row with the id is deleted and nothing else changes |
| TimerStore.TimerTable.RemoveOld | src/timer.rs:280-296 | every row already due is deleted |
| TimerStore.TimerTable.Pending | src/timer.rs:298-329 | every stored row is read back, in table order, as an event whose wait is what is left of it |
| TimerStore.TimerTable.Restore | src/timer.rs:387-405 | at start-up old timers are dropped; exactly the remaining rows restart, one event each in table order, under the row's id with the wait left of it, never negative; the id counter is kept |
| Rss.FromParams | src/rss.rs:91-114 | `add` takes exactly one word that parses as a URL whose scheme starts with `http`; `remove` takes an i64; `list` must match exactly; anything else is None |
| Rss.ParseAddOne | src/rss.rs:92-103 | `add <url>` with trailing whitespace is accepted exactly when the URL's scheme starts with `http` |
| Rss.ParseAddWords | src/rss.rs:95 | `add` followed by two words is refused |
| Rss.ParseRemove | src/rss.rs:104-108 | `remove <i64>` is that number; `remove` followed by a non-number is refused |
| Rss.NewFeedId | src/rss.rs:123-124 | a new feed id is positive and above every present id |
| Rss.MaxFeedId | src/rss.rs:123-124 | no present feed id is above it, and it is not negative |
| Rss.ForChannel | src/rss.rs:352-380 | the feeds whose network and channel both match, and only those |
| Rss.FirstFeedId | src/rss.rs:304-315 | the id of the first feed row with this URL on this channel, present exactly when such a row exists |
| Rss.FeedsWithout | src/rss.rs:260-268 | the feeds left are exactly those that are not this id on this channel |
| Rss.PostsWithout | src/rss.rs:269-276 | the posts left are exactly those not referencing the feed |
| Rss.AddPosts | src/rss.rs:317-330 | inserts stop at the first post the constraints refuse; what went in is kept, and on success every post went in |
| Rss.Linked | src/rss.rs:317-330 | the entries kept are exactly those with a link |
| Rss.LinkedAppend | src/rss.rs:317-330 | skipping linkless entries keeps the order: the kept entries of two runs are those of the first run followed by those of the second |
| Rss.LinkedPosts | src/rss.rs:317-330 | every entry with a link is recorded for the feed, and entries without one are skipped |
| Rss.LinkedPostsInOrder | src/rss.rs:317-330 | one post per linked entry, in entry order, each the entry's id, first link and title (empty when untitled) for this feed |
| Rss.PostsOf | src/rss.rs:317-330 | one post per entry, the k-th recording the k-th entry for the feed |
| Rss.NewEntries | src/rss.rs:448-452 | a refresh announces exactly the entries that have a link and are not yet posted for the feed |
| Rss.Announcements | src/rss.rs:454-481 | one `[feed] title <link>` line per entry, in order |
| Rss.ListLines | src/rss.rs:335-350 | one `id: title \| url` line per feed, in order |
| Rss.FeedStore.InsertPost | src/rss.rs:420-430 | a post goes in exactly when its id and its URL are both new; a refused insert changes nothing |
| Rss.FeedStore.constructor | src/rss.rs:116-143 | both tables start empty and valid |
| Rss.FeedStore.AddFeedToDb | src/rss.rs:289-333 | the feed row is appended with a new id, then every entry with a link is recorded under the id looked up for it |
| Rss.FeedStore.RemoveFeed | src/rss.rs:241-287 | removal succeeds exactly when this channel has a feed with the id; it then deletes the feed and its posts; otherwise it fails with "Feed {id} does not exists in this channel" and changes nothing |
| Rss.FeedStore.FeedsForChannel | src/rss.rs:352-380 | the query returns `ForChannel` of the table |
| Rss.FeedStore.Unposted | src/rss.rs:448-452 | the loop collects exactly `NewEntries` |
| Rss.FeedStore.AnnounceAll | src/rss.rs:454-481 | each entry is announced and then recorded; a refused insert ends the refresh after that entry's announcement |
| Rss.FeedStore.RefreshFeed | src/rss.rs:444-481 | a feed's refresh announces and records its new entries, after which it has nothing new |
| Rss.FeedStore.RefreshNext | src/rss.rs:444-481 | a refreshed feed that finished joins the quiet feeds; feeds are unchanged and posts only grow |
| Rss.FeedStore.Refresh | src/rss.rs:432-485 | feeds are unchanged and posts only grow; a finished refresh leaves every feed with nothing new; a feed that cannot be fetched or parsed stops it |
| Rss.FeedStore.AddFeed | src/rss.rs:162-239 | unreachable and unparseable feeds get their error line and change nothing; a parsed feed is stored and the reply says whether every post went in |
| Rss.FeedStore.CommandRss | src/rss.rs:44-89 | unrecognised params do nothing; `list` lists this channel's feeds; `remove` replies "Removed feed id N" exactly when the channel had that feed |
| Rss.NoneNew | src/rss.rs:448-452 | with every linked entry posted, nothing is new |
| Rss.QuietStaysQuiet | src/rss.rs:404-418 | posts only accumulate, so a feed with nothing new stays so |
| Rss.AnnouncedAreQuiet | src/rss.rs:444-481 | after a refresh records what it announced, the same entries give nothing new: a second refresh announces nothing |
| Rss.RefreshStep | src/rss.rs:435-481 | one more feed refreshed keeps every earlier feed quiet |
| Rss.AddedAreQuiet | src/rss.rs:317-330 | after a feed is added, its first refresh announces none of the entries it had |
| Rss.RefusedStops | src/rss.rs:326-329 | a refused post stops the inserts |
| Rss.FeedsWithoutKeepsValid | src/rss.rs:260-268 | deleting a feed keeps ids positive and unique |
| Rss.PostsWithoutUnique | src/rss.rs:269-276 | deleting a feed's posts keeps the posts constraints |
| Rss.RemovedIsNotError | src/rss.rs:55-75 | the success reply of `remove` differs from its error reply |
| Rss.SecondSubscriptionFails | src/rss.rs:130-137 | a feed with a linked entry added under a second id fails to record its posts once the first subscription recorded them |
| Rss.AddPostsPerFeed | src/rss.rs:317-330 | corrected insert: posts keyed by entry id and feed; on success every post went in |
| Rss.PerFeedSubscriptionSucceeds | src/rss.rs:317-330 | corrected: new distinct entries of a feed not yet recorded for that feed all go in, whatever other feeds recorded |
| Rss.PerFeedAddedAreQuiet | src/rss.rs:444-452 | corrected: after a feed is added, its first refresh announces none of its entries |
| Rss.AddScenario | src/rss.rs:626-645 | a feed with one linked entry added to a new store: one feed row with id 1 and that entry recorded |
| Rss.StoreWithOneFeed | src/rss.rs:649-660 | a store holding just one feed with id 1 |
| Rss.OnlyFeedListed | src/rss.rs:649-672 | a channel holding one feed lists exactly that feed |
| Rss.OnlyFeedRemoved | src/rss.rs:690-698 | removing a channel's only feed leaves no feed |
| Rss.ListScenario | src/rss.rs:649-673 | a channel's only feed is listed as `1: title \| url` |
| Rss.RemoveScenario | src/rss.rs:677-699 | removing from another network fails and keeps the feed; removing from the right channel leaves none |
| WeatherDb.Lookup | src/weather_db.rs:56-71 | the stored location of (network, nick), present exactly when one is stored |
| WeatherDb.LocationStore.constructor | src/weather_db.rs:36-54 | the locations table starts empty |
| WeatherDb.LocationFor | src/weather_db.rs:73-89 | the stored location of a Nickname sender; "Helsinki" without a Nickname prefix, a database or a stored location |
| WeatherDb.LocationStore.GetStored | src/weather_db.rs:56-71 | the lookup returns the stored row of (network, nick) |
| WeatherDb.LocationStore.SetLocation | src/weather_db.rs:91-102 | a successful insert replaces the row of (network, nick); a failed one changes nothing |
| WeatherDb.LocationStore.GetLocation | src/weather_db.rs:73-89 | the location is `LocationFor` of the table |
| WeatherDb.LocationStore.CommandWeatherSet | src/weather_db.rs:13-34 | acts only for a Nickname sender whose database opens, replying "Weather location set" or "Database error" |
| WeatherDb.SetThenGet | src/weather_db.rs:121-125 | after a set, the same (network, nick) reads the new location |
| WeatherDb.SetLeavesOthers | src/weather_db.rs:133-134 | a set leaves every other (network, nick) as it was, including the same nick on another network |
| WeatherDb.SecondSetReplaces | src/weather_db.rs:127-131 | a second set for the same pair replaces the first |
| WeatherDb.SetGetScenario | src/weather_db.rs:109-135 | None before a set, then helsinki, then tampere, and None on another network |
| Roll.SplitParams | src/roll.rs:11-26 | accepted exactly for two whitespace-separated i64 tokens with min < max |
| Roll.CommandRoll | src/roll.rs:33-48 | the usage line is sent exactly when the params are not bounds; otherwise the rolled number, within the bounds |
| Roll.NumberIsNotUsage | src/roll.rs:37-39 | a rolled number is never mistaken for the usage line |
| Roll.TwoTokens | src/roll.rs:11-26 | two tokens are accepted exactly when both parse and the first is below the second |
| Roll.BoundsRead | src/roll.rs:61-65 | two printed i64 values with any whitespace around and between are accepted exactly when a < b |
| Roll.AcceptedSpaced | src/roll.rs:63 | `    -1     10    ` gives (-1, 10) |
| Roll.RejectedMissing | src/roll.rs:66-68 | `10` and the empty string are refused |
| Fmi.FieldOf | src/fmi.rs:169-212 | a known series id maps to its field; every other id is ignored |
| Fmi.FieldOfSeriesId | src/fmi.rs:169-212 | a series id maps to a field exactly when it is that field's id |
| Fmi.ReadingRules | src/fmi.rs:170-211 | NaN is ignored; humidity and cloudiness drop a trailing `.0`; WAWA needs `.0`, a u32 and a table entry |
| Fmi.LatestIsLastReading | src/fmi.rs:160-218 | a field is absent exactly when no member gives it a reading, and otherwise it is the last member's reading |
| Fmi.FeelsLike | src/fmi.rs:220-231 | feels-like exists exactly when temperature and wind exist and the temperature is at most 10 |
| Fmi.Observed | src/fmi.rs:138-231 | the place is as read; feels-like needs both temperature and wind |
| Fmi.With | src/fmi.rs:160-218 | one field set, every other field kept |
| Fmi.ReadMember | src/fmi.rs:162-214 | one child updates only its own field, and only with an accepted reading |
| Fmi.OnlyField | src/fmi.rs:169-213 | a member with a known series id affects only its own field, by its reading rule |
| Fmi.NoField | src/fmi.rs:167-212 | a member without an id, a value or a known series id affects no field |
| Fmi.AfterOnly | src/fmi.rs:169-213 | reading such a member updates its field and keeps the others |
| Fmi.AfterNone | src/fmi.rs:167-212 | reading a member with no known field changes nothing |
| Fmi.StoreMeasured | src/fmi.rs:170-184 | temperature, wind and gust: the value replaces the field unless it is NaN |
| Fmi.StoreWhole | src/fmi.rs:185-193 | humidity and cloudiness (and 203-211): the value without its `.0` replaces the field unless it is NaN |
| Fmi.StoreWawa | src/fmi.rs:194-202 | WAWA: a `.0` code in the table replaces the field with its description; anything else keeps it |
| Fmi.ReadMembers | src/fmi.rs:160-218 | the loop's fields are the last reading of each field |
| Fmi.ParseXml | src/fmi.rs:112-255 | a body that is not XML gives "Error parsing xml"; no field at all gives "Tietoja ei löytynyt"; otherwise the observed data |
| Fmi.PushFields | src/fmi.rs:258-280 | the place and each present labelled field with its separator |
| Fmi.PushLeading | src/fmi.rs:263-280 | the pushes after the place append each present field followed by ", " |
| Fmi.GenerateMsg | src/fmi.rs:257-290 | the `push_str` message is the specified message |
| Fmi.Place | src/fmi.rs:298-301 | the params when non-empty, else the stored or default location |
| Fmi.CommandFmi | src/fmi.rs:292-318 | one reply on the source channel: the message, the parse error, or "Tietojen haku ei onnistunut" |
| Fmi.Respond | src/fmi.rs:302-310 | the reply to the outcome of the request |
| Fmi.UnknownSeriesIgnored | src/fmi.rs:212 | a child with an unknown series id changes no field |
| Fmi.LaterReadingWins | src/fmi.rs:170-211 | a later accepted reading overwrites an earlier one |
| Fmi.RefusedReadingKeeps | src/fmi.rs:171 | a NaN reading keeps the earlier value |
| Fmi.ReadingExamples | src/fmi.rs:1125-1126 | 96.0 gives 96, 8.0 gives 8, NaN is dropped, -1.3 is kept |
| Fmi.WawaReadingExamples | src/fmi.rs:1127 | WAWA 64.0 is "jäätävää heikkoa vesisadetta"; 64 without `.0` is dropped |
| Fmi.MessageJoined | src/fmi.rs:257-290 | the message is the place followed by the present fields joined by ", ", with no trailing separator |
| Fmi.ReplyJoined | src/fmi.rs:302-307 | the reply to data is its fields joined by ", " |
| Report.Terminated | src/fmi.rs:263-280 | no parts give the empty text |
| Report.PlacePartNoSeparator | src/fmi.rs:260-262 | the place part of a weather message (`place: `, in both the FMI and the OpenWeatherMap reply) never ends in ", ", so only the fields' separator is stripped |
| Report.StripSeparator | src/fmi.rs:285-287 | `strip_suffix(", ")` removes exactly one trailing separator, and only when there is one |
| Report.TerminatedIsJoin | src/fmi.rs:263-287 | parts each followed by ", " are the parts joined by ", " plus one ", " |
| Report.Assembled | src/fmi.rs:257-290 | prefix, terminated parts and the tail, stripped, is the prefix followed by the parts and the tail joined by ", " |
| Report.Labelled | src/fmi.rs:263-280 | a labelled field is present exactly when its value is |
| Report.PushField | src/fmi.rs:263-280 | one `push_str` of a present field extends the terminated parts |
| Owm.PlaceOf | src/openweathermap.rs:56-62 | `city, country`, present only when both are |
| Owm.Printed | src/openweathermap.rs:76-82 | an integer field printed with `{}` reads back as the same integer |
| Owm.Extracted | src/openweathermap.rs:56-86 | each field as read, humidity and cloudiness printed |
| Owm.ParseJson | src/openweathermap.rs:40-108 | a body that is not JSON gives "Error parsing JSON"; no field gives "No data found"; otherwise the extracted data |
| Owm.NoDataIffEmpty | src/openweathermap.rs:88-97 | a response yields data exactly when it holds at least one field the handler reads |
| Owm.PushFields | src/openweathermap.rs:111-130 | the place and each present labelled field with its separator |
| Owm.PushLeading | src/openweathermap.rs:116-130 | the pushes after the place append each present field followed by ", " |
| Owm.GenerateMsg | src/openweathermap.rs:110-140 | the `push_str` message is the specified message |
| Owm.MessageJoined | src/openweathermap.rs:110-140 | the message is the place followed by the present fields joined by ", " |
| Owm.Reply | src/openweathermap.rs:160-167 | a failed request or an unparsed body reads "Unable to get weather data" |
| Owm.Respond | src/openweathermap.rs:160-167 | the reply to the outcome of the request |
| Owm.CommandOwm | src/openweathermap.rs:142-175 | without an API key nothing is sent; otherwise one reply for the stored, default or given location |
| Owm.ReplyJoined | src/openweathermap.rs:160-167 | the reply to data is its fields joined by ", " |
| Owm.EmptyResponseUnavailable | src/openweathermap.rs:88-97 | a response with no field gets the same reply as a failed request |
| TvMaze.StatusOf | src/tvmaze.rs:180-190 | the four status strings map to their variants; anything else is None |
| TvMaze.FirstAiring | src/tvmaze.rs:121-157 | the first episode in list order airing after now |
| TvMaze.NextEp | src/tvmaze.rs:121-157 | a found next episode is complete and airs after now |
| TvMaze.NextEpFromList | src/tvmaze.rs:121-157 | the loop with `break` returns `NextEp` |
| TvMaze.NextEpIsFirstAiring | src/tvmaze.rs:121-157 | the first episode airing after now is the next one when it is complete |
| TvMaze.IncompleteFirstHidesLater | src/tvmaze.rs:121-157 | an incomplete first airing episode gives none, whatever follows |
| TvMaze.LastEp | src/tvmaze.rs:91-119 | the last element of a non-empty episode list |
| TvMaze.Parsed | src/tvmaze.rs:176-238 | linked episodes are kept; missing ones are filled from the list by status (Running and InDevelopment the next, Ended the previous, Tbd both) |
| TvMaze.ParseJson | src/tvmaze.rs:159-239 | a body that is not JSON gives "Error parsing JSON"; JSON null gives "Show not found"; otherwise the parsed show |
| TvMaze.LinkedEpisodesKept | src/tvmaze.rs:193-203 | an episode fetched through a link is never replaced by the list |
| TvMaze.SinceAired | src/tvmaze.rs:242-257 | the past-day bucket is empty exactly for negative days |
| TvMaze.SinceAiredInYears | src/tvmaze.rs:250-251 | from 730 days on, the bucket counts whole years |
| TvMaze.UntilAiring | src/tvmaze.rs:258-271 | the future-day bucket is empty exactly for negative days |
| TvMaze.Pad2 | src/tvmaze.rs:277 | zero-padding to width 2 gives two digits that read back as the number |
| TvMaze.GenerateMsg | src/tvmaze.rs:333-384 | no status gives "Unknown status"; an ended show without a dated previous episode "has ended"; wherever the message as written exists, it is this message |
| TvMaze.Reply | src/tvmaze.rs:387-395 | a failed request gives "TVmaze API error", an unparsed body "Error parsing JSON", a null show "Show not found" |
| TvMaze.CommandEp | src/tvmaze.rs:387-403 | one reply to the source channel |
| TvMaze.NextEpMsgAgrees | src/tvmaze.rs:304-325 | the unchecked unwrap is reached exactly for an unnamed but otherwise complete previous episode, and everywhere else the corrected message equals the message as written |
| TvMaze.UnnamedPreviousPanics | src/tvmaze.rs:305-319 | a show with no next episode and an unnamed previous one: the message as written panics |
| WolframAlpha.CleanPlaintextIsOneLine | src/wolfram_alpha.rs:28-30 | a cleaned text has no line break and no whitespace at either end |
| WolframAlpha.CleanPlaintextFixpoint | src/wolfram_alpha.rs:28-30 | text without " \| ", line breaks or surrounding whitespace is left as it is |
| WolframAlpha.FirstStop | src/wolfram_alpha.rs:45-99 | the first child with a result or a suggestion |
| WolframAlpha.LastRawInterpretation | src/wolfram_alpha.rs:54-73 | the text of the last interpretation pod, absent exactly when there is none |
| WolframAlpha.ScanChildren | src/wolfram_alpha.rs:41-99 | the loop finds the specified scan: the last interpretation before the stop, and the answer or suggestion it stopped at |
| WolframAlpha.ResponseFromXml | src/wolfram_alpha.rs:32-112 | a body that is not XML gives "Error parsing xml"; otherwise the message chosen from the scan |
| WolframAlpha.CommandWa | src/wolfram_alpha.rs:114-131 | without a key, a fetched body or parsed XML nothing is sent; otherwise one reply |
| WolframAlpha.ChildrenAfterStopIgnored | src/wolfram_alpha.rs:74-96 | children after the first result or suggestion change nothing |
| WolframAlpha.LaterInterpretationWins | src/wolfram_alpha.rs:54-73 | a later interpretation pod overwrites an earlier one |
| WolframAlpha.FirstResultAnswers | src/wolfram_alpha.rs:74-85 | the first result with text is the answer, and no suggestion is then kept |
| WolframAlpha.NothingFound | src/wolfram_alpha.rs:101-109 | with neither a result nor a suggestion the question is not understood |
| Epic.CollectFreeTitles | src/epic.rs:33-81 | the `continue` loop collects exactly the titles of the games free now |
| Epic.ParseJson | src/epic.rs:20-87 | a body that is not JSON gives "Error parsing JSON"; no elements array gives "No games found"; otherwise the free titles |
| Epic.FreeTitlesMembership | src/epic.rs:34-80 | a title is listed exactly when some element with that title is titled (not "Mystery Game"), discounted to 0, and on an offer with parseable dates enclosing now |
| Epic.MysteryGameNeverListed | src/epic.rs:36-38 | "Mystery Game" is never listed |
| Epic.FreeTitlesAppend | src/epic.rs:80 | the titles keep the order of the elements |
| Epic.FreeTitlesBounded | src/epic.rs:80 | at most one title per element |
| Epic.GenerateMsgEmptyIff | src/epic.rs:89-99 | the no-free-games line is sent exactly when the list is empty; otherwise the prefix is followed by the titles joined by ", " |
| Epic.ReplyErrorIff | src/epic.rs:101-110 | "Virhe ilmaispelien haussa" is sent exactly when the request, the JSON or the elements array failed |
| Epic.CommandEpic | src/epic.rs:101-118 | one reply to the source channel, whatever happened |
| Ts3.TruncateNick | src/ts3.rs:29-37 | the push-and-break loop gives the specified short nick |
| Ts3.ShortNickIsShortestPrefix | src/ts3.rs:29-37 | the short nick is the shortest beginning of the nick that is at least two UTF-8 bytes, or the whole nick when none is |
| Ts3.CollectRealClients | src/ts3.rs:25-43 | the `filter_map` keeps the voice clients' short nicks in list order |
| Ts3.RealClientsMembership | src/ts3.rs:25-43 | a nick is listed exactly when some client of type 0 shows it |
| Ts3.RealClientsCount | src/ts3.rs:25-43 | one nick per client of type 0 |
| Ts3.GetClients | src/ts3.rs:14-48 | a failed query is an error; otherwise the voice clients' short nicks |
| Ts3.GenerateMsgCount | src/ts3.rs:50-56 | with two or more users the number in the message reads back as their count |
| Ts3.PortOf | src/ts3.rs:65 | the port fits in 16 bits |
| Ts3.GetConf | src/ts3.rs:63-74 | a configuration exists exactly when the host, the login and the password are strings |
| Ts3.PortWraps | src/ts3.rs:65 | 10011 when unset; a 16-bit port as configured; others wrap around 65536 as `as u16` does |
| Ts3.ReplyErrorIff | src/ts3.rs:76-87 | "Teamspeak 3 not configured properly" exactly without a configuration; "Error when fetching teamspeak clients" exactly when the query fails |
| Ts3.CommandTs | src/ts3.rs:58-95 | one reply to the source channel |
| Gdq.FirstEnd | src/gdq.rs:28-40 | the first row with a readable time that is upcoming or has no name cell |
| Gdq.CurrentIsLastRun | src/gdq.rs:32-33 | the current run is the last named run, and "" when there is none |
| Gdq.ParseHtml | src/gdq.rs:22-43 | the loop with `break` gives the specified current and next runs, or the `unwrap` panic |
| Gdq.RowsAfterNextIgnored | src/gdq.rs:34-36 | rows after the first upcoming run change nothing |
| Gdq.FirstUpcomingIsNext | src/gdq.rs:32-38 | the first upcoming run is next, and the current run is the last run before it |
| Gdq.NothingUpcoming | src/gdq.rs:24-25 | with no upcoming run nothing is up next |
| Gdq.UnnamedRunPanics | src/gdq.rs:31 | a run without a second cell, reached before the stop, panics |
| Gdq.GenerateMsgParts | src/gdq.rs:45-47 | the message is "Now playing: ", the current run, " \| Up next: ", the next run |
| Gdq.CommandGdq | src/gdq.rs:49-60 | a failed request or a panic sends nothing; otherwise the one message |
| UrlTitle.MatchAt | src/urltitle.rs:19 | a match of `https?://[^ ]+` is maximal and space-free |
| UrlTitle.Scan | src/urltitle.rs:138 | the scan over match lengths takes matches in increasing order, each ending before the next starts |
| UrlTitle.ScanComplete | src/urltitle.rs:138 | the scan skips no match: every position where a match starts lies inside one it takes |
| UrlTitle.MatchStarts | src/urltitle.rs:138 | where `find_iter` finds its matches in the message: each is a match of the regex and ends before the next one starts |
| UrlTitle.MatchStartsComplete | src/urltitle.rs:138 | every position where the regex matches lies within a match found, so the matches are the leftmost non-overlapping ones |
| UrlTitle.MatchText | src/urltitle.rs:139 | the text of a match is a URL: scheme prefix and one or more non-space characters |
| UrlTitle.ExtractUrls | src/urltitle.rs:138-150 | the URLs looked up are the texts of the matches found, one per match, left to right, each a URL |
| UrlTitle.ContainsUrlIffExtracted | src/urltitle.rs:137-150 | a message yields a URL to look up exactly when it contains one |
| UrlTitle.TitleReplies | src/urltitle.rs:125-150 | no more replies than URLs, each to the source channel |
| UrlTitle.TitledFrom | src/urltitle.rs:137-150 | increasing positions, each one whose lookup gives a title |
| UrlTitle.TitledFromComplete | src/urltitle.rs:137-150 | every position whose lookup gives a title is among them |
| UrlTitle.TitleRepliesFrom | src/urltitle.rs:137-150 | the replies for the URLs from a position on are one per titled position, saying its title |
| UrlTitle.TitleRepliesExact | src/urltitle.rs:137-150 | exactly one reply per URL whose lookup gives a title, saying that title, and none for the other URLs |
| UrlTitle.TitleRepliesMembership | src/urltitle.rs:125-150 | a reply is sent exactly for each URL whose lookup gives a title, and it says that title |
| UrlTitle.UrlTitleReplies | src/urltitle.rs:137-150 | no more replies than URLs in the message, every one to the channel the message came from |
| UrlTitle.UrlTitleRepliesExact | src/urltitle.rs:137-150 | for a message, exactly one reply per URL found whose lookup gives a title, saying that title, and none for the other URLs |
| UrlTitle.GenericRepliesAreTitles | src/urltitle.rs:112-150 | when no URL is a Twitter or Wikipedia URL, every reply is `Title: ` and a title on one line |
| UrlTitle.TitleFromPage | src/urltitle.rs:54-122 | a title is said exactly when the request succeeded, the header gate passed, the body was read and it has an og:title or a `<title>`; it is `Title: ` and the cleaned last og:title, else the cleaned first `<title>` |
| UrlTitle.TitleShape | src/urltitle.rs:112-122 | a title line starts with `Title: `, has no line break, carriage return or tab, and the title after the prefix has no whitespace at either end |
| UrlTitle.TitleFromUrl | src/urltitle.rs:22-123 | the lookup of one URL: a Twitter or Wikipedia URL's own outcome, otherwise the generic path of `TitleFromPage` on the response |
| UrlTitle.HeaderGate | src/urltitle.rs:54-82 | a non-HTML content type, an unreadable or unparseable length, or more than 2048 KiB stops the lookup; a missing header passes; a non-ASCII content type panics |
| UrlTitle.LastOgTitle | src/urltitle.rs:94-103 | the content of the last og:title meta tag, present exactly when there is one |
| UrlTitle.FindTitle | src/urltitle.rs:92-110 | the last og:title wins; only without one is the first `<title>` used |
| UrlTitle.Flatten | src/urltitle.rs:114-116 | same length; each line feed, carriage return and tab becomes a space and every other character is kept |
| UrlTitle.CleanBody | src/urltitle.rs:112-122 | the flattened title with exactly its surrounding whitespace cut off: a slice of it, whitespace outside, no whitespace at either end, and no line break, carriage return or tab |
| UrlTitle.CleanBodyIdempotent | src/urltitle.rs:112-122 | cleaning a cleaned title changes nothing |
| UrlTitle.CleanBodyFixpoint | src/urltitle.rs:112-122 | a title that is already clean is kept as it is |
| UrlTitle.TimeBucket | src/urltitle.rs:220-231 | 180 days or more gives a date; over 30 days month and day; then whole days, hours or minutes |
| UrlTitle.TimeStr | src/urltitle.rs:210-233 | an unparseable time gives ""; 180 days or more the date; over 30 days month and day; from one day whole days + `d`; from one hour whole hours + `h`; otherwise whole minutes + `min`, rounded toward zero for a future time |
| H33h3.NumericBound | src/h33h3.rs:76-94 | the numeric entries draw from at most `0..=5` |
| H33h3.Kasipallo | src/h33h3.rs:74-96 | a draw outside 1..=20 panics; only 7 is an Action; a numeric entry says a number within its range |
| H33h3.Game | src/h33h3.rs:42-72 | 23 or 55 lose, 28 "hngggg", 29 "h33h3"; only 30 and 31 add an extra line; any other draw is a kasipallo reply |
| H33h3.HandleH33h3 | src/h33h3.rs:16-40 | the extra line, if any, then the main reply, both to the source |
| H33h3.KasipalloNeverPanics | src/h33h3.rs:74-96 | a kasipallo draw from `1..=20` never reaches the panic |
| H33h3.NumericOnto | src/h33h3.rs:76-94 | every number of an entry's range is said for some inner draw |
| H33h3.ExtraFirst | src/h33h3.rs:23-39 | two lines are sent exactly for draws 30 and 31, the extra one first |

## Left out

- Tasks, `select!` loops, `spawn` and channels. The router and the handlers are modelled one
  event at a time, and a handler returns its effects in order.
- The HTTP requests (`get_json`, `get_xml`, `get_html`, `get_url`) are left out. Their outcome
  is a parameter.
- JSON, XML, HTML, feed and YAML parsing happens before the model. It receives the fields or
  children the handler reads.
- The Twitter and Wikipedia special cases of `title_from_url` (src/urltitle.rs:22-44,
  153-209) are network flows. Their outcome is the parameter `special` of UrlTitle.TitleOf;
  the generic path is modelled by UrlTitle.TitleFromPage.
- UrlTitle.UrlTitleReplies: each URL is looked up in its own spawned task, so the replies
  can arrive in any order. The model lists them in URL order. UrlTitle.UrlTitleRepliesExact
  states how many replies are sent and what each says; the source fixes no order among them.
- SQLite is modelled as in-memory tables. Whether a database opens or an insert succeeds is a
  parameter where the source branches on it.
- Floating point is left out:
  - FMI's feels-like formula is a parameter (`chill`), and so is its "at most 10 degrees"
    test (`coldEnough`);
  - OpenWeatherMap's one-decimal values arrive as text.
- The clock is a parameter (`now`, `today`). Date parsing (RFC 3339, Epic offer dates, GDQ
  start times) is a parameter too.
- Randomness: draws are raw numbers mapped by `Random.Pick`.
- `Url::parse` in `.rss add` is a parameter giving the URL's scheme.
- Regexes are written out as the functions they match. `\d` is ASCII digits, and lower-casing
  is ASCII: this gives the same answers for `h33h3` and `.`.
- `src/wikipedia.rs`, `src/blitzortung.rs` and `src/sahko.rs` are thin HTTP wrappers or
  floating-point formatting, and are not part of this model. `src/main.rs` and
  `src/http_client.rs` are not part of this model either.
- Epic.Game: `discountPrice` arrives as the `as_u64` result. A missing date and an unparseable
  one both exclude a game, as in the source.
- Gdq.CommandGdq: a panic of the spawned handler (`unwrap` of the request) is modelled only as "nothing is
  sent".
- Ts3.GetClients: the connection, login, server selection, listing and logout are one query
  parameter. Any of them failing is one error.
- Rss.FeedStore.Refresh: the ensures states that feeds are unchanged, posts only grow, a
  finished refresh leaves every feed quiet, and where it stopped. The exact announcements are
  stated per feed by Rss.FeedStore.RefreshFeed, and not for the whole sequence.
- Rss.FeedStore.CommandRss: for `add` its ensures defers to Rss.FeedStore.AddFeed. For
  `remove` it states the reply, and the table change is stated by Rss.FeedStore.RemoveFeed.
- Timer.ClockWait, Timer.CommandTimer, TimerStore.TimerTable.Restore: the clock counts whole
  seconds, but the source reads it with sub-second precision. Three differences follow.
  - At 11:00:00.5, a timer for 12:00 waits 3599.5 s in the source. That is confirmed as
    "59m59s", where the model says "1h".
  - A target time in the current second is slightly in the past for the source. It rolls over
    to tomorrow and waits 23h59m59s, where the model waits 0.
  - On restart, a stored timer due in the restart's own second survives `time < :now`
    (src/timer.rs:281-282) and gets a negative wait (src/timer.rs:315-316). `to_std().unwrap()`
    (src/timer.rs:355) then panics in its task, so its message is never sent. The model sends it.
- TvMaze.CommandEp, TvMaze.Reply, TvMaze.GenerateMsg: for a Running or To Be Determined show
  with no next episode whose previous episode has season, number and airdate but no name,
  the source panics at src/tvmaze.rs:319 and sends nothing. The model uses
  the corrected message and replies "No episode of X found". The as-written behaviour is
  TvMaze.GenerateMsgAsWritten, under "## Findings".
- Timer: a chrono `Duration` overflow (a span beyond `i64::MAX` milliseconds panics) is
  modelled as a timer that is never set. Nothing is sent.
- IrcLoop.Router.Receive: inbound frames are modelled already parsed or not. The IRC line
  parser is not part of this model.

## Findings

| source | as written | input that shows it | evidently intended | confidence | as-written member | corrected member |
|---|---|---|---|---|---|---|
| src/rss.rs:130-137 | `posts.id` (the entry id) is the primary key and `posts.url` is unique across all feeds | the same feed added to a second channel: `add_feed_to_db` inserts the feed row, then fails on the first entry already recorded for the first channel, replying "Database error" | posts keyed by (entry id, feed), so each channel's subscription records its own entries | not executed | Rss.SecondSubscriptionFails | Rss.PerFeedSubscriptionSucceeds |
| src/tvmaze.rs:305-319 | the previous-episode branch of `next_ep_msg` checks number, season and airdate, then unwraps the name | a Running show with no next episode and a previous episode with season, number and airdate but no name | check the name too, and report "No episode of X found" otherwise | not executed | TvMaze.UnnamedPreviousPanics | TvMaze.NextEpMsgAgrees |

`Rss.FeedStore` models the tables as written. The corrected insert (`Rss.AddPostsPerFeed`,
with `Rss.PerFeedAddedAreQuiet`) sits beside it. `TvMaze.GenerateMsg` uses the corrected
`TvMaze.NextEpMsg`.
