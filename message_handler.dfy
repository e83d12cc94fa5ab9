/**
 * The message handler (`src/message_handler.rs`): which inbound messages start which work,
 * how a `.command` line is split and dispatched, the admin check behind `.rss`, and `.echo`.
 */
module MessageHandler {
  import opened Wrappers
  import opened Text
  import opened Actions
  import IrcLoop
  import UrlTitle

  const CommandPrefix: char := '.'

  /** The work one inbound message starts, each piece on the channel it came from. */
  datatype Task =
    | LookUpTitles(source: IrcChannel, text: string)
    | RunCommand(source: IrcChannel, text: string, prefix: Option<Prefix>)
    | RunH33h3(source: IrcChannel, nick: string)

  /** Only the `nick!user@host` form of the sender's prefix is passed on to commands. */
  function NicknameOnly(prefix: Option<Prefix>): (r: Option<Prefix>)
    ensures r.Some? <==> prefix.Some? && prefix.value.Nickname?
    ensures r.Some? ==> r == prefix
  {
    match prefix
    case Some(Nickname(_, _, _)) => prefix
    case _ => None
  }

  /** What one inbound message from `network` starts: nothing unless it is a PRIVMSG; then
      a title lookup when it holds a URL, a command when it starts with '.', and the h33h3
      game when it is exactly "h33h3" (any case) from a user. */
  function Classify(network: string, message: IrcMessage): (tasks: seq<Task>)
    ensures !message.command.Privmsg? ==> tasks == []
    ensures |tasks| <= 3
    ensures forall k :: 0 <= k < |tasks| ==> tasks[k].source == IrcChannel(network, message.command.target)
  {
    match message.command
    case OtherCommand(_) => []
    case Privmsg(channel, msg) =>
      var source := IrcChannel(network, channel);
      Titles(source, msg) + CommandTasks(source, msg, message.prefix) + Game(source, msg, message.prefix)
  }

  /** The title lookup a message starts: one when it holds a URL. */
  function Titles(source: IrcChannel, msg: string): seq<Task>
  {
    if UrlTitle.ExtractUrls(msg) != [] then [LookUpTitles(source, msg)] else []
  }

  /** The command a message starts: one when it starts with '.'. */
  function CommandTasks(source: IrcChannel, msg: string, prefix: Option<Prefix>): seq<Task>
  {
    if |msg| > 0 && msg[0] == CommandPrefix then [RunCommand(source, msg, NicknameOnly(prefix))] else []
  }

  /** The game a message starts: one when it is "h33h3" from a user. */
  function Game(source: IrcChannel, msg: string, prefix: Option<Prefix>): seq<Task>
  {
    if LowercaseIs(msg, "h33h3") && prefix.Some? && prefix.value.Nickname? then [RunH33h3(source, prefix.value.nick)] else []
  }

  /** A title lookup is started exactly when the message holds a URL. */
  lemma ClassifyTitles(network: string, message: IrcMessage)
    requires message.command.Privmsg?
    ensures var source := IrcChannel(network, message.command.target);
      (LookUpTitles(source, message.command.text) in Classify(network, message))
        == (UrlTitle.ExtractUrls(message.command.text) != [])
  {
    var source := IrcChannel(network, message.command.target);
    var msg := message.command.text;
    var t := LookUpTitles(source, msg);
    assert t !in CommandTasks(source, msg, message.prefix) + Game(source, msg, message.prefix);
  }

  /** A command is started exactly when the message starts with '.'. */
  lemma ClassifyCommand(network: string, message: IrcMessage)
    requires message.command.Privmsg?
    ensures var source := IrcChannel(network, message.command.target);
      (RunCommand(source, message.command.text, NicknameOnly(message.prefix)) in Classify(network, message))
        == StartsWith(message.command.text, [CommandPrefix])
  {
    var source := IrcChannel(network, message.command.target);
    var msg := message.command.text;
    var t := RunCommand(source, msg, NicknameOnly(message.prefix));
    assert Classify(network, message) == Titles(source, msg) + (CommandTasks(source, msg, message.prefix) + Game(source, msg, message.prefix));
    assert t !in Titles(source, msg) && t !in Game(source, msg, message.prefix);
    assert StartsWith(msg, [CommandPrefix]) <==> |msg| > 0 && msg[0] == CommandPrefix;
  }

  /** The game is started exactly when a user's message is "h33h3" in any case, and never for a
      message without a user. */
  lemma ClassifyGame(network: string, message: IrcMessage)
    requires message.command.Privmsg?
    ensures var source := IrcChannel(network, message.command.target);
      && (message.prefix.Some? && message.prefix.value.Nickname? ==>
            (RunH33h3(source, message.prefix.value.nick) in Classify(network, message))
              == LowercaseIs(message.command.text, "h33h3"))
      && (!(message.prefix.Some? && message.prefix.value.Nickname?) ==>
            forall k :: 0 <= k < |Classify(network, message)| ==> !Classify(network, message)[k].RunH33h3?)
  {
    var source := IrcChannel(network, message.command.target);
    var msg := message.command.text;
    var front := Titles(source, msg) + CommandTasks(source, msg, message.prefix);
    assert Classify(network, message) == front + Game(source, msg, message.prefix);
    assert forall k :: 0 <= k < |front| ==> !front[k].RunH33h3?;
  }

  /** The message lower-cased equals `word` (which is already lower-case ASCII). */
  predicate LowercaseIs(msg: string, word: string)
  {
    |msg| == |word| && forall k :: 0 <= k < |msg| ==> LowerAscii(msg[k]) == word[k]
  }

  /** Splits a command line after its '.': the command runs up to the first whitespace, and
      the parameters are the rest with the surrounding whitespace trimmed. */
  function SplitCommand(message: string): (r: (string, string))
    requires StartsWith(message, [CommandPrefix])
    ensures var body := message[1..];
      && StartsWith(body, r.0) && NoWhitespace(r.0)
      && (|r.0| == |body| || IsWhitespace(body[|r.0|]))
      && r.1 == Trim(body[|r.0|..])
    ensures NoWhitespace(message[1..]) ==> r == (message[1..], "")
  {
    var body := message[1..];
    var i := WordLength(body);
    if i == |body| then
      assert body[..i] == body;
      (body, "")
    else
      (body[..i], Trim(body[i..]))
  }

  /** The command handlers, by the name they answer to. */
  datatype Handler =
    | Echo | Timer | Pizza | Bigone | Rss | Fmi | OpenWeatherMap | WeatherSet
    | Roll | Episode | WolframAlpha | Wikipedia | WikipediaFi | Epic

  const CommandNames: set<string> := {
    "echo", "timer", "pizza", "bigone", "rss", "sää", "saa", "fmi", "weather", "owm",
    "weatherset", "roll", "ep", "wa", "wikipedia", "wikipediafi", "epic" }

  /** The dispatch table. */
  function Dispatch(command: string): Option<Handler>
  {
    match command
    case "echo" => Some(Echo)
    case "timer" => Some(Timer)
    case "pizza" => Some(Pizza)
    case "bigone" => Some(Bigone)
    case "rss" => Some(Rss)
    case "sää" => Some(Fmi)
    case "saa" => Some(Fmi)
    case "fmi" => Some(Fmi)
    case "weather" => Some(OpenWeatherMap)
    case "owm" => Some(OpenWeatherMap)
    case "weatherset" => Some(WeatherSet)
    case "roll" => Some(Roll)
    case "ep" => Some(Episode)
    case "wa" => Some(WolframAlpha)
    case "wikipedia" => Some(Wikipedia)
    case "wikipediafi" => Some(WikipediaFi)
    case "epic" => Some(Epic)
    case _ => None
  }

  /** Exactly the listed names run a handler; the weather commands have aliases and every
      other handler has one name. */
  lemma DispatchTable(command: string)
    ensures Dispatch(command).Some? <==> command in CommandNames
    ensures Dispatch(command) == Some(Fmi) <==> command in {"sää", "saa", "fmi"}
    ensures Dispatch(command) == Some(OpenWeatherMap) <==> command in {"weather", "owm"}
    ensures Dispatch(command) == Some(Rss) <==> command == "rss"
  {
  }

  /** The admin mask of a user: `nick!user@host`. */
  function Mask(prefix: Prefix): (m: string)
    requires prefix.Nickname?
    ensures StartsWith(m, prefix.nick + "!")
    ensures EndsWith(m, "@" + prefix.host)
  {
    var m := prefix.nick + "!" + prefix.user + "@" + prefix.host;
    assert m == (prefix.nick + "!") + (prefix.user + "@" + prefix.host);
    assert m == (prefix.nick + "!" + prefix.user) + ("@" + prefix.host);
    m
  }

  /** Masks tell users apart: when neither nick contains '!' and neither user contains '@',
      equal masks mean equal prefixes. */
  lemma MaskInjective(a: Prefix, b: Prefix)
    requires a.Nickname? && b.Nickname?
    requires '!' !in a.nick && '!' !in b.nick && '@' !in a.user && '@' !in b.user
    requires Mask(a) == Mask(b)
    ensures a == b
  {
    var restA := a.user + "@" + a.host;
    var restB := b.user + "@" + b.host;
    assert Mask(a) == a.nick + "!" + restA;
    assert Mask(b) == b.nick + "!" + restB;
    SeparatorSplit(a.nick, restA, b.nick, restB, '!');
    SeparatorSplit(a.user, a.host, b.user, b.host, '@');
  }

  /** `x + [c] + y` determines `x` and `y` when `c` is not in `x`. */
  lemma SeparatorSplit(x1: string, y1: string, x2: string, y2: string, c: char)
    requires c !in x1 && c !in x2
    requires x1 + [c] + y1 == x2 + [c] + y2
    ensures x1 == x2 && y1 == y2
  {
    var m := x1 + [c] + y1;
    assert m == x2 + [c] + y2;
    assert m[|x1|] == c && m[|x2|] == c;
    assert forall k :: 0 <= k < |x1| ==> m[k] == x1[k] != c;
    assert forall k :: 0 <= k < |x2| ==> m[k] == x2[k] != c;
    assert |x1| == |x2|;
    assert x1 == m[..|x1|] == x2;
    assert y1 == m[|x1| + 1..] == y2;
  }

  /**
   * `is_admin`: a sender without a `nick!user@host` prefix is never an admin and the router
   * is not asked; otherwise the router is asked about the mask, and an answer that never
   * arrives (`replied` false) counts as no.
   */
  method IsAdmin(router: IrcLoop.Router, prefix: Option<Prefix>, network: string, replied: bool)
    returns (admin: bool)
    ensures admin <==>
      && prefix.Some? && prefix.value.Nickname? && replied
      && network in router.admins && Mask(prefix.value) in router.admins[network]
  {
    if !(prefix.Some? && prefix.value.Nickname?) {
      return false;
    }
    var mask := Mask(prefix.value);
    var answer := router.IsAdmin(network, mask);
    admin := replied && answer;
  }

  /**
   * `handle_command`: splits the line, looks the command up and returns the handler that
   * runs with its parameters; `.rss` runs only for an admin, and unknown commands run nothing.
   */
  method HandleCommand(router: IrcLoop.Router, source: IrcChannel, message: string, prefix: Option<Prefix>, replied: bool)
    returns (run: Option<(Handler, string)>)
    requires StartsWith(message, [CommandPrefix])
    ensures var (command, params) := SplitCommand(message);
      && (Dispatch(command).None? ==> run.None?)
      && (Dispatch(command).Some? && Dispatch(command) != Some(Rss) ==> run == Some((Dispatch(command).value, params)))
      && (Dispatch(command) == Some(Rss) ==>
            (run.Some? <==> (prefix.Some? && prefix.value.Nickname? && replied
               && source.network in router.admins && Mask(prefix.value) in router.admins[source.network])))
    ensures run.Some? ==> run.value.1 == SplitCommand(message).1
  {
    var (command, params) := SplitCommand(message);
    var handler := Dispatch(command);
    if handler.None? {
      return None;
    }
    if handler.value == Rss {
      var admin := IsAdmin(router, prefix, source.network, replied);
      if !admin {
        return None;
      }
    }
    return Some((handler.value, params));
  }

  /** The `.echo` reply: the sender's mask, or "Echo", then ": " and the parameters. */
  function EchoReply(source: IrcChannel, params: string, prefix: Option<Prefix>): (e: Effect)
    ensures e.Send? && e.action.target == source && e.action.actionType.Message?
    ensures EndsWith(e.action.actionType.text, ": " + params)
    ensures prefix.Some? && prefix.value.Nickname? ==> StartsWith(e.action.actionType.text, Mask(prefix.value))
    ensures !(prefix.Some? && prefix.value.Nickname?) ==> e.action.actionType.text == "Echo: " + params
    ensures prefix.Some? && prefix.value.Nickname? ==> e.action.actionType.text == Mask(prefix.value) + ": " + params
  {
    var head := if prefix.Some? && prefix.value.Nickname? then Mask(prefix.value) else "Echo";
    assert head + ": " + params == head + (": " + params);
    Say(source, head + ": " + params)
  }

  /** A user on irc1 says ".echo hi" on #chan: one command task, split as ("echo", "hi"),
      and the reply goes back to irc1's #chan addressed with the user's mask. */
  lemma EchoScenario()
    ensures var alice := Nickname("alice", "a", "host");
      var message := IrcMessage(Some(alice), Privmsg("#chan", ".echo hi"));
      && Classify("irc1", message) == [RunCommand(IrcChannel("irc1", "#chan"), ".echo hi", Some(alice))]
      && SplitCommand(".echo hi") == ("echo", "hi")
      && Dispatch("echo") == Some(Echo)
      && EchoReply(IrcChannel("irc1", "#chan"), "hi", Some(alice))
         == Say(IrcChannel("irc1", "#chan"), "alice!a@host: hi")
  {
    ClassifyEcho();
    SplitEcho();
    EchoToAlice();
  }

  lemma EchoToAlice()
    ensures EchoReply(IrcChannel("irc1", "#chan"), "hi", Some(Nickname("alice", "a", "host")))
      == Say(IrcChannel("irc1", "#chan"), "alice!a@host: hi")
  {
  }

  lemma ClassifyEcho()
    ensures var alice := Nickname("alice", "a", "host");
      Classify("irc1", IrcMessage(Some(alice), Privmsg("#chan", ".echo hi")))
      == [RunCommand(IrcChannel("irc1", "#chan"), ".echo hi", Some(alice))]
  {
    var msg := ".echo hi";
    NoUrlInEcho();
    assert !LowercaseIs(msg, "h33h3");
  }

  lemma SplitEcho()
    ensures SplitCommand(".echo hi") == ("echo", "hi")
  {
    assert ".echo hi" == [CommandPrefix] + "echo" + " " + "hi";
    SplitCommandWords("echo", "hi");
  }

  /** A command word, one space and parameters with no whitespace at either end split back into
      that word and those parameters. */
  lemma SplitCommandWords(name: string, params: string)
    requires name != [] && NoWhitespace(name)
    requires params == [] || (!IsWhitespace(params[0]) && !IsWhitespace(params[|params| - 1]))
    ensures SplitCommand([CommandPrefix] + name + " " + params) == (name, params)
  {
    var message := [CommandPrefix] + name + " " + params;
    var body := message[1..];
    assert body == name + (" " + params);
    WordLengthOfWord(name, " " + params);
    assert body[..|name|] == name;
    assert body[|name|..] == " " + params;
    TrimDropsSpace(params);
  }

  /** Trimming one leading space off text with no whitespace at either end. */
  lemma TrimDropsSpace(params: string)
    requires params == [] || (!IsWhitespace(params[0]) && !IsWhitespace(params[|params| - 1]))
    ensures Trim(" " + params) == params
  {
    var s := " " + params;
    assert SkipWhitespace(s, 0) == SkipWhitespace(s, 1) == 1;
    assert SkipWhitespaceBack(s, 1, |s|) == |s|;
    assert s[1..] == params;
  }

  lemma NoMatchWithoutHttp(t: string)
    requires |t| < 7 || t[0] != 'h'
    ensures UrlTitle.MatchAt(t) == 0
  {
  }

  lemma NoUrlInEcho()
    ensures UrlTitle.ExtractUrls(".echo hi") == []
  {
    var s := ".echo hi";
    assert !UrlTitle.ContainsUrl(s) by {
      forall i | 0 <= i < |s| ensures UrlTitle.MatchAt(s[i..]) == 0 {
        assert s == ['.', 'e', 'c', 'h', 'o', ' ', 'h', 'i'];
        if i != 3 && i != 6 {
          assert s[i..][0] == s[i] != 'h';
        }
        NoMatchWithoutHttp(s[i..]);
      }
    }
    UrlTitle.ContainsUrlIffExtracted(s);
  }
}
