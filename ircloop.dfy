/**
 * The IRC multiplexer (`src/ircloop.rs`): reading the per-network configuration out of the
 * YAML document, and the router that sits between the message handler and the per-network
 * connections. The router forwards outbound actions to the connection of the action's network,
 * merges inbound messages (tagged with their network) into one stream, and answers the
 * "is this mask an admin on this network" query.
 */
module IrcLoop {
  import opened Wrappers
  import opened Actions

  /** A YAML node as the YAML library presents it; `BadValue` is what indexing a missing key gives. */
  datatype Yaml =
    | Str(s: string)
    | Int(i: int)
    | Bool(b: bool)
    | List(items: seq<Yaml>)
    | Hash(fields: map<string, Yaml>)
    | Null
    | BadValue

  /** `yaml[key]`: the value under `key` of a mapping, `BadValue` otherwise. */
  function Index(y: Yaml, key: string): Yaml
  {
    if y.Hash? && key in y.fields then y.fields[key] else BadValue
  }

  function AsStr(y: Yaml): Option<string> { if y.Str? then Some(y.s) else None }
  function AsI64(y: Yaml): Option<int> { if y.Int? then Some(y.i) else None }
  function AsBool(y: Yaml): Option<bool> { if y.Bool? then Some(y.b) else None }
  function AsVec(y: Yaml): Option<seq<Yaml>> { if y.List? then Some(y.items) else None }

  /** The connection settings of one network (the fields of the IRC client's `Config` the bot sets). */
  datatype Config = Config(
    nickname: Option<string>,
    server: Option<string>,
    port: Option<int>,
    useTls: Option<bool>,
    channels: seq<string>)

  const DefaultConfig := Config(None, None, None, None, [])

  /** Why the loop gives up before connecting anywhere. */
  datatype SetupError = NoNetworks | UnnamedNetwork | NoServer(network: string)

  /** Everything read from the configuration: a connection config and an admin list per network. */
  datatype Setup = Setup(configs: map<string, Config>, admins: map<string, seq<string>>)

  /** The string items of a YAML list, in order; other items are skipped. */
  function StringItems(items: seq<Yaml>): (r: seq<string>)
    ensures |r| <= |items|
    ensures forall t :: t in r <==> Str(t) in items
  {
    if items == [] then []
    else
      var last := items[|items| - 1];
      assert items == items[..|items| - 1] + [last];
      StringItems(items[..|items| - 1]) + (if last.Str? then [last.s] else [])
  }

  /** The string items of the list under `key`, or nothing when `key` does not hold a list. */
  function StringList(entry: Yaml, key: string): seq<string>
  {
    match AsVec(Index(entry, key))
    case Some(items) => StringItems(items)
    case None => []
  }

  function NetworkName(entry: Yaml): Option<string>
  {
    AsStr(Index(entry, "network"))
  }

  /** An entry the loop accepts: it has a name and a server. */
  predicate Complete(entry: Yaml)
  {
    NetworkName(entry).Some? && AsStr(Index(entry, "server")).Some?
  }

  /** The error an incomplete entry stops the loop with. */
  function EntryError(entry: Yaml): SetupError
    requires !Complete(entry)
  {
    if NetworkName(entry).None? then UnnamedNetwork else NoServer(NetworkName(entry).value)
  }

  /** The connection config an entry describes: the port is cast to 16 bits, TLS is on only
      when the entry says `tls: true`, and only the string items of `channels` are joined. */
  function ConfigOf(entry: Yaml): (c: Config)
    ensures c.server == AsStr(Index(entry, "server"))
    ensures c.useTls == Some(Index(entry, "tls") == Bool(true))
    ensures c.port.Some? <==> Index(entry, "port").Int?
    ensures c.port.Some? ==> 0 <= c.port.value < 0x1_0000 && (c.port.value - Index(entry, "port").i) % 0x1_0000 == 0
    ensures forall ch :: ch in c.channels ==> AsVec(Index(entry, "channels")).Some? && Str(ch) in Index(entry, "channels").items
    ensures c.nickname == AsStr(Index(entry, "nick"))
    ensures AsVec(Index(entry, "channels")).None? ==> c.channels == []
    ensures AsVec(Index(entry, "channels")).Some? ==> c.channels == StringItems(Index(entry, "channels").items)
  {
    Config(
      AsStr(Index(entry, "nick")),
      AsStr(Index(entry, "server")),
      match AsI64(Index(entry, "port")) case Some(p) => Some(p % 0x1_0000) case None => None,
      Some(AsBool(Index(entry, "tls")).GetOr(false)),
      StringList(entry, "channels"))
  }

  /** Index of the last entry named `name`, or -1 when there is none. */
  function LastNamed(entries: seq<Yaml>, name: string): (i: int)
    ensures -1 <= i < |entries|
    ensures i >= 0 ==> NetworkName(entries[i]) == Some(name)
    ensures forall j :: i < j < |entries| ==> NetworkName(entries[j]) != Some(name)
  {
    if entries == [] then -1
    else if NetworkName(entries[|entries| - 1]) == Some(name) then |entries| - 1
    else LastNamed(entries[..|entries| - 1], name)
  }

  /** Collects the string items of a YAML list, in order. */
  method CollectStrings(items: seq<Yaml>) returns (r: seq<string>)
    ensures r == StringItems(items)
  {
    r := [];
    for j := 0 to |items|
      invariant r == StringItems(items[..j])
    {
      assert items[..j + 1][..j] == items[..j];
      if items[j].Str? {
        r := r + [items[j].s];
      }
    }
    assert items[..|items|] == items;
  }

  /** Reads one entry of the `networks` list: its name, its connection config and its admins. */
  method ReadNetwork(network: Yaml) returns (r: Result<(string, Config, seq<string>), SetupError>)
    ensures r.Ok? <==> Complete(network)
    ensures r.Err? ==> !Complete(network) && r.error == EntryError(network)
    ensures r.Ok? ==> r.value == (NetworkName(network).value, ConfigOf(network), StringList(network, "admins"))
  {
    var config := DefaultConfig;
    var networkName := AsStr(Index(network, "network"));
    if networkName.None? {
      return Err(UnnamedNetwork);
    }
    var name := networkName.value;
    var networkAdmins: seq<string> := [];
    var nick := AsStr(Index(network, "nick"));
    if nick.Some? {
      config := config.(nickname := nick);
    }
    var server := AsStr(Index(network, "server"));
    if server.None? {
      return Err(NoServer(name));
    }
    config := config.(server := server);
    var port := AsI64(Index(network, "port"));
    if port.Some? {
      config := config.(port := Some(port.value % 0x1_0000));
    }
    var tls := AsBool(Index(network, "tls"));
    if tls.Some? {
      config := config.(useTls := tls);
    } else {
      config := config.(useTls := Some(false));
    }
    var channels := AsVec(Index(network, "channels"));
    if channels.Some? {
      var chanVec := CollectStrings(channels.value);
      config := config.(channels := chanVec);
    }
    var adminItems := AsVec(Index(network, "admins"));
    if adminItems.Some? {
      networkAdmins := CollectStrings(adminItems.value);
    }
    return Ok((name, config, networkAdmins));
  }

  /** The position of the first entry without a name or a server, or `|entries|`. */
  function FirstIncomplete(entries: seq<Yaml>): (k: nat)
    ensures k <= |entries|
    ensures forall j :: 0 <= j < k ==> Complete(entries[j])
    ensures k < |entries| ==> !Complete(entries[k])
  {
    if entries == [] then 0
    else if !Complete(entries[0]) then 0
    else 1 + FirstIncomplete(entries[1..])
  }

  /** The setup the entries give when read in order: each named entry sets its network's config
      and admin list, overwriting what an earlier entry of that name set. */
  function SetupOf(entries: seq<Yaml>): Setup
  {
    if entries == [] then Setup(map[], map[])
    else
      var s := SetupOf(entries[..|entries| - 1]);
      var last := entries[|entries| - 1];
      match NetworkName(last)
      case Some(name) => Setup(s.configs[name := ConfigOf(last)], s.admins[name := StringList(last, "admins")])
      case None => s
  }

  /** Every named network gets the config and the admin list of the LAST entry carrying its
      name, and no other network is set up. */
  lemma {:induction false} SetupOfLastNamed(entries: seq<Yaml>, name: string)
    ensures var s := SetupOf(entries);
      && (name in s.configs <==> LastNamed(entries, name) >= 0)
      && (name in s.admins <==> LastNamed(entries, name) >= 0)
      && (LastNamed(entries, name) >= 0 ==>
            && s.configs[name] == ConfigOf(entries[LastNamed(entries, name)])
            && s.admins[name] == StringList(entries[LastNamed(entries, name)], "admins"))
    decreases |entries|
  {
    if entries != [] {
      var prefix := entries[..|entries| - 1];
      SetupOfLastNamed(prefix, name);
      if NetworkName(entries[|entries| - 1]) != Some(name) {
        assert LastNamed(entries, name) == LastNamed(prefix, name);
        if LastNamed(prefix, name) >= 0 {
          assert entries[LastNamed(entries, name)] == prefix[LastNamed(prefix, name)];
        }
      }
    }
  }

  /** An incomplete entry not preceded by one is the first incomplete entry. */
  lemma IncompleteHere(entries: seq<Yaml>, i: nat)
    requires i < |entries| && i <= FirstIncomplete(entries) && !Complete(entries[i])
    ensures FirstIncomplete(entries) == i
  {
  }

  /** Reading one more complete entry. */
  lemma SetupOfSnoc(entries: seq<Yaml>, e: Yaml)
    requires Complete(e)
    ensures var s := SetupOf(entries); var name := NetworkName(e).value;
      SetupOf(entries + [e]) == Setup(s.configs[name := ConfigOf(e)], s.admins[name := StringList(e, "admins")])
  {
    assert (entries + [e])[..|entries|] == entries;
  }

  /**
   * Reads the `networks` list. Any entry without a name or a server aborts the whole setup
   * with the error of the first such entry; otherwise every named network gets the config
   * and the admin list of the last entry carrying its name (see `SetupOfLastNamed`).
   */
  method BuildSetup(config: Yaml) returns (r: Result<Setup, SetupError>)
    ensures AsVec(Index(config, "networks")).None? ==> r == Err(NoNetworks)
    ensures AsVec(Index(config, "networks")).Some? ==>
      var entries := Index(config, "networks").items;
      var k := FirstIncomplete(entries);
      r == if k < |entries| then Err(EntryError(entries[k])) else Ok(SetupOf(entries))
  {
    var networks := AsVec(Index(config, "networks"));
    if networks.None? {
      return Err(NoNetworks);
    }
    r := ReadNetworks(networks.value);
  }

  /** The loop of `BuildSetup` over the entries of the `networks` list. */
  method ReadNetworks(entries: seq<Yaml>) returns (r: Result<Setup, SetupError>)
    ensures var k := FirstIncomplete(entries);
      r == if k < |entries| then Err(EntryError(entries[k])) else Ok(SetupOf(entries))
  {
    var admins: map<string, seq<string>> := map[];
    var configs: map<string, Config> := map[];
    for i := 0 to |entries|
      invariant i <= FirstIncomplete(entries)
      invariant Setup(configs, admins) == SetupOf(entries[..i])
    {
      var read := ReadNetwork(entries[i]);
      if read.Err? {
        IncompleteHere(entries, i);
        return Err(read.error);
      }
      SetupOfSnoc(entries[..i], entries[i]);
      assert entries[..i + 1] == entries[..i] + [entries[i]];
      var (name, networkConfig, networkAdmins) := read.value;
      admins := admins[name := networkAdmins];
      configs := configs[name := networkConfig];
    }
    assert entries[..|entries|] == entries;
    return Ok(Setup(configs, admins));
  }

  /** An IRC command a connection writes: PRIVMSG, or a CTCP ACTION (an emote). */
  datatype WireCommand = SendPrivmsg(channel: string, text: string) | SendAction(channel: string, text: string)

  /** How a connection writes an action: to the action's channel, as a message or as an emote. */
  function ToWire(a: BotAction): (w: WireCommand)
    ensures w.channel == a.target.channel && w.text == a.actionType.text
    ensures w.SendAction? <==> a.actionType.Action?
  {
    match a.actionType
    case Message(msg) => SendPrivmsg(a.target.channel, msg)
    case Action(msg) => SendAction(a.target.channel, msg)
  }

  /**
   * The running loop: one connection per configured network, each with its queue of pending
   * actions and the commands it has written, plus the merged inbound stream handed to the
   * message handler.
   */
  class Router {
    var admins: map<string, seq<string>>
    var pending: map<string, seq<BotAction>>
    var written: map<string, seq<WireCommand>>
    var inbound: seq<(string, IrcMessage)>

    /** Every connection has a queue and an output, and every queued action is for its network. */
    ghost predicate Valid()
      reads this
    {
      && pending.Keys == written.Keys
      && forall n :: n in pending ==> forall k :: 0 <= k < |pending[n]| ==> pending[n][k].target.network == n
    }

    /** Starts one idle connection per configured network. */
    constructor (setup: Setup)
      ensures Valid()
      ensures admins == setup.admins
      ensures pending.Keys == setup.configs.Keys && written.Keys == setup.configs.Keys
      ensures forall n :: n in pending ==> pending[n] == [] && written[n] == []
      ensures inbound == []
    {
      admins := setup.admins;
      pending := map n | n in setup.configs :: [];
      written := map n | n in setup.configs :: [];
      inbound := [];
    }

    /** An action from the handler goes to its own network's connection and nowhere else;
        an action for a network without a connection is dropped. */
    method Route(a: BotAction)
      requires Valid()
      modifies this
      ensures Valid()
      ensures a.target.network in old(pending) ==>
        pending == old(pending)[a.target.network := old(pending)[a.target.network] + [a]]
      ensures a.target.network !in old(pending) ==> pending == old(pending)
      ensures admins == old(admins) && written == old(written) && inbound == old(inbound)
    {
      var network := a.target.network;
      if network in pending {
        pending := pending[network := pending[network] + [a]];
      }
    }

    /** The connection of `network` writes its oldest pending action. */
    method Flush(network: string)
      requires Valid() && network in pending && pending[network] != []
      modifies this
      ensures Valid()
      ensures pending == old(pending)[network := old(pending)[network][1..]]
      ensures written == old(written)[network := old(written)[network] + [ToWire(old(pending)[network][0])]]
      ensures admins == old(admins) && inbound == old(inbound)
    {
      var action := pending[network][0];
      pending := pending[network := pending[network][1..]];
      written := written[network := written[network] + [ToWire(action)]];
    }

    /** The connection of `network` read one frame: a message that parsed is forwarded,
        tagged with the connection's own network; a frame that did not parse is dropped. */
    method Receive(network: string, frame: Option<IrcMessage>)
      requires Valid() && network in pending
      modifies this
      ensures Valid()
      ensures inbound == old(inbound) + (if frame.Some? then [(network, frame.value)] else [])
      ensures admins == old(admins) && pending == old(pending) && written == old(written)
    {
      if frame.Some? {
        inbound := inbound + [(network, frame.value)];
      }
    }

    /** The admin query: true exactly when `mask` is listed among `network`'s admins. */
    method IsAdmin(network: string, mask: string) returns (isOwner: bool)
      ensures isOwner <==> network in admins && mask in admins[network]
    {
      isOwner := false;
      if network in admins {
        var networkAdmins := admins[network];
        var i := 0;
        while i < |networkAdmins|
          invariant 0 <= i <= |networkAdmins|
          invariant forall j :: 0 <= j < i ==> networkAdmins[j] != mask
          invariant !isOwner
        {
          if networkAdmins[i] == mask {
            isOwner := true;
            break;
          }
          i := i + 1;
        }
      }
    }
  }
}
