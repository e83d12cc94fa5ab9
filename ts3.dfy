/**
 * The TeamSpeak 3 command (`src/ts3.rs`): the server query lists the clients online, the
 * voice clients (type 0) are kept with their nicknames cut to two bytes of UTF-8, and the
 * count and the nicknames are said in one line. The query itself is a parameter: it gives the
 * client list, or None when connecting, logging in, selecting the server, listing or logging
 * out failed.
 */
module Ts3 {
  import opened Wrappers
  import opened Text
  import opened Actions
  import opened IrcLoop

  /** A client as the server query lists it. */
  datatype Client = Client(clientType: int, nickname: string)

  /** Where and how to log in to the server query. */
  datatype Ts3Config = Ts3Config(host: string, port: nat, login: string, password: string)

  const DefaultPort := 10011
  const PortRange := 0x1_0000
  const NotConfigured := "Teamspeak 3 not configured properly"
  const FetchError := "Error when fetching teamspeak clients"
  const NobodyOnline := "TS:ssä ei ole ketään"
  const OneOnline := "TS:ssä on 1 käyttäjä: "
  const CountPrefix := "TS:ssä on "
  const CountSuffix := " käyttäjää: "
  const MaxLen := 2

  /** The number of bytes a character takes in UTF-8. */
  function Utf8Len(c: char): nat
  {
    if c as int < 0x80 then 1
    else if c as int < 0x800 then 2
    else if c as int < 0x1_0000 then 3
    else 4
  }

  /** `String::len`: the length of a string in UTF-8 bytes. */
  function ByteLen(s: string): nat
  {
    if s == [] then 0 else ByteLen(s[..|s| - 1]) + Utf8Len(s[|s| - 1])
  }

  /** The nickname as it is shown: its first character when that takes two bytes or more,
      otherwise its first two characters (or all of it when it is shorter). */
  function ShortNick(nick: string): string
  {
    if nick == [] then []
    else if Utf8Len(nick[0]) >= MaxLen || |nick| == 1 then nick[..1]
    else nick[..2]
  }

  /** The byte length of the first one and two characters. */
  lemma ByteLenOfFirst(s: string)
    requires |s| >= 1
    ensures ByteLen(s[..1]) == Utf8Len(s[0])
    ensures |s| >= 2 ==> ByteLen(s[..2]) == Utf8Len(s[0]) + Utf8Len(s[1])
  {
    assert s[..1][..0] == [];
    if |s| >= 2 {
      assert s[..2][..1] == s[..1];
    }
  }

  /** The truncation loop of `get_clients`: characters are pushed one at a time until the
      text reaches two bytes. */
  method TruncateNick(nick: string) returns (out: string)
    ensures out == ShortNick(nick)
  {
    out := [];
    var i := 0;
    while i < |nick|
      invariant i <= 1 && i <= |nick|
      invariant out == nick[..i]
      invariant i == 1 ==> Utf8Len(nick[0]) < MaxLen
    {
      ByteLenOfFirst(nick);
      out := out + [nick[i]];
      i := i + 1;
      assert out == nick[..i];
      if ByteLen(out) >= MaxLen {
        return;
      }
    }
  }

  /** The shown nickname is the shortest beginning of the nickname that takes at least two
      bytes, or the whole nickname when no beginning does. */
  lemma ShortNickIsShortestPrefix(nick: string)
    ensures var s := ShortNick(nick);
      && s <= nick
      && (ByteLen(s) >= MaxLen || s == nick)
      && forall k :: 0 <= k < |s| ==> ByteLen(nick[..k]) < MaxLen
  {
    if nick != [] {
      ByteLenOfFirst(nick);
      assert nick[..0] == [];
      if |nick| == 1 {
        assert nick[..1] == nick;
      }
    }
  }

  /** The shown nicknames of the voice clients, in the order of the list. */
  function RealClients(clients: seq<Client>): seq<string>
  {
    if clients == [] then []
    else
      var last := clients[|clients| - 1];
      RealClients(clients[..|clients| - 1]) + (if last.clientType == 0 then [ShortNick(last.nickname)] else [])
  }

  lemma RealClientsSnoc(clients: seq<Client>, c: Client)
    ensures RealClients(clients + [c])
         == RealClients(clients) + (if c.clientType == 0 then [ShortNick(c.nickname)] else [])
  {
    assert (clients + [c])[..|clients|] == clients;
  }

  /** The `filter_map` of `get_clients` over the listed clients. */
  method CollectRealClients(clients: seq<Client>) returns (nicks: seq<string>)
    ensures nicks == RealClients(clients)
  {
    nicks := [];
    for i := 0 to |clients|
      invariant nicks == RealClients(clients[..i])
    {
      assert clients[..i + 1] == clients[..i] + [clients[i]];
      RealClientsSnoc(clients[..i], clients[i]);
      if clients[i].clientType == 0 {
        var out := TruncateNick(clients[i].nickname);
        nicks := nicks + [out];
      }
    }
    assert clients[..|clients|] == clients;
  }

  /** A nickname is listed exactly when some voice client shows it. */
  lemma {:induction false} RealClientsMembership(clients: seq<Client>, nick: string)
    ensures nick in RealClients(clients) <==>
      exists k :: 0 <= k < |clients| && clients[k].clientType == 0 && ShortNick(clients[k].nickname) == nick
  {
    if clients != [] {
      var init := clients[..|clients| - 1];
      var last := clients[|clients| - 1];
      assert clients == init + [last];
      RealClientsSnoc(init, last);
      RealClientsMembership(init, nick);
      if exists k :: 0 <= k < |clients| && clients[k].clientType == 0 && ShortNick(clients[k].nickname) == nick {
        var k :| 0 <= k < |clients| && clients[k].clientType == 0 && ShortNick(clients[k].nickname) == nick;
        if k < |init| {
          assert init[k] == clients[k];
        }
      }
      if nick in RealClients(init) {
        var k :| 0 <= k < |init| && init[k].clientType == 0 && ShortNick(init[k].nickname) == nick;
        assert clients[k] == init[k];
      }
    }
  }

  /** The number of voice clients. */
  function VoiceCount(clients: seq<Client>): nat
  {
    if clients == [] then 0
    else VoiceCount(clients[..|clients| - 1]) + (if clients[|clients| - 1].clientType == 0 then 1 else 0)
  }

  /** One nickname per voice client: the count in the message is the number of voice clients. */
  lemma {:induction false} RealClientsCount(clients: seq<Client>)
    ensures |RealClients(clients)| == VoiceCount(clients)
  {
    if clients != [] {
      RealClientsCount(clients[..|clients| - 1]);
    }
  }

  /** `get_clients`: the query's outcome, filtered. */
  method GetClients(conf: Ts3Config, query: Ts3Config -> Option<seq<Client>>) returns (r: Result<seq<string>, string>)
    ensures query(conf).None? ==> r.Err?
    ensures query(conf).Some? ==> r == Ok(RealClients(query(conf).value))
  {
    var listed := query(conf);
    if listed.None? {
      return Err(FetchError);
    }
    var nicks := CollectRealClients(listed.value);
    r := Ok(nicks);
  }

  /** `generate_msg`. */
  function GenerateMsg(nicks: seq<string>): string
  {
    match |nicks|
    case 0 => NobodyOnline
    case 1 => OneOnline + nicks[0]
    case _ => CountPrefix + NatToString(|nicks|) + CountSuffix + Join(", ", nicks)
  }

  /** With two or more nicknames the number in the message reads back as their count. */
  lemma GenerateMsgCount(nicks: seq<string>)
    requires |nicks| >= 2
    ensures var msg := GenerateMsg(nicks);
      var digits := NatToString(|nicks|);
      && |CountPrefix| + |digits| <= |msg|
      && msg[..|CountPrefix|] == CountPrefix
      && DigitsValue(msg[|CountPrefix|..|CountPrefix| + |digits|]) == |nicks|
  {
    var msg := GenerateMsg(nicks);
    var digits := NatToString(|nicks|);
    assert msg[..|CountPrefix|] == CountPrefix;
    assert msg[|CountPrefix|..|CountPrefix| + |digits|] == digits;
    DigitsValueOfNatToString(|nicks|);
  }

  /** The configured port, or 10011, cut to 16 bits as `as u16` does. */
  function PortOf(port: Option<int>): (p: nat)
    ensures p < PortRange
  {
    port.GetOr(DefaultPort) % PortRange
  }

  /** `get_conf`: the `teamspeak3` section; the host, the login and the password must be
      strings. */
  function GetConf(config: Yaml): (c: Option<Ts3Config>)
    ensures c.Some? <==>
      var section := Index(config, "teamspeak3");
      && AsStr(Index(section, "host")).Some?
      && AsStr(Index(section, "serverquery_login")).Some?
      && AsStr(Index(section, "serverquery_password")).Some?
  {
    var section := Index(config, "teamspeak3");
    var host := AsStr(Index(section, "host"));
    var port := PortOf(AsI64(Index(section, "port")));
    var login := AsStr(Index(section, "serverquery_login"));
    var password := AsStr(Index(section, "serverquery_password"));
    if host.Some? && login.Some? && password.Some? then
      Some(Ts3Config(host.value, port, login.value, password.value))
    else None
  }

  /** The port: 10011 when none is configured, a port within 16 bits as configured, and any
      other number wrapped around 65536. */
  lemma PortWraps(port: int)
    ensures PortOf(None) == DefaultPort
    ensures 0 <= port < PortRange ==> PortOf(Some(port)) == port
    ensures PortOf(Some(port + PortRange)) == PortOf(Some(port))
    ensures PortOf(Some(-1)) == PortRange - 1
  {
  }

  /** The reply to the command. */
  function Reply(config: Yaml, query: Ts3Config -> Option<seq<Client>>): string
  {
    var conf := GetConf(config);
    if conf.None? then NotConfigured
    else if query(conf.value).None? then FetchError
    else GenerateMsg(RealClients(query(conf.value).value))
  }

  /** Each failure has its own line, and no listing is mistaken for either. */
  lemma ReplyErrorIff(config: Yaml, query: Ts3Config -> Option<seq<Client>>)
    ensures Reply(config, query) == NotConfigured <==> GetConf(config).None?
    ensures Reply(config, query) == FetchError <==> GetConf(config).Some? && query(GetConf(config).value).None?
  {
    var conf := GetConf(config);
    var r := Reply(config, query);
    if conf.Some? && query(conf.value).Some? {
      var nicks := RealClients(query(conf.value).value);
      assert r[1] == 'S' && NotConfigured[1] == 'e' && FetchError[0] == 'E' && r[0] == 'T' by {
        if |nicks| >= 2 {
          assert r[..|CountPrefix|] == CountPrefix;
        } else if |nicks| == 1 {
          assert r[..|OneOnline|] == OneOnline;
        }
      }
    }
  }

  /** `command_ts`: one line to the channel the command came from. */
  method CommandTs(source: IrcChannel, config: Yaml, query: Ts3Config -> Option<seq<Client>>)
    returns (effects: seq<Effect>)
    ensures effects == [Say(source, Reply(config, query))]
  {
    var msg;
    var conf := GetConf(config);
    if conf.Some? {
      var clients := GetClients(conf.value, query);
      if clients.Ok? {
        msg := GenerateMsg(clients.value);
      } else {
        msg := FetchError;
      }
    } else {
      msg := NotConfigured;
    }
    effects := [Say(source, msg)];
  }
}
