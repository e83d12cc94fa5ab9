/**
 * Stored weather locations (`src/weather_db.rs`): one location per (network, nick), where a
 * new location for the same pair replaces the old one, as the table's
 * `UNIQUE(network, nick) ON CONFLICT REPLACE` does. The SQLite file is an in-memory map;
 * whether the database opens and whether an insert succeeds are parameters.
 */
module WeatherDb {
  import opened Wrappers
  import opened Actions

  const DefaultLocation := "Helsinki"

  /** The key of a stored location. */
  datatype Key = Key(network: string, nick: string)

  /** The `SELECT location ... WHERE nick = :nick AND network = :network` lookup. */
  function Lookup(table: map<Key, string>, nick: string, network: string): (r: Option<string>)
    ensures r.Some? <==> Key(network, nick) in table
    ensures r.Some? ==> r.value == table[Key(network, nick)]
  {
    if Key(network, nick) in table then Some(table[Key(network, nick)]) else None
  }

  /** The location used for a weather query: the stored one of a Nickname sender, or the default. */
  function LocationFor(table: map<Key, string>, prefix: Option<Prefix>, network: string, dbOpens: bool): (l: string)
    ensures (prefix.Some? && prefix.value.Nickname? && dbOpens
             && Lookup(table, prefix.value.nick, network).Some?) ==> l == table[Key(network, prefix.value.nick)]
    ensures !(prefix.Some? && prefix.value.Nickname?) ==> l == DefaultLocation
    ensures !dbOpens ==> l == DefaultLocation
    ensures prefix.Some? && prefix.value.Nickname? && Key(network, prefix.value.nick) !in table ==> l == DefaultLocation
  {
    if prefix.Some? && prefix.value.Nickname? && dbOpens then
      Lookup(table, prefix.value.nick, network).GetOr(DefaultLocation)
    else DefaultLocation
  }

  /** The `locations` table. */
  class LocationStore {
    var table: map<Key, string>

    constructor ()
      ensures table == map[]
    {
      table := map[];
    }

    /** `get_stored_location`. */
    method GetStored(nick: string, network: string) returns (r: Option<string>)
      ensures r == Lookup(table, nick, network)
      ensures r.Some? <==> Key(network, nick) in table
    {
      var key := Key(network, nick);
      if key in table {
        r := Some(table[key]);
      } else {
        r := None;
      }
    }

    /** `set_location`: an insert that replaces the row of the same (network, nick); a failed
        insert leaves the table as it was. */
    method SetLocation(nick: string, network: string, location: string, insertOk: bool) returns (ok: bool)
      modifies this
      ensures ok == insertOk
      ensures ok ==> table == old(table)[Key(network, nick) := location]
      ensures !ok ==> table == old(table)
    {
      ok := insertOk;
      if insertOk {
        table := table[Key(network, nick) := location];
      }
    }

    /** `get_location`. */
    method GetLocation(prefix: Option<Prefix>, network: string, dbOpens: bool) returns (location: string)
      ensures location == LocationFor(table, prefix, network, dbOpens)
    {
      location := DefaultLocation;
      if prefix.Some? && prefix.value.Nickname? && dbOpens {
        var stored := GetStored(prefix.value.nick, network);
        if stored.Some? {
          location := stored.value;
        }
      }
    }

    /** `command_weatherset`: for a Nickname sender whose database opens, store the location and
        say whether that worked; otherwise nothing. */
    method CommandWeatherSet(source: IrcChannel, prefix: Option<Prefix>, location: string,
                             dbOpens: bool, insertOk: bool) returns (effects: seq<Effect>)
      modifies this
      ensures !(prefix.Some? && prefix.value.Nickname? && dbOpens) ==> effects == [] && table == old(table)
      ensures prefix.Some? && prefix.value.Nickname? && dbOpens ==>
        && effects == [Say(source, if insertOk then "Weather location set" else "Database error")]
        && (insertOk ==> table == old(table)[Key(source.network, prefix.value.nick) := location])
        && (!insertOk ==> table == old(table))
    {
      effects := [];
      if prefix.Some? && prefix.value.Nickname? && dbOpens {
        var ok := SetLocation(prefix.value.nick, source.network, location, insertOk);
        var message := if ok then "Weather location set" else "Database error";
        effects := [Say(source, message)];
      }
    }
  }

  /** After a set, the same nick on the same network reads the new location. */
  lemma SetThenGet(table: map<Key, string>, nick: string, network: string, location: string)
    ensures Lookup(table[Key(network, nick) := location], nick, network) == Some(location)
  {
  }

  /** A set leaves every other (network, nick) pair as it was, in particular the same nick on
      another network. */
  lemma SetLeavesOthers(table: map<Key, string>, nick: string, network: string, location: string,
                        nick2: string, network2: string)
    requires nick2 != nick || network2 != network
    ensures Lookup(table[Key(network, nick) := location], nick2, network2) == Lookup(table, nick2, network2)
  {
  }

  /** Two sets of the same pair leave only the second. */
  lemma SecondSetReplaces(table: map<Key, string>, nick: string, network: string, first: string, second: string)
    ensures table[Key(network, nick) := first][Key(network, nick) := second] == table[Key(network, nick) := second]
  {
  }

  /** The sequence of the store's own unit test: nothing before a set, the location after it,
      the second location after a second set, and nothing on another network. */
  method SetGetScenario() returns (before: Option<string>, afterFirst: Option<string>,
                                   afterSecond: Option<string>, otherNetwork: Option<string>)
    ensures before == None
    ensures afterFirst == Some("helsinki")
    ensures afterSecond == Some("tampere")
    ensures otherNetwork == None
  {
    var store := new LocationStore();
    before := store.GetStored("testnick", "testnetwork");
    var ok := store.SetLocation("testnick", "testnetwork", "helsinki", true);
    afterFirst := store.GetStored("testnick", "testnetwork");
    ok := store.SetLocation("testnick", "testnetwork", "tampere", true);
    afterSecond := store.GetStored("testnick", "testnetwork");
    otherNetwork := store.GetStored("testnick", "anothernetwork");
  }
}
