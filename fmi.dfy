/**
 * The FMI observation command (`src/fmi.rs`): the measurement series of a WFS response are
 * read into up to eight optional fields, and the present ones are assembled into one Finnish
 * line. The XML document arrives already parsed, as the place name and the list of members
 * with each member's series id and last value; the feels-like formula is floating point and
 * arrives as two parameters.
 */
module Fmi {
  import opened Wrappers
  import opened Text
  import opened Actions
  import opened Report
  import opened WeatherDb

  /** A member of the feature collection: a measurement series with its id and the value of its
      last point (absent when the point has no value), or anything else. */
  datatype Member = Series(id: string, value: Option<string>) | Other

  /** A parsed response: the station name, if the document names one, and its members. */
  datatype Document = Document(place: Option<string>, members: seq<Member>)

  /** The fields of a reading, each still text. */
  datatype WeatherData = WeatherData(place: Option<string>, temperature: Option<string>,
                                     wind: Option<string>, gust: Option<string>,
                                     feelsLike: Option<string>, humidity: Option<string>,
                                     cloudiness: Option<string>, wawa: Option<string>)

  /** The six measured fields, each read from its own series. */
  datatype Field = Temperature | Wind | Gust | Humidity | Wawa | Cloudiness

  function SeriesId(field: Field): string
  {
    match field
    case Temperature => "obs-obs-1-1-t2m"
    case Wind => "obs-obs-1-1-ws_10min"
    case Gust => "obs-obs-1-1-wg_10min"
    case Humidity => "obs-obs-1-1-rh"
    case Wawa => "obs-obs-1-1-wawa"
    case Cloudiness => "obs-obs-1-1-n_man"
  }

  /** The field a series id names, if any: the `match` on the id in `parse_xml`. */
  function FieldOf(id: string): (f: Option<Field>)
    ensures f.Some? ==> SeriesId(f.value) == id
  {
    if id == "obs-obs-1-1-t2m" then Some(Temperature)
    else if id == "obs-obs-1-1-ws_10min" then Some(Wind)
    else if id == "obs-obs-1-1-wg_10min" then Some(Gust)
    else if id == "obs-obs-1-1-rh" then Some(Humidity)
    else if id == "obs-obs-1-1-wawa" then Some(Wawa)
    else if id == "obs-obs-1-1-n_man" then Some(Cloudiness)
    else None
  }

  /** Each field has its own series, and every other id is ignored. */
  lemma FieldOfSeriesId(id: string, field: Field)
    ensures FieldOf(id) == Some(field) <==> id == SeriesId(field)
  {
  }

  /** The present-weather codes (WMO code table 4680, "wawa") the bot can name, in Finnish. */
  const WawaTable: map<nat, string> := map[
    4 := "auerta, savua tai ilmassa leijuvaa pölyä",
    5 := "auerta, savua tai ilmassa leijuvaa pölyä",
    20 := "sumua",
    21 := "sadetta",
    22 := "tihkusadetta tai lumijyväsiä",
    23 := "vesisadetta",
    24 := "lumisadetta",
    25 := "jäätävää vesisadetta tai jäätävää tihkua",
    30 := "sumua",
    31 := "sumua",
    32 := "sumua",
    33 := "sumua",
    34 := "sumua",
    40 := "sadetta",
    41 := "heikkoa tai kohtalaista sadetta",
    42 := "kovaa sadetta",
    50 := "tihkusadetta",
    51 := "heikkoa tihkusadetta",
    52 := "kohtalaista tihkusadetta",
    53 := "kovaa tihkusadetta",
    54 := "jäätävää heikkoa tihkusadetta",
    55 := "jäätävää kohtalaista tihkusadetta",
    56 := "jäätävää kovaa tihkusadetta",
    60 := "vesisadetta",
    61 := "heikkoa vesisadetta",
    62 := "kohtalaista vesisadetta",
    63 := "kovaa vesisadetta",
    64 := "jäätävää heikkoa vesisadetta",
    65 := "jäätävää kohtalaista vesisadetta",
    66 := "jäätävää kovaa vesisadetta",
    70 := "lumisadetta",
    71 := "heikkoa lumisadetta",
    72 := "kohtalaista lumisadetta",
    73 := "tiheää lumisadetta",
    74 := "heikkoa jääjyväsadetta",
    75 := "kohtalaista jääjyväsadetta",
    76 := "kovaa jääjyväsadetta",
    77 := "lumijyväsiä",
    78 := "jääkiteitä",
    80 := "kuuroja tai ajoittaista sadetta",
    81 := "heikkoja vesikuuroja",
    82 := "kohtalaisia vesikuuroja",
    83 := "kovia vesikuuroja",
    84 := "ankaria vesikuuroja",
    85 := "heikkoja lumikuuroja",
    86 := "kohtalaisia lumikuuroja",
    87 := "kovia lumikuuroja",
    89 := "raekuuroja"]

  /** The text a series value gives its field, or None when the value is refused. */
  function Reading(field: Field, value: string, table: map<nat, string>): Option<string>
  {
    if field == Wawa then
      match StripSuffix(value, ".0")
      case Some(v) => WawaCode(ParseUnsigned(v, U32Max), table)
      case None => None
    else if value == "NaN" then None
    else if field == Humidity || field == Cloudiness then Some(StripSuffix(value, ".0").GetOr(value))
    else Some(value)
  }

  function WawaCode(code: Option<nat>, table: map<nat, string>): Option<string>
  {
    if code.Some? && code.value in table then Some(table[code.value]) else None
  }

  /** The reading rules: "NaN" is refused for every field except wawa; temperature, wind and
      gust keep the value as it is; humidity and cloudiness lose one trailing ".0"; a wawa value
      is read only when it ends in ".0", the rest is a `u32` and the code is in the table, and
      then it reads as the code's description. */
  lemma ReadingRules(field: Field, value: string, table: map<nat, string>)
    ensures field != Wawa && value == "NaN" ==> Reading(field, value, table).None?
    ensures field in {Temperature, Wind, Gust} ==>
      Reading(field, value, table) == (if value == "NaN" then None else Some(value))
    ensures field in {Humidity, Cloudiness} && value != "NaN" ==>
      var r := Reading(field, value, table);
      r.Some? && (if EndsWith(value, ".0") then r.value + ".0" == value else r.value == value)
    ensures field == Wawa ==>
      var r := Reading(field, value, table);
      var code := if EndsWith(value, ".0") then ParseUnsigned(value[..|value| - 2], U32Max) else None;
      (r.Some? <==> code.Some? && code.value in table)
      && (r.Some? ==> r.value == table[code.value])
  {
  }

  /** What one member gives `field`: its reading, if it is a series with that field's id and a
      value; None otherwise. */
  function Accepts(m: Member, field: Field, table: map<nat, string>): Option<string>
  {
    if m.Series? && m.value.Some? && m.id == SeriesId(field) then Reading(field, m.value.value, table) else None
  }

  /** The value of `field` after the members have been read in order: each accepted reading
      overwrites the earlier ones and a refused value leaves the field alone. */
  function Latest(members: seq<Member>, field: Field, table: map<nat, string>): Option<string>
  {
    if members == [] then None
    else Update(Latest(members[..|members| - 1], field, table), members[|members| - 1], field, table)
  }

  /** Reading one more member. */
  lemma LatestSnoc(members: seq<Member>, m: Member, field: Field, table: map<nat, string>)
    ensures Latest(members + [m], field, table) == Update(Latest(members, field, table), m, field, table)
  {
    assert (members + [m])[..|members|] == members;
  }

  /** The value of a field is the reading of the last member that gives one, and there is none
      exactly when no member gives one. */
  lemma {:induction false} LatestIsLastReading(members: seq<Member>, field: Field, table: map<nat, string>)
    ensures Latest(members, field, table).None? <==>
      forall k :: 0 <= k < |members| ==> Accepts(members[k], field, table).None?
    ensures Latest(members, field, table).Some? ==>
      exists k :: 0 <= k < |members| && Accepts(members[k], field, table) == Latest(members, field, table)
                  && forall j :: k < j < |members| ==> Accepts(members[j], field, table).None?
    decreases |members|
  {
    if members != [] {
      var n := |members| - 1;
      var prefix := members[..n];
      LatestIsLastReading(prefix, field, table);
      assert forall k :: 0 <= k < n ==> members[k] == prefix[k];
      if Accepts(members[n], field, table).None? && Latest(prefix, field, table).Some? {
        var k :| 0 <= k < n && Accepts(prefix[k], field, table) == Latest(prefix, field, table)
                 && forall j :: k < j < n ==> Accepts(prefix[j], field, table).None?;
        assert Accepts(members[k], field, table) == Latest(members, field, table);
      }
    }
  }

  /** The feels-like reading: present only when temperature and wind both are, and the
      temperature is at most 10 degrees. `coldEnough(t)` stands for "t reads as a float that is
      at most 10.0" and `chill(t, w)` for the wind-chill formula, printed with one decimal, when
      `w` reads as a float. */
  function FeelsLike(temperature: Option<string>, wind: Option<string>,
                     coldEnough: string -> bool, chill: (string, string) -> Option<string>): (r: Option<string>)
    ensures r.Some? ==> temperature.Some? && wind.Some? && coldEnough(temperature.value)
    ensures temperature.Some? && wind.Some? && coldEnough(temperature.value) ==>
      r == chill(temperature.value, wind.value)
  {
    if temperature.Some? && wind.Some? && coldEnough(temperature.value) then
      chill(temperature.value, wind.value)
    else None
  }

  /** Every field of a reading absent. */
  predicate NoData(d: WeatherData)
  {
    d.place.None? && d.temperature.None? && d.wind.None? && d.gust.None? && d.feelsLike.None?
    && d.humidity.None? && d.cloudiness.None? && d.wawa.None?
  }

  /** The reading a document gives: each measured field from its series, the place from the
      document, feels-like from temperature and wind. */
  function Observed(doc: Document, coldEnough: string -> bool, chill: (string, string) -> Option<string>)
    : (d: WeatherData)
    ensures d.place == doc.place
    ensures d.feelsLike.Some? ==> d.temperature.Some? && d.wind.Some?
  {
    var table := WawaTable;
    var temperature := Latest(doc.members, Temperature, table);
    var wind := Latest(doc.members, Wind, table);
    WeatherData(doc.place, temperature, wind, Latest(doc.members, Gust, table),
                FeelsLike(temperature, wind, coldEnough, chill), Latest(doc.members, Humidity, table),
                Latest(doc.members, Cloudiness, table), Latest(doc.members, Wawa, table))
  }

  const ParseError := "Error parsing xml"
  const NoDataError := "Tietoja ei löytynyt"

  /** A field after one more member: its reading, if the member gives one, else as it was. */
  function Update(current: Option<string>, m: Member, field: Field, table: map<nat, string>): Option<string>
  {
    if Accepts(m, field, table).Some? then Accepts(m, field, table) else current
  }

  /** A member whose id names `field` gives that field the reading of its value and gives
      every other field nothing. */
  lemma OnlyField(m: Member, field: Field, table: map<nat, string>)
    requires m.Series? && m.value.Some? && FieldOf(m.id) == Some(field)
    ensures Accepts(m, field, table) == Reading(field, m.value.value, table)
    ensures forall g: Field :: g != field ==> Accepts(m, g, table).None?
  {
    forall g: Field
      ensures Accepts(m, g, table) == if g == field then Reading(field, m.value.value, table) else None
    {
      FieldOfSeriesId(m.id, g);
    }
  }

  /** A member that is not a series with a value, or whose id names no field, gives nothing. */
  lemma NoField(m: Member, table: map<nat, string>)
    requires !(m.Series? && m.value.Some? && FieldOf(m.id).Some?)
    ensures forall g: Field :: Accepts(m, g, table).None?
  {
    forall g: Field
      ensures Accepts(m, g, table).None?
    {
      if m.Series? {
        FieldOfSeriesId(m.id, g);
      }
    }
  }

  /** A value of temperature, wind or gust: stored unless it is "NaN". */
  method StoreMeasured(value: string, current: Option<string>, ghost field: Field, ghost table: map<nat, string>)
    returns (next: Option<string>)
    requires field in {Temperature, Wind, Gust}
    ensures next == if Reading(field, value, table).Some? then Reading(field, value, table) else current
  {
    next := current;
    if value != "NaN" {
      next := Some(value);
    }
  }

  /** A value of humidity or cloudiness: stored without a trailing ".0", unless it is "NaN". */
  method StoreWhole(value: string, current: Option<string>, ghost field: Field, ghost table: map<nat, string>)
    returns (next: Option<string>)
    requires field in {Humidity, Cloudiness}
    ensures next == if Reading(field, value, table).Some? then Reading(field, value, table) else current
  {
    next := current;
    if value != "NaN" {
      var stripped := StripSuffix(value, ".0");
      next := if stripped.Some? then stripped else Some(value);
    }
  }

  /** A wawa value: stored as its description when it is a known code followed by ".0". */
  method StoreWawa(value: string, current: Option<string>, table: map<nat, string>) returns (next: Option<string>)
    ensures next == if Reading(Wawa, value, table).Some? then Reading(Wawa, value, table) else current
  {
    next := current;
    var stripped := StripSuffix(value, ".0");
    if stripped.Some? {
      var code := ParseUnsigned(stripped.value, U32Max);
      if code.Some? {
        if code.value in table {
          next := Some(table[code.value]);
        }
      }
    }
  }

  /** The six measured fields together. */
  datatype Measured = Measured(temperature: Option<string>, wind: Option<string>, gust: Option<string>,
                               humidity: Option<string>, wawa: Option<string>, cloudiness: Option<string>)

  /** The measured fields after one more member. */
  function After(r: Measured, m: Member, table: map<nat, string>): Measured
  {
    Measured(Update(r.temperature, m, Temperature, table), Update(r.wind, m, Wind, table),
             Update(r.gust, m, Gust, table), Update(r.humidity, m, Humidity, table),
             Update(r.wawa, m, Wawa, table), Update(r.cloudiness, m, Cloudiness, table))
  }

  /** The measured field `f`. */
  function Get(r: Measured, f: Field): Option<string>
  {
    match f
    case Temperature => r.temperature
    case Wind => r.wind
    case Gust => r.gust
    case Humidity => r.humidity
    case Wawa => r.wawa
    case Cloudiness => r.cloudiness
  }

  /** The measured fields with `f` set to `v`. */
  function With(r: Measured, f: Field, v: Option<string>): (r': Measured)
    ensures Get(r', f) == v
    ensures forall g: Field :: g != f ==> Get(r', g) == Get(r, g)
  {
    match f
    case Temperature => r.(temperature := v)
    case Wind => r.(wind := v)
    case Gust => r.(gust := v)
    case Humidity => r.(humidity := v)
    case Wawa => r.(wawa := v)
    case Cloudiness => r.(cloudiness := v)
  }

  /** A member whose id names a field changes that field only. */
  lemma AfterOnly(r: Measured, m: Member, field: Field, table: map<nat, string>)
    requires m.Series? && m.value.Some? && FieldOf(m.id) == Some(field)
    ensures After(r, m, table) == With(r, field, Update(Get(r, field), m, field, table))
  {
    OnlyField(m, field, table);
  }

  /** A member whose id names no field changes nothing. */
  lemma AfterNone(r: Measured, m: Member, table: map<nat, string>)
    requires !(m.Series? && m.value.Some? && FieldOf(m.id).Some?)
    ensures After(r, m, table) == r
  {
    NoField(m, table);
  }

  /** One pass of the measurement loop of `parse_xml`: the member's series id picks the field
      it may set, and its value is checked and converted for that field. */
  method ReadMember(m: Member, temperature: Option<string>, wind: Option<string>, gust: Option<string>,
                    humidity: Option<string>, wawa: Option<string>, cloudiness: Option<string>,
                    table: map<nat, string>)
    returns (temperature': Option<string>, wind': Option<string>, gust': Option<string>,
             humidity': Option<string>, wawa': Option<string>, cloudiness': Option<string>)
    ensures Measured(temperature', wind', gust', humidity', wawa', cloudiness')
         == After(Measured(temperature, wind, gust, humidity, wawa, cloudiness), m, table)
  {
    ghost var r := Measured(temperature, wind, gust, humidity, wawa, cloudiness);
    temperature', wind', gust', humidity', wawa', cloudiness' := temperature, wind, gust, humidity, wawa, cloudiness;
    if !(m.Series? && m.value.Some? && FieldOf(m.id).Some?) {
      AfterNone(r, m, table);
      return;
    }
    var value := m.value.value;
    var field := FieldOf(m.id).value;
    AfterOnly(r, m, field, table);
    OnlyField(m, field, table);
    match field
    case Temperature =>
      temperature' := StoreMeasured(value, temperature, Temperature, table);
    case Wind =>
      wind' := StoreMeasured(value, wind, Wind, table);
    case Gust =>
      gust' := StoreMeasured(value, gust, Gust, table);
    case Humidity =>
      humidity' := StoreWhole(value, humidity, Humidity, table);
    case Wawa =>
      wawa' := StoreWawa(value, wawa, table);
    case Cloudiness =>
      cloudiness' := StoreWhole(value, cloudiness, Cloudiness, table);
  }

  /** The six measured fields after the members have been read in order. */
  function LatestAll(members: seq<Member>, table: map<nat, string>): Measured
  {
    Measured(Latest(members, Temperature, table), Latest(members, Wind, table), Latest(members, Gust, table),
             Latest(members, Humidity, table), Latest(members, Wawa, table), Latest(members, Cloudiness, table))
  }

  /** Reading one more member updates every field as `After` says. */
  lemma LatestAllSnoc(members: seq<Member>, m: Member, table: map<nat, string>)
    ensures LatestAll(members + [m], table) == After(LatestAll(members, table), m, table)
  {
    LatestSnoc(members, m, Temperature, table);
    LatestSnoc(members, m, Wind, table);
    LatestSnoc(members, m, Gust, table);
    LatestSnoc(members, m, Humidity, table);
    LatestSnoc(members, m, Wawa, table);
    LatestSnoc(members, m, Cloudiness, table);
  }

  /** The measurement loop of `parse_xml`: reads the members in order into the six measured
      fields. */
  method ReadMembers(members: seq<Member>, table: map<nat, string>)
    returns (temperature: Option<string>, wind: Option<string>, gust: Option<string>,
             humidity: Option<string>, wawa: Option<string>, cloudiness: Option<string>)
    ensures Measured(temperature, wind, gust, humidity, wawa, cloudiness) == LatestAll(members, table)
  {
    temperature, wind, gust, humidity, wawa, cloudiness := None, None, None, None, None, None;
    var i := 0;
    while i < |members|
      invariant 0 <= i <= |members|
      invariant Measured(temperature, wind, gust, humidity, wawa, cloudiness) == LatestAll(members[..i], table)
    {
      assert members[..i + 1] == members[..i] + [members[i]];
      LatestAllSnoc(members[..i], members[i], table);
      temperature, wind, gust, humidity, wawa, cloudiness :=
        ReadMember(members[i], temperature, wind, gust, humidity, wawa, cloudiness, table);
      i := i + 1;
    }
    assert members[..i] == members;
  }

  /** `parse_xml`: None for a document that is not XML. */
  method ParseXml(xml: Option<Document>, coldEnough: string -> bool, chill: (string, string) -> Option<string>)
    returns (r: Result<WeatherData, string>)
    ensures xml.None? ==> r == Err(ParseError)
    ensures xml.Some? ==>
      var d := Observed(xml.value, coldEnough, chill);
      r == if NoData(d) then Err(NoDataError) else Ok(d)
  {
    if xml.None? {
      return Err(ParseError);
    }
    var doc := xml.value;
    var place := doc.place;
    var temperature, wind, gust, humidity, wawa, cloudiness := ReadMembers(doc.members, WawaTable);
    var feelsLike := None;
    if temperature.Some? && wind.Some? {
      if coldEnough(temperature.value) {
        feelsLike := chill(temperature.value, wind.value);
      }
    }
    if !(place.Some? || temperature.Some? || wind.Some? || gust.Some? || feelsLike.Some?
         || humidity.Some? || cloudiness.Some? || wawa.Some?) {
      return Err(NoDataError);
    }
    r := Ok(WeatherData(place, temperature, wind, gust, feelsLike, humidity, cloudiness, wawa));
  }

  /** The labelled parts of the message, in their fixed order, one per present field. */
  function Parts(d: WeatherData): seq<string>
  {
    var p := Push(LeadingParts(d), Labelled(d.gust, "puuskat: ", "m/s"));
    var p := Push(p, Labelled(d.humidity, "ilman kosteus: ", "%"));
    Push(p, Labelled(d.cloudiness, "pilvisyys: ", "/8"))
  }

  /** The first three of them: temperature, feels-like and wind. */
  function LeadingParts(d: WeatherData): seq<string>
  {
    var p := Push([], Labelled(d.temperature, "lämpötila: ", "°C"));
    var p := Push(p, Labelled(d.feelsLike, "tuntuu kuin: ", "°C"));
    Push(p, Labelled(d.wind, "tuulen nopeus: ", "m/s"))
  }

  function PlacePrefix(d: WeatherData): string
  {
    PlacePart(d.place)
  }

  /** The message `generate_msg` builds: the place, each present labelled field followed by a
      separator, the weather description, and one trailing separator stripped. */
  function Message(d: WeatherData): string
  {
    StripSeparator(PlacePrefix(d) + Terminated(Parts(d)) + d.wawa.GetOr(""))
  }

  /** The pushes of `generate_msg` up to the weather description: the place, then each present
      labelled field with its separator. */
  method PushFields(d: WeatherData) returns (msg: string)
    ensures msg == PlacePrefix(d) + Terminated(Parts(d))
  {
    msg := "";
    if d.place.Some? {
      msg := msg + d.place.value + ": ";
    }
    msg := PushLeading(d, msg);
    ghost var parts := LeadingParts(d);
    msg, parts := PushField(msg, d.gust, "puuskat: ", "m/s", PlacePrefix(d), parts);
    msg, parts := PushField(msg, d.humidity, "ilman kosteus: ", "%", PlacePrefix(d), parts);
    msg, parts := PushField(msg, d.cloudiness, "pilvisyys: ", "/8", PlacePrefix(d), parts);
  }

  /** The pushes of temperature, feels-like and wind. */
  method PushLeading(d: WeatherData, msg: string) returns (pushed: string)
    requires msg == PlacePrefix(d)
    ensures pushed == PlacePrefix(d) + Terminated(LeadingParts(d))
  {
    ghost var parts: seq<string> := [];
    pushed := msg;
    pushed, parts := PushField(pushed, d.temperature, "lämpötila: ", "°C", msg, parts);
    pushed, parts := PushField(pushed, d.feelsLike, "tuntuu kuin: ", "°C", msg, parts);
    pushed, parts := PushField(pushed, d.wind, "tuulen nopeus: ", "m/s", msg, parts);
  }

  /** `generate_msg`. */
  method GenerateMsg(d: WeatherData) returns (msg: string)
    ensures msg == Message(d)
  {
    msg := PushFields(d);
    if d.wawa.Some? {
      msg := msg + d.wawa.value;
    } else {
      assert msg + [] == msg;
    }
    msg := StripSeparator(msg);
  }

  const FetchError := "Tietojen haku ei onnistunut"

  /** The reply to a fetch: None when the request failed, `Some(None)` when the response is not
      XML. */
  function Reply(fetched: Option<Option<Document>>, coldEnough: string -> bool,
                 chill: (string, string) -> Option<string>): string
  {
    match fetched
    case None => FetchError
    case Some(None) => ParseError
    case Some(Some(doc)) =>
      var d := Observed(doc, coldEnough, chill);
      if NoData(d) then NoDataError else Message(d)
  }

  /** The place asked about: the parameters, or the sender's stored location when there are none. */
  function Place(params: string, table: map<Key, string>, prefix: Option<Prefix>, network: string,
                 dbOpens: bool): (place: string)
    ensures params != "" ==> place == params
    ensures params == "" ==> place == LocationFor(table, prefix, network, dbOpens)
  {
    if params == "" then LocationFor(table, prefix, network, dbOpens) else params
  }

  /** `command_fmi`: `fetch(place)` is the outcome of the request for `place`. */
  method CommandFmi(store: LocationStore, source: IrcChannel, prefix: Option<Prefix>, params: string,
                    dbOpens: bool, fetch: string -> Option<Option<Document>>,
                    coldEnough: string -> bool, chill: (string, string) -> Option<string>)
    returns (effect: Effect)
    ensures effect == Say(source, Reply(fetch(Place(params, store.table, prefix, source.network, dbOpens)),
                                        coldEnough, chill))
  {
    var location := params;
    if params == "" {
      location := store.GetLocation(prefix, source.network, dbOpens);
    }
    var msg := Respond(fetch(location), coldEnough, chill);
    effect := Say(source, msg);
  }

  /** The reply `command_fmi` sends for the outcome of its request. */
  method Respond(fetched: Option<Option<Document>>, coldEnough: string -> bool,
                 chill: (string, string) -> Option<string>) returns (msg: string)
    ensures msg == Reply(fetched, coldEnough, chill)
  {
    if fetched.Some? {
      var parsed := ParseXml(fetched.value, coldEnough, chill);
      match parsed
      case Ok(data) => msg := GenerateMsg(data);
      case Err(e) => msg := e;
    } else {
      msg := FetchError;
    }
  }

  /** A member whose series id names no field changes nothing. */
  lemma UnknownSeriesIgnored(members: seq<Member>, m: Member, field: Field, table: map<nat, string>)
    requires m.Series? && FieldOf(m.id).None?
    ensures Latest(members + [m], field, table) == Latest(members, field, table)
  {
    FieldOfSeriesId(m.id, field);
    LatestSnoc(members, m, field, table);
  }

  /** A later accepted reading replaces an earlier one. */
  lemma LaterReadingWins(members: seq<Member>, m: Member, field: Field, table: map<nat, string>)
    requires Accepts(m, field, table).Some?
    ensures Latest(members + [m], field, table) == Accepts(m, field, table)
  {
    LatestSnoc(members, m, field, table);
  }

  /** A refused reading, such as "NaN", leaves the field as it was. */
  lemma RefusedReadingKeeps(members: seq<Member>, m: Member, field: Field, table: map<nat, string>)
    requires m.Series? && m.value.Some? && Reading(field, m.value.value, table).None?
    ensures Latest(members + [m], field, table) == Latest(members, field, table)
  {
    LatestSnoc(members, m, field, table);
  }

  /** Conversions of the observation test: "96.0" and "8.0" lose their ".0", "NaN" is refused
      and any other measured value is kept as it is. */
  lemma ReadingExamples()
    ensures Reading(Humidity, "96.0", WawaTable) == Some("96")
    ensures Reading(Cloudiness, "8.0", WawaTable) == Some("8")
    ensures Reading(Temperature, "NaN", WawaTable) == None
    ensures Reading(Temperature, "-1.3", WawaTable) == Some("-1.3")
  {
    assert "96.0"[..2] == "96";
    assert "8.0"[..1] == "8";
  }

  /** Wawa code 64 read from "64.0", and refused without the ".0". */
  lemma WawaReadingExamples()
    ensures Reading(Wawa, "64.0", WawaTable) == Some("jäätävää heikkoa vesisadetta")
    ensures Reading(Wawa, "64", WawaTable) == None
  {
    assert "64.0"[..2] == "64";
    assert ParseUnsigned("64", U32Max) == Some(64) by {
      assert IsDigits("64");
      assert "64"[..1] == "6";
      assert DigitsValue("6") == 6 by { assert "6"[..0] == ""; }
    }
  }

  /** The message is the place followed by the present labelled fields and the description,
      joined by ", ", for every description the table holds. */
  lemma MessageJoined(d: WeatherData)
    requires d.wawa.Some? ==> d.wawa.value != [] && d.wawa.value[|d.wawa.value| - 1] != ' '
    ensures Message(d) == PlacePrefix(d) + Join(Separator, Parts(d) + (if d.wawa.Some? then [d.wawa.value] else []))
  {
    PlacePartNoSeparator(d.place);
    Assembled(PlacePrefix(d), Parts(d), d.wawa);
  }

  /** The reply to a successful fetch with data is its fields, joined by ", ". */
  lemma ReplyJoined(doc: Document, coldEnough: string -> bool, chill: (string, string) -> Option<string>)
    requires !NoData(Observed(doc, coldEnough, chill))
    requires var w := Observed(doc, coldEnough, chill).wawa; w.Some? ==> w.value != [] && w.value[|w.value| - 1] != ' '
    ensures var d := Observed(doc, coldEnough, chill);
      Reply(Some(Some(doc)), coldEnough, chill)
      == PlacePrefix(d) + Join(Separator, Parts(d) + (if d.wawa.Some? then [d.wawa.value] else []))
  {
    MessageJoined(Observed(doc, coldEnough, chill));
  }
}
