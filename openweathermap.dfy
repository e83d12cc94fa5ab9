/**
 * The OpenWeatherMap command (`src/openweathermap.rs`): the fields of a current-weather JSON
 * response are read into up to seven optional text fields and the present ones are assembled
 * into one English line. The JSON arrives already parsed, as the values the handler reads from
 * it; a float is rounded to one decimal before it reaches the model, so the three float fields
 * arrive as that text.
 */
module Owm {
  import opened Wrappers
  import opened Text
  import opened Actions
  import opened Report
  import opened WeatherDb

  /** What the handler reads from the response: `sys.country` and `name` as strings,
      `main.temp`, `wind.speed` and `main.feels_like` as floats already printed with one decimal,
      `main.humidity` and `clouds.all` as integers, and the first weather description. A field
      that is absent or of another JSON type is None. */
  datatype Json = Json(country: Option<string>, city: Option<string>, temp: Option<string>,
                       windSpeed: Option<string>, feelsLike: Option<string>,
                       humidity: Option<Int64>, clouds: Option<Int64>, description: Option<string>)

  /** The fields of a reading, each already text. */
  datatype WeatherData = WeatherData(place: Option<string>, temperature: Option<string>,
                                     wind: Option<string>, feelsLike: Option<string>,
                                     humidity: Option<string>, cloudiness: Option<string>,
                                     description: Option<string>)

  const ParseError := "Error parsing JSON"
  const NoDataError := "No data found"
  const Unavailable := "Unable to get weather data"

  /** The place: `city, country`, only when both are present. */
  function PlaceOf(country: Option<string>, city: Option<string>): (p: Option<string>)
    ensures p.Some? <==> country.Some? && city.Some?
    ensures p.Some? ==>
      && |p.value| == |city.value| + 2 + |country.value|
      && p.value[..|city.value|] == city.value
      && p.value[|city.value|..|city.value| + 2] == ", "
      && p.value[|city.value| + 2..] == country.value
  {
    if country.Some? && city.Some? then
      var p := city.value + ", " + country.value;
      assert p[..|city.value|] == city.value;
      assert p[|city.value|..|city.value| + 2] == ", ";
      assert p[|city.value| + 2..] == country.value;
      Some(p)
    else None
  }

  /** An integer field printed with `{}`. */
  function Printed(n: Option<Int64>): (r: Option<string>)
    ensures r.Some? <==> n.Some?
    ensures r.Some? ==> ParseI64(r.value) == Some(n.value)
  {
    if n.Some? then
      IntToStringRoundTrip(n.value);
      Some(IntToString(n.value))
    else None
  }

  /** The reading a response gives. */
  function Extracted(j: Json): (d: WeatherData)
    ensures d.place == PlaceOf(j.country, j.city)
    ensures d.temperature == j.temp && d.wind == j.windSpeed && d.feelsLike == j.feelsLike
    ensures d.description == j.description
    ensures d.humidity.Some? <==> j.humidity.Some?
    ensures d.humidity.Some? ==> ParseI64(d.humidity.value) == Some(j.humidity.value)
    ensures d.cloudiness.Some? <==> j.clouds.Some?
    ensures d.cloudiness.Some? ==> ParseI64(d.cloudiness.value) == Some(j.clouds.value)
  {
    WeatherData(PlaceOf(j.country, j.city), j.temp, j.windSpeed, j.feelsLike,
                Printed(j.humidity), Printed(j.clouds), j.description)
  }

  /** Every field of a reading absent. */
  predicate NoData(d: WeatherData)
  {
    d.place.None? && d.temperature.None? && d.wind.None? && d.feelsLike.None?
    && d.humidity.None? && d.cloudiness.None? && d.description.None?
  }

  /** `parse_json`: None for a body that is not JSON. */
  method ParseJson(json: Option<Json>) returns (r: Result<WeatherData, string>)
    ensures json.None? ==> r == Err(ParseError)
    ensures json.Some? ==>
      var d := Extracted(json.value);
      r == if NoData(d) then Err(NoDataError) else Ok(d)
  {
    if json.None? {
      return Err(ParseError);
    }
    var j := json.value;
    var place := None;
    var temperature := None;
    var wind := None;
    var feelsLike := None;
    var humidity := None;
    var cloudiness := None;
    var description := None;
    if j.country.Some? {
      if j.city.Some? {
        place := Some(j.city.value + ", " + j.country.value);
      }
    }
    if j.temp.Some? {
      temperature := j.temp;
    }
    if j.windSpeed.Some? {
      wind := j.windSpeed;
    }
    if j.feelsLike.Some? {
      feelsLike := j.feelsLike;
    }
    if j.humidity.Some? {
      humidity := Some(IntToString(j.humidity.value));
    }
    if j.clouds.Some? {
      cloudiness := Some(IntToString(j.clouds.value));
    }
    if j.description.Some? {
      description := j.description;
    }
    if !(place.Some? || temperature.Some? || wind.Some? || feelsLike.Some? || humidity.Some?
         || cloudiness.Some? || description.Some?) {
      return Err(NoDataError);
    }
    r := Ok(WeatherData(place, temperature, wind, feelsLike, humidity, cloudiness, description));
  }

  /** A response yields a reading exactly when it holds at least one field the handler reads. */
  lemma NoDataIffEmpty(j: Json)
    ensures NoData(Extracted(j)) <==>
      && (j.country.None? || j.city.None?) && j.temp.None? && j.windSpeed.None?
      && j.feelsLike.None? && j.humidity.None? && j.clouds.None? && j.description.None?
  {
  }

  /** The labelled parts of the message, in their fixed order, one per present field. */
  function Parts(d: WeatherData): seq<string>
  {
    var p := Push(LeadingParts(d), Labelled(d.humidity, "humidity: ", "%"));
    Push(p, Labelled(d.cloudiness, "cloudiness: ", "%"))
  }

  /** The first three of them: temperature, feels-like and wind. */
  function LeadingParts(d: WeatherData): seq<string>
  {
    var p := Push([], Labelled(d.temperature, "temperature: ", "°C"));
    var p := Push(p, Labelled(d.feelsLike, "feels like: ", "°C"));
    Push(p, Labelled(d.wind, "wind speed: ", "m/s"))
  }

  function PlacePrefix(d: WeatherData): string
  {
    PlacePart(d.place)
  }

  /** The message `generate_msg` builds: the place, each present labelled field followed by a
      separator, the description, and one trailing separator stripped. */
  function Message(d: WeatherData): string
  {
    StripSeparator(PlacePrefix(d) + Terminated(Parts(d)) + d.description.GetOr(""))
  }

  /** The pushes of `generate_msg` up to the description. */
  method PushFields(d: WeatherData) returns (msg: string)
    ensures msg == PlacePrefix(d) + Terminated(Parts(d))
  {
    msg := "";
    if d.place.Some? {
      msg := msg + d.place.value + ": ";
    }
    msg := PushLeading(d, msg);
    ghost var parts := LeadingParts(d);
    msg, parts := PushField(msg, d.humidity, "humidity: ", "%", PlacePrefix(d), parts);
    msg, parts := PushField(msg, d.cloudiness, "cloudiness: ", "%", PlacePrefix(d), parts);
  }

  /** The pushes of temperature, feels-like and wind. */
  method PushLeading(d: WeatherData, msg: string) returns (pushed: string)
    requires msg == PlacePrefix(d)
    ensures pushed == PlacePrefix(d) + Terminated(LeadingParts(d))
  {
    ghost var parts: seq<string> := [];
    pushed := msg;
    pushed, parts := PushField(pushed, d.temperature, "temperature: ", "°C", msg, parts);
    pushed, parts := PushField(pushed, d.feelsLike, "feels like: ", "°C", msg, parts);
    pushed, parts := PushField(pushed, d.wind, "wind speed: ", "m/s", msg, parts);
  }

  /** `generate_msg`. */
  method GenerateMsg(d: WeatherData) returns (msg: string)
    ensures msg == Message(d)
  {
    msg := PushFields(d);
    if d.description.Some? {
      msg := msg + d.description.value;
    } else {
      assert msg + [] == msg;
    }
    msg := StripSeparator(msg);
  }

  /** The message is the place followed by the present labelled fields and the description,
      joined by ", ", when the description does not end in a space. */
  lemma MessageJoined(d: WeatherData)
    requires d.description.Some? ==> d.description.value != [] && d.description.value[|d.description.value| - 1] != ' '
    ensures Message(d) == PlacePrefix(d) + Join(Separator, Parts(d) + (if d.description.Some? then [d.description.value] else []))
  {
    PlacePartNoSeparator(d.place);
    Assembled(PlacePrefix(d), Parts(d), d.description);
  }

  /** The reply to the outcome of the request: None when the request failed, `Some(None)` when
      the body is not JSON. Every failure reads the same. */
  function Reply(fetched: Option<Option<Json>>): (msg: string)
    ensures fetched.None? || fetched.value.None? ==> msg == Unavailable
  {
    match fetched
    case None => Unavailable
    case Some(None) => Unavailable
    case Some(Some(j)) =>
      var d := Extracted(j);
      if NoData(d) then Unavailable else Message(d)
  }

  /** The reply `command_openweathermap` sends for the outcome of its request. */
  method Respond(fetched: Option<Option<Json>>) returns (msg: string)
    ensures msg == Reply(fetched)
  {
    msg := Unavailable;
    if fetched.Some? {
      var parsed := ParseJson(fetched.value);
      if parsed.Ok? {
        msg := GenerateMsg(parsed.value);
      }
    }
  }

  /** `command_openweathermap`: `fetch(place, key)` is the outcome of the request for `place`
      with the API key `key`; without a configured key nothing is sent. */
  method CommandOwm(store: LocationStore, source: IrcChannel, prefix: Option<Prefix>, params: string,
                    dbOpens: bool, apikey: Option<string>, fetch: (string, string) -> Option<Option<Json>>)
    returns (effects: seq<Effect>)
    ensures apikey.None? ==> effects == []
    ensures apikey.Some? ==>
      var place := if params == "" then LocationFor(store.table, prefix, source.network, dbOpens) else params;
      effects == [Say(source, Reply(fetch(place, apikey.value)))]
  {
    var location := params;
    if params == "" {
      location := store.GetLocation(prefix, source.network, dbOpens);
    }
    if apikey.None? {
      return [];
    }
    var msg := Respond(fetch(location, apikey.value));
    effects := [Say(source, msg)];
  }

  /** The reply for a response with data is its fields joined by ", ". */
  lemma ReplyJoined(j: Json)
    requires !NoData(Extracted(j))
    requires j.description.Some? ==> j.description.value != [] && j.description.value[|j.description.value| - 1] != ' '
    ensures var d := Extracted(j);
      Reply(Some(Some(j))) == PlacePrefix(d) + Join(Separator, Parts(d) + (if d.description.Some? then [d.description.value] else []))
  {
    MessageJoined(Extracted(j));
  }

  /** A response with no field the handler reads gets the same reply as a failed request. */
  lemma EmptyResponseUnavailable(j: Json)
    requires (j.country.None? || j.city.None?) && j.temp.None? && j.windSpeed.None?
    requires j.feelsLike.None? && j.humidity.None? && j.clouds.None? && j.description.None?
    ensures Reply(Some(Some(j))) == Unavailable
  {
    NoDataIffEmpty(j);
  }
}
