/**
 * The Airtable handler (`restaurants.js` at the repository root): the check
 * of its environment variables, the error answer that quotes the first 800
 * characters of Airtable's reply, and the `map`/`filter` pipeline that turns
 * Airtable records into restaurants, with the image extraction and the
 * defaults "Varios" and "Madrid". Building the URL, the fetch and
 * `JSON.parse` are outside the model: the upstream answer and the parser are
 * parameters of `Handle`.
 */
module Airtable {
  import opened Wrappers
  import opened Text
  import opened JsValues
  import opened Seqs

  // ---------------------------------------------------------------------------
  // Configuration

  /** The environment the handler reads; `None` for an unset variable. */
  datatype Env = Env(token: Option<string>, baseId: Option<string>, table: Option<string>, view: Option<string>)

  const DefaultView := "Grid view"

  /** `process.env.AIRTABLE_VIEW || "Grid view"`. */
  function View(env: Env): (r: string)
    ensures IsSet(env.view) ==> r == env.view.value
    ensures !IsSet(env.view) ==> r == DefaultView
    ensures r != ""
  {
    if IsSet(env.view) then env.view.value else DefaultView
  }

  /** The four settings once they are all known. */
  datatype Settings = Settings(token: string, baseId: string, table: string, view: string)

  /** Either the settings, or what the error answer reports about them. */
  datatype Config =
    | Configured(settings: Settings)
    | Missing(hasToken: bool, hasBaseId: bool, hasTable: bool, view: string)

  /** `if (!AIRTABLE_TOKEN || !AIRTABLE_BASE_ID || !AIRTABLE_TABLE)`: the check
      fails exactly when one of the three is unset or empty, and then reports
      which are present and the view in use. Otherwise every setting is
      non-empty and taken from the environment. */
  function CheckConfig(env: Env): (c: Config)
    ensures c.Missing? <==> !IsSet(env.token) || !IsSet(env.baseId) || !IsSet(env.table)
    ensures c.Missing? ==> && c.hasToken == IsSet(env.token)
                           && c.hasBaseId == IsSet(env.baseId)
                           && c.hasTable == IsSet(env.table)
                           && c.view == View(env)
    ensures c.Configured? ==> && c.settings.token == env.token.value != ""
                              && c.settings.baseId == env.baseId.value != ""
                              && c.settings.table == env.table.value != ""
                              && c.settings.view == View(env) != ""
  {
    if !IsSet(env.token) || !IsSet(env.baseId) || !IsSet(env.table) then
      Missing(IsSet(env.token), IsSet(env.baseId), IsSet(env.table), View(env))
    else
      Configured(Settings(env.token.value, env.baseId.value, env.table.value, View(env)))
  }

  /** An unset view and an empty one both mean "Grid view"; the other settings
      do not change the view. */
  lemma ViewDefaults(env: Env, view: string)
    requires env.view == None || env.view == Some("")
    ensures View(env) == DefaultView
    ensures View(env.(view := Some(view))) == (if view == "" then DefaultView else view)
  {
  }

  // ---------------------------------------------------------------------------
  // Error details

  const DetailsLimit: nat := 800

  /** `rawText.slice(0, 800)`: the first 800 characters of Airtable's reply,
      or all of it when it is shorter. */
  function Details(rawText: string): (r: string)
    ensures |r| == Min(DetailsLimit, |rawText|) <= DetailsLimit
    ensures r == rawText[..|r|]
    ensures |rawText| <= DetailsLimit ==> r == rawText
  {
    Truncate(rawText, DetailsLimit)
  }

  /** Cutting twice cuts no more than once, and a longer reply is cut to
      exactly 800 characters that it starts with. */
  lemma DetailsIdempotent(rawText: string, rest: string)
    ensures Details(Details(rawText)) == Details(rawText)
    ensures |rawText| >= DetailsLimit ==> Details(rawText + rest) == Details(rawText)
  {
    if |rawText| >= DetailsLimit {
      assert (rawText + rest)[..DetailsLimit] == rawText[..DetailsLimit];
    }
  }

  // ---------------------------------------------------------------------------
  // Records

  /** One element of `data.records`: its `id` and its `fields` object, `None`
      when that is absent or not an object (reading it then gives `{}`). */
  datatype AirRecord = AirRecord(id: Value, fields: Option<map<string, Value>>)

  /** The object `JSON.parse` returns; `records` absent or `null` as `None`. */
  datatype Data = Data(records: Option<seq<AirRecord>>)

  /** The field names the handler reads. */
  const NameField := "Nombre"
  const CuisineField := "Tipo"
  const ZoneField := "Zona"
  const DeliveryField := "Link delivery"
  const MapsField := "Link ubicación"
  const ImageField := "Imagen"
  const UrlKey := "url"

  /** `f[key]` with `f = rec.fields || {}`: `undefined` when missing. */
  function Field(rec: AirRecord, key: string): (v: Value)
    ensures rec.fields.None? ==> v == Undefined
    ensures rec.fields.Some? && key !in rec.fields.value ==> v == Undefined
    ensures rec.fields.Some? && key in rec.fields.value ==> v == rec.fields.value[key]
  {
    if rec.fields.Some? && key in rec.fields.value then rec.fields.value[key] else Undefined
  }

  /** `imgField[0]?.url` when it is truthy. */
  function FirstUrl(items: seq<Value>): (r: Option<Value>)
    ensures r.Some? ==> Truthy(r.value)
    ensures r.Some? <==> |items| > 0 && items[0].Obj? && UrlKey in items[0].fields
                         && Truthy(items[0].fields[UrlKey])
    ensures r.Some? ==> r.value == items[0].fields[UrlKey]
  {
    if |items| > 0 && items[0].Obj? && UrlKey in items[0].fields && Truthy(items[0].fields[UrlKey]) then
      Some(items[0].fields[UrlKey])
    else None
  }

  /** The image of a record: the truthy `url` of the first attachment of an
      array, the field itself when it is a string, and `""` otherwise. The
      result is a string unless it came from an attachment, and it is either
      `""` or truthy. */
  function ImageOf(img: Value): (r: Value)
    ensures img.Str? ==> r == img
    ensures img.Arr? && FirstUrl(img.items).Some? ==> r == FirstUrl(img.items).value
    ensures !img.Str? && !(img.Arr? && FirstUrl(img.items).Some?) ==> r == Str("")
    ensures r == Str("") || Truthy(r)
    ensures !r.Str? ==> img.Arr?
  {
    if img.Arr? && FirstUrl(img.items).Some? then FirstUrl(img.items).value
    else if img.Str? then img
    else Str("")
  }

  /** An attachment list gives its first url, a string gives itself, and a
      missing field gives the empty string. */
  lemma ImageOfExamples(url: string, text: string)
    requires url != "" && text != ""
    ensures ImageOf(Arr([Obj(map[UrlKey := Str(url)])])) == Str(url)
    ensures ImageOf(Str(text)) == Str(text)
    ensures ImageOf(Undefined) == Str("")
    ensures ImageOf(Arr([])) == Str("")
  {
  }

  /** One entry of the response's `restaurants` array. The identifier is the
      record's own `id`, and the image whatever value `ImageOf` picked. */
  datatype Restaurant = Restaurant(
    id: Value,
    name: string,
    cuisine: string,
    zone: string,
    deliveryUrl: string,
    mapsUrl: string,
    image: Value)

  const DefaultCuisine := "Varios"
  const DefaultZone := "Madrid"

  /** `s || fallback` on strings. */
  function OrDefault(s: string, fallback: string): (r: string)
    ensures s != "" ==> r == s
    ensures s == "" ==> r == fallback
  {
    if s != "" then s else fallback
  }

  /** The defaults are non-empty and trimmed. */
  lemma DefaultsTrimmed()
    ensures DefaultCuisine != "" && IsTrimmed(DefaultCuisine)
    ensures DefaultZone != "" && IsTrimmed(DefaultZone)
  {
  }

  /** The `map` callback: the identifier is the record's, the name is the
      normalised `Nombre` field, and cuisine and zone are never empty. */
  function MapRecord(rec: AirRecord): (r: Restaurant)
    ensures r.id == rec.id
    ensures r.name == Normalize(Field(rec, NameField))
    ensures r.cuisine != "" && IsTrimmed(r.cuisine) && r.zone != "" && IsTrimmed(r.zone)
  {
    var cuisine := OrDefault(Normalize(Field(rec, CuisineField)), DefaultCuisine);
    var zone := OrDefault(Normalize(Field(rec, ZoneField)), DefaultZone);
    DefaultsTrimmed();
    Restaurant(
      rec.id,
      Normalize(Field(rec, NameField)),
      cuisine,
      zone,
      Normalize(Field(rec, DeliveryField)),
      Normalize(Field(rec, MapsField)),
      ImageOf(Field(rec, ImageField)))
  }

  /** Every text field is the trimmed field of the record; an empty or
      missing cuisine becomes "Varios" and an empty or missing zone "Madrid";
      the image is the one `ImageOf` picks. */
  lemma MapRecordFields(rec: AirRecord)
    ensures var r := MapRecord(rec);
            && IsTrimmed(r.name)
            && (Normalize(Field(rec, CuisineField)) == "" ==> r.cuisine == DefaultCuisine)
            && (Normalize(Field(rec, CuisineField)) != "" ==> r.cuisine == Normalize(Field(rec, CuisineField)))
            && (Normalize(Field(rec, ZoneField)) == "" ==> r.zone == DefaultZone)
            && (Normalize(Field(rec, ZoneField)) != "" ==> r.zone == Normalize(Field(rec, ZoneField)))
            && r.deliveryUrl == Normalize(Field(rec, DeliveryField))
            && r.mapsUrl == Normalize(Field(rec, MapsField))
            && r.image == ImageOf(Field(rec, ImageField))
  {
  }

  /** `.filter((r) => r.name.length > 0)` on one element. */
  function KeepNamed(r: Restaurant): (o: Option<Restaurant>)
    ensures o.Some? <==> |r.name| > 0
    ensures o.Some? ==> o.value == r
  {
    if |r.name| > 0 then Some(r) else None
  }

  /** Each record after `map`, paired with whether `filter` keeps it. */
  function Candidates(records: seq<AirRecord>): (os: seq<Option<Restaurant>>)
    ensures |os| == |records|
    ensures forall i :: 0 <= i < |records| ==> os[i] == KeepNamed(MapRecord(records[i]))
  {
    seq(|records|, i requires 0 <= i < |records| => KeepNamed(MapRecord(records[i])))
  }

  /** `data.records || []`. */
  function Records(data: Data): seq<AirRecord> {
    data.records.GetOr([])
  }

  /** `records.map(...).filter(...)`. */
  function Restaurants(records: seq<AirRecord>): seq<Restaurant> {
    Somes(Candidates(records))
  }

  /** The positions in `records` of the listed restaurants. */
  function Sources(records: seq<AirRecord>): seq<nat> {
    SomeIndices(Candidates(records))
  }

  /** The k-th restaurant is the mapped record at position `Sources[k]`, whose
      identifier it keeps; positions increase, so record order is kept; a
      record is listed exactly when its name is not empty. */
  lemma RestaurantsOrigins(records: seq<AirRecord>)
    ensures |Sources(records)| == |Restaurants(records)| <= |records|
    ensures forall k :: 0 <= k < |Sources(records)| ==>
              Sources(records)[k] < |records| && Restaurants(records)[k] == MapRecord(records[Sources(records)[k]])
    ensures forall k, l :: 0 <= k < l < |Sources(records)| ==> Sources(records)[k] < Sources(records)[l]
    ensures forall j :: 0 <= j < |records| ==>
              (Normalize(Field(records[j], NameField)) != "" <==> j in Sources(records))
  {
    var os := Candidates(records);
    SomesOrigins(os);
    forall k | 0 <= k < |Sources(records)|
      ensures Restaurants(records)[k] == MapRecord(records[Sources(records)[k]])
    {
      var j := Sources(records)[k];
      assert os[j] == KeepNamed(MapRecord(records[j])) == Some(Restaurants(records)[k]);
    }
    forall j | 0 <= j < |records|
      ensures Normalize(Field(records[j], NameField)) != "" <==> j in Sources(records)
    {
      assert os[j] == KeepNamed(MapRecord(records[j]));
    }
  }

  /** Every listed restaurant has a non-empty, trimmed name, cuisine and zone. */
  lemma RestaurantsWellFormed(records: seq<AirRecord>)
    ensures forall k :: 0 <= k < |Restaurants(records)| ==>
              var r := Restaurants(records)[k];
              && r.name != "" && IsTrimmed(r.name)
              && r.cuisine != "" && IsTrimmed(r.cuisine)
              && r.zone != "" && IsTrimmed(r.zone)
  {
    RestaurantsOrigins(records);
    forall k | 0 <= k < |Restaurants(records)|
      ensures Restaurants(records)[k].name != "" && IsTrimmed(Restaurants(records)[k].name)
    {
      var j := Sources(records)[k];
      assert j in Sources(records);
      assert Restaurants(records)[k] == MapRecord(records[j]);
    }
  }

  /** A reply without `records` lists nothing. */
  lemma NoRecordsNoRestaurants(data: Data)
    requires data.records.None?
    ensures Restaurants(Records(data)) == []
  {
    assert Candidates([]) == [];
  }

  /** The number of records with a non-empty name, counted from the front. */
  function NamedCount(records: seq<AirRecord>): nat {
    if records == [] then 0
    else (if Normalize(Field(records[0], NameField)) != "" then 1 else 0) + NamedCount(records[1..])
  }

  lemma {:induction false} CandidatesCount(records: seq<AirRecord>)
    ensures CountSome(Candidates(records)) == NamedCount(records)
    decreases |records|
  {
    if records != [] {
      assert Candidates(records)[1..] == Candidates(records[1..]);
      CandidatesCount(records[1..]);
    }
  }

  /** As many restaurants are listed as there are records with a non-empty name. */
  lemma RestaurantsCount(records: seq<AirRecord>)
    ensures |Restaurants(records)| == NamedCount(records)
  {
    SomesCount(Candidates(records));
    CandidatesCount(records);
  }

  // ---------------------------------------------------------------------------
  // Responses

  /** What the fetch returned: `res.ok`, `res.status`, `res.statusText` and the body text. */
  datatype Upstream = Upstream(ok: bool, status: int, statusText: string, text: string)

  /** The handler's answers; the body of each is what `JSON.stringify` receives. */
  datatype Response =
    | ConfigMissing(hasToken: bool, hasBaseId: bool, hasTable: bool, view: string)
    | AirtableError(status: int, statusText: string, details: string)
    | ServerError(details: string)
    | Listed(restaurants: seq<Restaurant>)
  {
    function StatusCode(): int {
      if Listed? then 200 else 500
    }

    /** The `error` text of the body; a listing has none. */
    function Error(): Option<string> {
      match this
      case ConfigMissing(_, _, _, _) => Some("Faltan variables de entorno")
      case AirtableError(_, _, _) => Some("Airtable error")
      case ServerError(_) => Some("Server error")
      case Listed(_) => None
    }

    /** Only a listing may be cached. */
    function CacheControl(): Option<string> {
      if Listed? then Some("public, max-age=60") else None
    }
  }

  /** The whole handler, with the fetch's outcome and `JSON.parse` as
      parameters (`Failure` carries the text of the error it throws). */
  function Handle(env: Env, upstream: Upstream, jsonParse: string -> Result<Data, string>): (resp: Response)
    ensures CheckConfig(env).Missing? ==> resp == ConfigMissing(
              IsSet(env.token), IsSet(env.baseId), IsSet(env.table), View(env))
    ensures CheckConfig(env).Configured? && !upstream.ok ==>
              resp == AirtableError(upstream.status, upstream.statusText, Details(upstream.text))
    ensures CheckConfig(env).Configured? && upstream.ok && jsonParse(upstream.text).Failure? ==>
              resp == ServerError(jsonParse(upstream.text).error)
    ensures CheckConfig(env).Configured? && upstream.ok && jsonParse(upstream.text).Success? ==>
              resp == Listed(Restaurants(Records(jsonParse(upstream.text).value)))
    ensures resp.StatusCode() == 200 <==> resp.Listed?
    ensures resp.CacheControl().Some? <==> resp.Listed?
  {
    match CheckConfig(env)
    case Missing(hasToken, hasBaseId, hasTable, view) => ConfigMissing(hasToken, hasBaseId, hasTable, view)
    case Configured(_) =>
      if !upstream.ok then AirtableError(upstream.status, upstream.statusText, Details(upstream.text))
      else
        match jsonParse(upstream.text)
        case Failure(e) => ServerError(e)
        case Success(data) => Listed(Restaurants(Records(data)))
  }
}
