/** Normalisation of raw device readings into the dashboard's two shapes:
    the latest reading of a device (raw fields kept, aliases resolved into
    `la`, `lo`, `v`, `ev`, `sg`, `Bt`) and a history item (numeric speed and
    event, explicit coordinates and a Date). */
module Readings {
  import opened Wrappers
  import opened Text
  import opened Js
  import opened Timestamps

  /** A position, or none: latitude and longitude are null together. */
  datatype Position = Pos(lat: Num, lon: Num) | NoPosition
  {
    function LatJson(): Json { if Pos? then Number(lat) else Null }
    function LonJson(): Json { if Pos? then Number(lon) else Null }
  }

  /** A GeoJSON `coordinates` array with at least two entries. */
  predicate HasGeoJson(location: Json)
  {
    var arr := Get(location, "coordinates");
    arr.Arr? && |arr.items| >= 2
  }

  /** coordsToLatLon: GeoJSON `coordinates` ([lon, lat]) when present with
      at least two entries, else the scalar `la`/`lo` when both are finite.
      Only the scalar path checks finiteness: a GeoJSON pair always gives a
      position, even one whose entries convert to NaN. */
  function CoordsToLatLon(location: Json, data: Json): (p: Position)
    ensures HasGeoJson(location) ==>
              p.Pos? && p.lat == ToNumber(Get(location, "coordinates").items[1])
                     && p.lon == ToNumber(Get(location, "coordinates").items[0])
    ensures p == NoPosition <==>
              !HasGeoJson(location) && !(ToNumber(Get(data, "la")).IsFinite() && ToNumber(Get(data, "lo")).IsFinite())
    ensures !HasGeoJson(location) && p.Pos? ==>
              p.lat.IsFinite() && p.lon.IsFinite()
              && p.lat == ToNumber(Get(data, "la")) && p.lon == ToNumber(Get(data, "lo"))
  {
    var arr := Get(location, "coordinates");
    if arr.Arr? && |arr.items| >= 2 then Pos(ToNumber(arr.items[1]), ToNumber(arr.items[0]))
    else
      var la := ToNumber(Get(data, "la"));
      var lo := ToNumber(Get(data, "lo"));
      if la.IsFinite() && lo.IsFinite() then Pos(la, lo) else NoPosition
  }

  /** fallbackEventFromSpeed: 10 (moving) when the speed is a positive
      number, else 11 (stopped); a speed that is not a finite number counts
      as 0. */
  function FallbackEventFromSpeed(v: Json): (ev: int)
    ensures ev == 10 || ev == 11
    ensures ev == 10 <==> ToNumber(v).Fin? && ToNumber(v).r > 0.0
  {
    var n := ToNumber(v);
    var speed := if n.IsFinite() then n.r else 0.0;
    if speed > 0.0 then 10 else 11
  }

  /** `a ?? b ?? c ?? dflt` over three field names of `d`. */
  function FirstOf3(d: Json, k1: string, k2: string, k3: string, dflt: Json): (r: Json)
    ensures !Nullish(Get(d, k1)) ==> r == Get(d, k1)
    ensures Nullish(Get(d, k1)) && !Nullish(Get(d, k2)) ==> r == Get(d, k2)
    ensures Nullish(Get(d, k1)) && Nullish(Get(d, k2)) && !Nullish(Get(d, k3)) ==> r == Get(d, k3)
    ensures Nullish(Get(d, k1)) && Nullish(Get(d, k2)) && Nullish(Get(d, k3)) ==> r == dflt
  {
    Coalesce(Get(d, k1), Coalesce(Get(d, k2), Coalesce(Get(d, k3), dflt)))
  }

  /** `raw?.data || {}` */
  function DataOf(raw: Json): Json
  {
    Or(Get(raw, "data"), Obj(map[]))
  }

  function TimeFieldsOf(raw: Json): TimeFields
  {
    TimeFields(Get(raw, "dateTime"), Get(raw, "date"), Get(raw, "time"), DataOf(raw))
  }

  /** The six fields a latest reading's `data` gets, over the raw ones. */
  const Resolved: set<string> := {"la", "lo", "v", "ev", "sg", "Bt"}

  datatype LastReading = LastReading(deviceId: Json, timestamp: Time, data: map<string, Json>, raw: Json)

  /** Why a reading cannot be normalised: `toISOString` on an invalid date. */
  datatype Failure = InvalidTime

  /** normalizeLastReading. The `data` object is the raw data spread, with
      `la`/`lo` replaced by the resolved position, `v` the raw speed (0 when
      absent), `ev` the first of `ev`, `e` and the speed-derived event, `sg`
      the first of `sg`, `q`, `signal` (else null) and `Bt` the first of `Bt`,
      `b`, `bt` (else null). */
  function NormalizeLastReading(raw: Json, parseIso: string -> Time, now: int): (r: Result<LastReading, Failure>)
    ensures r.Err? <==> ParseValleTimestamp(TimeFieldsOf(raw), parseIso, now) == Invalid
    ensures r.Ok? ==>
      var d := DataOf(raw);
      var out := r.value.data;
      && r.value.deviceId == Coalesce(Get(raw, "deviceId"), Get(raw, "id"))
      && r.value.timestamp == ParseValleTimestamp(TimeFieldsOf(raw), parseIso, now)
      && r.value.raw == raw
      && out.Keys == OwnEntries(d).Keys + Resolved
      && (forall k :: k in OwnEntries(d) && k !in Resolved ==> out[k] == OwnEntries(d)[k])
      && out["v"] == Coalesce(Get(d, "v"), Int(0))
      && out["sg"] == FirstOf3(d, "sg", "q", "signal", Null)
      && out["Bt"] == FirstOf3(d, "Bt", "b", "bt", Null)
  {
    var d := DataOf(raw);
    var ts := ParseValleTimestamp(TimeFieldsOf(raw), parseIso, now);
    if ts == Invalid then Err(InvalidTime)
    else
      var p := CoordsToLatLon(Get(raw, "location"), d);
      var v := Coalesce(Get(d, "v"), Int(0));
      var ev := Coalesce(Get(d, "ev"), Coalesce(Get(d, "e"), Int(FallbackEventFromSpeed(v))));
      var sg := FirstOf3(d, "sg", "q", "signal", Null);
      var bt := FirstOf3(d, "Bt", "b", "bt", Null);
      ResolvedMap(OwnEntries(d), p.LatJson(), p.LonJson(), v, ev, sg, bt);
      Ok(LastReading(
        Coalesce(Get(raw, "deviceId"), Get(raw, "id")),
        ts,
        OwnEntries(d)["la" := p.LatJson()]["lo" := p.LonJson()]["v" := v]["ev" := ev]["sg" := sg]["Bt" := bt],
        raw))
  }

  datatype HistoryItem = HistoryItem(
    deviceId: Json, pos: Position, v: Num, ev: Num, sg: Json, bt: Json, ts: Time, raw: Json)

  /** normalizeHistoryItem: like the latest reading, but speed and event are
      numbers (`Number(x) || 0`), the signal defaults to the empty string and
      the battery to undefined. */
  function NormalizeHistoryItem(it: Json, parseIso: string -> Time, now: int): (h: HistoryItem)
    ensures h.deviceId == Coalesce(Get(it, "deviceId"), Get(it, "id"))
    ensures h.v != NaN && h.ev != NaN
    ensures h.ts == ParseValleTimestamp(TimeFieldsOf(it), parseIso, now)
    ensures h.pos == CoordsToLatLon(Get(it, "location"), DataOf(it))
    ensures h.sg == FirstOf3(DataOf(it), "sg", "q", "signal", Str(""))
    ensures h.bt == FirstOf3(DataOf(it), "Bt", "b", "bt", Undefined)
    ensures h.raw == it
  {
    var d := DataOf(it);
    var v := ToNumberOrZero(Coalesce(Get(d, "v"), Int(0)));
    var ev := ToNumberOrZero(Coalesce(Get(d, "ev"), Coalesce(Get(d, "e"), Int(FallbackEventFromSpeed(Number(v))))));
    HistoryItem(
      Coalesce(Get(it, "deviceId"), Get(it, "id")),
      CoordsToLatLon(Get(it, "location"), d),
      v, ev,
      FirstOf3(d, "sg", "q", "signal", Str("")),
      FirstOf3(d, "Bt", "b", "bt", Undefined),
      ParseValleTimestamp(TimeFieldsOf(it), parseIso, now),
      it)
  }

  /** What the bulk endpoint answered: a JSON value, or a failed request. */
  datatype Reply = Threw | Returned(body: Json)

  datatype BulkOutcome = NoRequest | Failed | Readings(items: seq<LastReading>)

  /** Some entry of the answer cannot be normalised. */
  predicate SomeInvalid(items: seq<Json>, parseIso: string -> Time, now: int)
  {
    exists i :: 0 <= i < |items| && NormalizeLastReading(items[i], parseIso, now).Err?
  }

  /** apiLastReadingsBulk: no ids means no request and no readings; a falsy
      answer means no readings; an array answer is normalised element by
      element, and one element whose time is an invalid date rejects the
      whole call; anything else fails too (`.map` is not a function). */
  function LastReadingsBulk(ids: seq<string>, reply: Reply, parseIso: string -> Time, now: int): (out: BulkOutcome)
    ensures ids == [] <==> out == NoRequest
    ensures out == Failed <==>
              ids != [] &&
              (reply.Threw?
               || (Truthy(reply.body) && !reply.body.Arr?)
               || (reply.body.Arr? && SomeInvalid(reply.body.items, parseIso, now)))
    ensures ids != [] && reply.Returned? && !Truthy(reply.body) ==> out == Readings([])
    ensures out.Readings? ==> reply.Returned? && (reply.body.Arr? || !Truthy(reply.body))
    ensures out.Readings? && reply.body.Arr? ==>
      |out.items| == |reply.body.items|
      && forall i :: 0 <= i < |out.items| ==> NormalizeLastReading(reply.body.items[i], parseIso, now) == Ok(out.items[i])
  {
    if ids == [] then NoRequest
    else match reply
      case Threw => Failed
      case Returned(body) =>
        if !Truthy(body) then Readings([])
        else if !body.Arr? || SomeInvalid(body.items, parseIso, now) then Failed
        else
          Readings(seq(|body.items|, i requires 0 <= i < |body.items| => NormalizeLastReading(body.items[i], parseIso, now).value))
  }

  // ------------------------------------------------------------ properties

  /** A latest reading carries either both coordinates as numbers or both as
      null, and its event code is the first present of `ev`, `e` and the
      speed-derived code. */
  lemma LastReadingFields(raw: Json, parseIso: string -> Time, now: int)
    requires NormalizeLastReading(raw, parseIso, now).Ok?
    ensures var out := NormalizeLastReading(raw, parseIso, now).value.data;
            var d := DataOf(raw);
            && ((out["la"].Number? && out["lo"].Number?) || (out["la"] == Null && out["lo"] == Null))
            && (!Nullish(Get(d, "ev")) ==> out["ev"] == Get(d, "ev"))
            && (Nullish(Get(d, "ev")) && !Nullish(Get(d, "e")) ==> out["ev"] == Get(d, "e"))
            && (Nullish(Get(d, "ev")) && Nullish(Get(d, "e")) ==>
                  out["ev"] == Int(FallbackEventFromSpeed(Coalesce(Get(d, "v"), Int(0)))))
  {
    var d := DataOf(raw);
    var p := CoordsToLatLon(Get(raw, "location"), d);
    var v := Coalesce(Get(d, "v"), Int(0));
    LastReadingData(raw, parseIso, now);
    ResolvedIndex(OwnEntries(d), p.LatJson(), p.LonJson(), v,
                  Coalesce(Get(d, "ev"), Coalesce(Get(d, "e"), Int(FallbackEventFromSpeed(v)))),
                  FirstOf3(d, "sg", "q", "signal", Null), FirstOf3(d, "Bt", "b", "bt", Null));
  }

  /** GeoJSON coordinates win over `la`/`lo`, swapped into (lat, lon). */
  lemma GeoJsonWins(lon: Json, lat: Json, rest: seq<Json>, data: Json)
    ensures CoordsToLatLon(Obj(map["coordinates" := Arr([lon, lat] + rest)]), data)
         == Pos(ToNumber(lat), ToNumber(lon))
  {
  }

  /** Only time encodings that go through ISO parsing can fail. */
  lemma OnlyIsoFails(raw: Json, parseIso: string -> Time, now: int)
    requires SourceOf(TimeFieldsOf(raw)) != Iso
    ensures NormalizeLastReading(raw, parseIso, now).Ok?
  {
  }

  /** A history item's event: the given code as a number, or the
      speed-derived 10/11 when neither `ev` nor `e` is present. */
  lemma HistoryEvent(it: Json, parseIso: string -> Time, now: int)
    ensures var d := DataOf(it);
            var h := NormalizeHistoryItem(it, parseIso, now);
            && (Nullish(Get(d, "ev")) && Nullish(Get(d, "e")) ==>
                  (h.ev == Fin(10.0) <==> h.v.Fin? && h.v.r > 0.0) && (h.ev == Fin(10.0) || h.ev == Fin(11.0)))
            && (!Nullish(Get(d, "ev")) ==> h.ev == ToNumberOrZero(Get(d, "ev")))
            && h.v == ToNumberOrZero(Coalesce(Get(d, "v"), Int(0)))
  {
  }

  // ------------------------------------------------------------ the documented example

  /** A record of the documented shape `{deviceId, dateTime, data: {la, lo, v}}`
      with string values. */
  function Record(id: string, dateTime: string, la: string, lo: string, v: string): Json
  {
    Obj(map["deviceId" := Str(id), "dateTime" := Str(dateTime),
            "data" := Obj(map["la" := Str(la), "lo" := Str(lo), "v" := Str(v)])])
  }

  /** How a reading whose data has string `la`, `lo` and `v` and no event,
      signal or battery field normalises, given the time it decodes to and
      the numbers those strings convert to. */
  lemma RecordNormalizes(raw: Json, id: string, la: string, lo: string, v: string,
                         lat: real, lon: real, speed: real, parseIso: string -> Time, now: int)
    requires RecordShape(raw, id, la, lo, v)
    requires NormalizeLastReading(raw, parseIso, now).Ok?
    requires StringToNumber(la) == Fin(lat) && StringToNumber(lo) == Fin(lon) && StringToNumber(v) == Fin(speed)
    ensures var r := NormalizeLastReading(raw, parseIso, now);
            && r.value.deviceId == Str(id)
            && r.value.data["la"] == Number(Fin(lat))
            && r.value.data["lo"] == Number(Fin(lon))
            && r.value.data["v"] == Str(v)
            && r.value.data["ev"] == Int(if speed > 0.0 then 10 else 11)
            && r.value.data["sg"] == Null && r.value.data["Bt"] == Null
  {
    LastReadingData(raw, parseIso, now);
    ShapePosition(raw, id, la, lo, v, lat, lon);
    ShapeEvent(raw, id, la, lo, v, speed);
    var d := DataOf(raw);
    ResolvedIndex(OwnEntries(d), Number(Fin(lat)), Number(Fin(lon)), Str(v),
                  Int(if speed > 0.0 then 10 else 11), Null, Null);
  }

  /** The `data` of a normalised latest reading, field by field. */
  lemma LastReadingData(raw: Json, parseIso: string -> Time, now: int)
    requires NormalizeLastReading(raw, parseIso, now).Ok?
    ensures var d := DataOf(raw);
            var p := CoordsToLatLon(Get(raw, "location"), d);
            var v := Coalesce(Get(d, "v"), Int(0));
            var r := NormalizeLastReading(raw, parseIso, now);
            && r.value.deviceId == Coalesce(Get(raw, "deviceId"), Get(raw, "id"))
            && r.value.data == OwnEntries(d)["la" := p.LatJson()]["lo" := p.LonJson()]["v" := v]
                 ["ev" := Coalesce(Get(d, "ev"), Coalesce(Get(d, "e"), Int(FallbackEventFromSpeed(v))))]
                 ["sg" := FirstOf3(d, "sg", "q", "signal", Null)]["Bt" := FirstOf3(d, "Bt", "b", "bt", Null)]
  {
    assert ParseValleTimestamp(TimeFieldsOf(raw), parseIso, now) != Invalid;
  }

  /** The raw entries with the six resolved fields written over them. */
  lemma ResolvedMap(base: map<string, Json>, la: Json, lo: Json, v: Json, ev: Json, sg: Json, bt: Json)
    ensures var m := base["la" := la]["lo" := lo]["v" := v]["ev" := ev]["sg" := sg]["Bt" := bt];
            && m.Keys == base.Keys + Resolved
            && (forall k :: k in base && k !in Resolved ==> m[k] == base[k])
            && m["v"] == v && m["sg"] == sg && m["Bt"] == bt
  {
  }

  lemma ResolvedIndex(base: map<string, Json>, la: Json, lo: Json, v: Json, ev: Json, sg: Json, bt: Json)
    ensures var m := base["la" := la]["lo" := lo]["v" := v]["ev" := ev]["sg" := sg]["Bt" := bt];
            m["la"] == la && m["lo"] == lo && m["v"] == v && m["ev"] == ev && m["sg"] == sg && m["Bt"] == bt
  {
  }

  lemma RecordHistory(raw: Json, id: string, la: string, lo: string, v: string,
                      lat: real, lon: real, speed: real, parseIso: string -> Time, now: int)
    requires RecordShape(raw, id, la, lo, v)
    requires StringToNumber(la) == Fin(lat) && StringToNumber(lo) == Fin(lon) && StringToNumber(v) == Fin(speed)
    ensures var h := NormalizeHistoryItem(raw, parseIso, now);
            && h.pos == Pos(Fin(lat), Fin(lon))
            && h.v == Fin(speed)
            && h.ev == Fin(if speed > 0.0 then 10.0 else 11.0)
            && h.sg == Str("")
  {
    ShapePosition(raw, id, la, lo, v, lat, lon);
    RecordHistorySpeed(raw, id, la, lo, v, speed, parseIso, now);
    RecordHistoryEvent(raw, id, la, lo, v, speed, parseIso, now);
  }

  lemma RecordHistorySpeed(raw: Json, id: string, la: string, lo: string, v: string,
                           speed: real, parseIso: string -> Time, now: int)
    requires RecordShape(raw, id, la, lo, v)
    requires StringToNumber(v) == Fin(speed)
    ensures NormalizeHistoryItem(raw, parseIso, now).v == Fin(speed)
  {
    assert Get(DataOf(raw), "v") == Str(v);
    HistorySpeed(raw, parseIso, now);
  }

  lemma RecordHistoryEvent(raw: Json, id: string, la: string, lo: string, v: string,
                           speed: real, parseIso: string -> Time, now: int)
    requires RecordShape(raw, id, la, lo, v)
    requires NormalizeHistoryItem(raw, parseIso, now).v == Fin(speed)
    ensures NormalizeHistoryItem(raw, parseIso, now).ev == Fin(if speed > 0.0 then 10.0 else 11.0)
  {
    HistoryEventCode(raw, parseIso, now);
    var d := DataOf(raw);
    assert Get(d, "ev") == Undefined && Get(d, "e") == Undefined;
    assert FallbackEventFromSpeed(Number(Fin(speed))) == if speed > 0.0 then 10 else 11;
  }

  /** A history item's speed: `Number(v)` when that is truthy (non-zero and
      not NaN), else 0; a missing speed is 0. */
  lemma HistorySpeed(it: Json, parseIso: string -> Time, now: int)
    ensures var d := DataOf(it);
            var n := ToNumber(Coalesce(Get(d, "v"), Int(0)));
            var h := NormalizeHistoryItem(it, parseIso, now);
            && (n.Truthy() ==> h.v == n)
            && (!n.Truthy() ==> h.v == Fin(0.0))
            && (Nullish(Get(d, "v")) ==> h.v == Fin(0.0))
  {
  }

  /** A history item's event: the first present of `ev` and `e` as a number
      (0 when not truthy), else the 10/11 derived from the coerced speed. */
  lemma HistoryEventCode(it: Json, parseIso: string -> Time, now: int)
    ensures var d := DataOf(it);
            var h := NormalizeHistoryItem(it, parseIso, now);
            && (!Nullish(Get(d, "ev")) ==>
                  h.ev == (if ToNumber(Get(d, "ev")).Truthy() then ToNumber(Get(d, "ev")) else Fin(0.0)))
            && (Nullish(Get(d, "ev")) && !Nullish(Get(d, "e")) ==>
                  h.ev == (if ToNumber(Get(d, "e")).Truthy() then ToNumber(Get(d, "e")) else Fin(0.0)))
            && (Nullish(Get(d, "ev")) && Nullish(Get(d, "e")) ==>
                  h.ev == Fin(FallbackEventFromSpeed(Number(h.v)) as real))
  {
  }

  lemma ShapePosition(raw: Json, id: string, la: string, lo: string, v: string, lat: real, lon: real)
    requires RecordShape(raw, id, la, lo, v)
    requires StringToNumber(la) == Fin(lat) && StringToNumber(lo) == Fin(lon)
    ensures CoordsToLatLon(Get(raw, "location"), DataOf(raw)) == Pos(Fin(lat), Fin(lon))
  {
  }

  lemma ShapeEvent(raw: Json, id: string, la: string, lo: string, v: string, speed: real)
    requires RecordShape(raw, id, la, lo, v)
    requires StringToNumber(v) == Fin(speed)
    ensures FallbackEventFromSpeed(Coalesce(Get(DataOf(raw), "v"), Int(0))) == if speed > 0.0 then 10 else 11
  {
  }

  predicate RecordShape(raw: Json, id: string, la: string, lo: string, v: string)
  {
    var d := DataOf(raw);
    && Get(raw, "location") == Undefined
    && Get(raw, "deviceId") == Str(id)
    && Get(d, "la") == Str(la) && Get(d, "lo") == Str(lo) && Get(d, "v") == Str(v)
    && Get(d, "ev") == Undefined && Get(d, "e") == Undefined
    && Get(d, "sg") == Undefined && Get(d, "q") == Undefined && Get(d, "signal") == Undefined
    && Get(d, "Bt") == Undefined && Get(d, "b") == Undefined && Get(d, "bt") == Undefined
  }

  lemma RecordFields(id: string, dateTime: string, la: string, lo: string, v: string)
    ensures RecordShape(Record(id, dateTime, la, lo, v), id, la, lo, v)
  {
  }

  lemma ExampleNumbers()
    ensures StringToNumber("-26.8") == Fin(-26.8)
    ensures StringToNumber("-65.2") == Fin(-65.2)
    ensures StringToNumber("40") == Fin(40.0)
  {
    ExampleLatitude();
    ExampleLongitude();
    ExampleSpeed();
  }

  lemma ExampleLatitude()
    ensures StringToNumber("-26.8") == Fin(-26.8)
  {
    ExampleLatitudeScan();
    NumberOfNegative("26.8", 26.8);
    assert "-26.8" == "-" + "26.8";
  }

  lemma ExampleLatitudeScan()
    ensures ScanUnsignedDecimal("26.8") == Scan(4, 26.8)
  {
    OneDecimal("26", "8", 26, 8);
    assert "26" + "." + "8" == "26.8";
    assert 26.0 + 8.0 / 10.0 == 26.8;
  }

  /** A decimal text with one digit after the point. */
  lemma OneDecimal(a: string, b: string, va: nat, vb: nat)
    requires a != [] && AllDigits(a) && DecimalValue(a) == va
    requires |b| == 1 && AllDigits(b) && DecimalValue(b) == vb
    ensures ScanUnsignedDecimal(a + "." + b) == Scan(|a| + 2, va as real + vb as real / 10.0)
  {
    FractionShape(a, b);
    TenToTheOne();
    DivideByTen(vb as real, Pow10Real(|b|));
  }

  lemma DivideByTen(n: real, p: real)
    requires p == 10.0
    ensures n / p == n / 10.0
  {
  }

  lemma TenToTheOne()
    ensures Pow10Real(1) == 10.0
  {
    assert Pow10(1) == 10 * Pow10(0);
  }

  lemma ExampleLongitude()
    ensures StringToNumber("-65.2") == Fin(-65.2)
  {
    ExampleLongitudeScan();
    NumberOfNegative("65.2", 65.2);
    assert "-65.2" == "-" + "65.2";
  }

  lemma ExampleLongitudeScan()
    ensures ScanUnsignedDecimal("65.2") == Scan(4, 65.2)
  {
    OneDecimal("65", "2", 65, 2);
    assert "65" + "." + "2" == "65.2";
    assert 65.0 + 2.0 / 10.0 == 65.2;
  }

  lemma ExampleSpeed()
    ensures StringToNumber("40") == Fin(40.0)
  {
    NumberOfDigits("40");
    assert DecimalValue("40") == 40;
  }

  /** The documented example: device "7" at 2025-10-17 21:08:52 UTC,
      position (-26.8, -65.2), the raw speed "40" and the moving event 10;
      as a history item, the numeric speed 40. */
  lemma ExampleReading(parseIso: string -> Time, now: int)
    ensures var r := NormalizeLastReading(Record("7", "251017T210852Z", "-26.8", "-65.2", "40"), parseIso, now);
            && r.Ok?
            && r.value.deviceId == Str("7")
            && r.value.timestamp == At(1760735332000)
            && r.value.data["la"] == Number(Fin(-26.8))
            && r.value.data["lo"] == Number(Fin(-65.2))
            && r.value.data["v"] == Str("40")
            && r.value.data["ev"] == Int(10)
            && r.value.data["sg"] == Null
    ensures var h := NormalizeHistoryItem(Record("7", "251017T210852Z", "-26.8", "-65.2", "40"), parseIso, now);
            h.v == Fin(40.0) && h.ev == Fin(10.0) && h.pos == Pos(Fin(-26.8), Fin(-65.2))
  {
    ExampleTimestamp(parseIso, now);
    ExampleNumbers();
    var raw := Record("7", "251017T210852Z", "-26.8", "-65.2", "40");
    RecordFields("7", "251017T210852Z", "-26.8", "-65.2", "40");
    RecordNormalizes(raw, "7", "-26.8", "-65.2", "40", -26.8, -65.2, 40.0, parseIso, now);
    RecordHistory(raw, "7", "-26.8", "-65.2", "40", -26.8, -65.2, 40.0, parseIso, now);
  }

  lemma ExampleTimestamp(parseIso: string -> Time, now: int)
    ensures ParseValleTimestamp(TimeFieldsOf(Record("7", "251017T210852Z", "-26.8", "-65.2", "40")), parseIso, now)
         == At(1760735332000)
  {
    var f := TimeFieldsOf(Record("7", "251017T210852Z", "-26.8", "-65.2", "40"));
    assert f.dateTime == Str("251017T210852Z") && f.date == Undefined && f.time == Undefined;
    ExampleText();
    CompactDecodes(25, 10, 17, 21, 8, 52, Undefined, Undefined, f.data, parseIso, now);
    ExampleMoment();
  }
}
