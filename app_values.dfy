/** Two small readers of the dashboard: the battery voltage of a reading
    (parseBattery) and the name shown for a device (getDisplayName, through
    getDeviceMeta). */
module AppValues {
  import opened Text
  import opened Js
  import opened Wrappers

  // ------------------------------------------------------------ parseBattery

  /** The characters the regular expression `[^\d.\-+eE]` keeps. */
  predicate BatteryChar(c: char)
  {
    IsDigit(c) || c == '.' || c == '-' || c == '+' || c == 'e' || c == 'E'
  }

  /** `s.replace(/[^\d.\-+eE]/g, '')` */
  function KeepBatteryChars(s: string): (r: string)
    ensures |r| <= |s|
    ensures forall i :: 0 <= i < |r| ==> BatteryChar(r[i])
  {
    if s == [] then []
    else if BatteryChar(s[0]) then [s[0]] + KeepBatteryChars(s[1..])
    else KeepBatteryChars(s[1..])
  }

  /** `s.replace(',', '.')`: only the first comma is replaced. */
  function DecimalPoint(s: string): (r: string)
    ensures |r| == |s|
    ensures ',' in s ==> ',' !in r[..IndexOf(s, ',') + 1]
    ensures ',' !in s ==> r == s
  {
    var k := IndexOf(s, ',');
    if k == |s| then
      IndexOfAbsentIff(s);
      s
    else s[..k] + "." + s[k + 1..]
  }

  lemma IndexOfAbsentIff(s: string)
    ensures IndexOf(s, ',') == |s| <==> ',' !in s
  {
    if ',' in s {
      var i :| 0 <= i < |s| && s[i] == ',';
    }
  }

  /** parseBattery: a finite number is kept; a string is trimmed, its first
      comma becomes a decimal point, every character outside digits, `.`,
      signs and `e`/`E` is dropped, and the rest is read with parseFloat;
      anything else, or a non-finite result, is null. */
  function ParseBattery(raw: Json): (v: Option<real>)
    ensures raw.Number? ==> (v.Some? <==> raw.n.Fin?)
    ensures !(raw.Number? || raw.Str?) ==> v == None
  {
    match raw
    case Number(n) => if n.Fin? then Some(n.r) else None
    case Str(s) =>
      var n := ParseFloat(KeepBatteryChars(DecimalPoint(Trim(s))));
      if n.Fin? then Some(n.r) else None
    case _ => None
  }

  lemma KeepAll(s: string)
    requires forall i :: 0 <= i < |s| ==> BatteryChar(s[i])
    ensures KeepBatteryChars(s) == s
  {
    if s != [] {
      KeepAll(s[1..]);
      assert s == [s[0]] + s[1..];
    }
  }

  lemma {:induction false} KeepConcat(a: string, b: string)
    ensures KeepBatteryChars(a + b) == KeepBatteryChars(a) + KeepBatteryChars(b)
  {
    if a == [] {
      assert a + b == b;
    } else {
      assert (a + b)[1..] == a[1..] + b;
      KeepConcat(a[1..], b);
    }
  }

  lemma ParseFloatOfDigits(d: string)
    requires d != [] && AllDigits(d)
    ensures ParseFloat(d) == Fin(DecimalValue(d) as real)
  {
    ScanDigits(d);
    ParseFloatUnsigned(d, |d|, DecimalValue(d) as real);
  }

  /** parseFloat of a text that starts with a digit reads its unsigned
      decimal prefix. */
  lemma ParseFloatUnsigned(t: string, len: nat, v: real)
    requires t != [] && IsDigit(t[0])
    requires ScanUnsignedDecimal(t) == Scan(len, v) && len > 0
    ensures ParseFloat(t) == Fin(v)
  {
    assert TrimStart(t) == t;
    assert SignOf(t) == (1.0, 0);
    assert t[0..] == t;
    assert !StartsWith(t, "Infinity") by {
      if |t| >= 8 {
        assert t[..8][0] == t[0];
      }
    }
  }

  lemma ScanDigits(d: string)
    requires d != [] && AllDigits(d)
    ensures ScanUnsignedDecimal(d) == Scan(|d|, DecimalValue(d) as real)
  {
    DigitRunOfDigits(d);
    assert d[..|d|] == d;
    var m := ScanMantissa(d);
    assert m == Scan(|d|, DecimalValue(d) as real + ScaleByPow10(0 as real, 0, true));
  }

  lemma DigitsKept(d: string)
    requires AllDigits(d)
    ensures KeepBatteryChars(d) == d
    ensures ',' !in d
  {
    KeepAll(d);
  }

  /** What parseBattery reads from a string, given its cleaned text. */
  lemma BatteryReads(s: string, clean: string)
    requires KeepBatteryChars(DecimalPoint(Trim(s))) == clean
    ensures ParseBattery(Str(s)) == if ParseFloat(clean).Fin? then Some(ParseFloat(clean).r) else None
  {
  }

  lemma CleanDigits(d: string)
    requires d != [] && AllDigits(d)
    ensures KeepBatteryChars(DecimalPoint(Trim(d))) == d
  {
    DigitsAreTrimmed(d);
    DigitsKept(d);
  }

  lemma CleanDigitsWithUnit(d: string)
    requires d != [] && AllDigits(d)
    ensures KeepBatteryChars(DecimalPoint(Trim(d + " V"))) == d
  {
    var s := d + " V";
    assert Trimmed(s) by { assert s[0] == d[0] && s[|s| - 1] == 'V'; }
    TrimOfTrimmed(s);
    DigitsKept(d);
    assert ',' !in s;
    KeepConcat(d, " V");
    assert KeepBatteryChars(" V") == [];
  }

  /** A reading sent as a string of digits is that whole number of volts. */
  lemma BatteryOfDigits(d: string)
    requires d != [] && AllDigits(d)
    ensures ParseBattery(Str(d)) == Some(DecimalValue(d) as real)
  {
    CleanDigits(d);
    BatteryReads(d, d);
    ParseFloatOfDigits(d);
  }

  /** A unit after the number is ignored: "12 V" reads as 12. */
  lemma BatteryIgnoresUnit(d: string)
    requires d != [] && AllDigits(d)
    ensures ParseBattery(Str(d + " V")) == ParseBattery(Str(d))
  {
    CleanDigits(d);
    CleanDigitsWithUnit(d);
    BatteryReads(d, d);
    BatteryReads(d + " V", d);
  }

  lemma CleanComma(a: string, b: string)
    requires a != [] && AllDigits(a) && b != [] && AllDigits(b)
    ensures KeepBatteryChars(DecimalPoint(Trim(a + "," + b))) == a + "." + b
  {
    var comma := a + "," + b;
    var point := a + "." + b;
    DigitsKept(a);
    assert Trimmed(comma) by { assert comma[0] == a[0] && comma[|comma| - 1] == b[|b| - 1]; }
    TrimOfTrimmed(comma);
    IndexOfConcat(a, b, ',');
    assert DecimalPoint(comma) == point by {
      assert comma[..|a|] == a && comma[|a| + 1..] == b;
    }
    CleanPoint(a, b);
  }

  lemma CleanPoint(a: string, b: string)
    requires a != [] && AllDigits(a) && b != [] && AllDigits(b)
    ensures KeepBatteryChars(a + "." + b) == a + "." + b
  {
    DigitsKept(a);
    DigitsKept(b);
    KeepConcat(a, "." + b);
    KeepConcat(".", b);
    assert KeepBatteryChars(".") == ".";
    assert a + ("." + b) == a + "." + b;
  }

  lemma CleanPointTrimmed(a: string, b: string)
    requires a != [] && AllDigits(a) && b != [] && AllDigits(b)
    ensures KeepBatteryChars(DecimalPoint(Trim(a + "." + b))) == a + "." + b
  {
    var point := a + "." + b;
    DigitsKept(a);
    DigitsKept(b);
    assert Trimmed(point) by { assert point[0] == a[0] && point[|point| - 1] == b[|b| - 1]; }
    TrimOfTrimmed(point);
    assert ',' !in point;
    CleanPoint(a, b);
  }

  /** A decimal comma reads like a decimal point: "a,b" and "a.b" both give
      a + b / 10^|b| volts. */
  lemma BatteryDecimalComma(a: string, b: string)
    requires a != [] && AllDigits(a) && b != [] && AllDigits(b)
    ensures ParseBattery(Str(a + "," + b)) == ParseBattery(Str(a + "." + b))
    ensures ParseBattery(Str(a + "." + b)) == Some(FracValue(a, b))
  {
    var point := a + "." + b;
    CleanComma(a, b);
    CleanPointTrimmed(a, b);
    BatteryReads(a + "," + b, point);
    BatteryReads(point, point);
    PointValue(a, b);
  }

  lemma PointValue(a: string, b: string)
    requires a != [] && AllDigits(a) && b != [] && AllDigits(b)
    ensures ParseFloat(a + "." + b) == Fin(FracValue(a, b))
  {
    var p := a + "." + b;
    var v := FracValue(a, b);
    FractionScan(a, b, p, v);
    ParseFloatUnsigned(p, |p|, v);
  }

  /** The value of the decimal text `a.b`. */
  function FracValue(a: string, b: string): real
    requires AllDigits(a) && AllDigits(b)
  {
    DecimalValue(a) as real + DecimalValue(b) as real / Pow10Real(|b|)
  }

  lemma FractionScan(a: string, b: string, p: string, v: real)
    requires a != [] && AllDigits(a) && b != [] && AllDigits(b)
    requires p == a + "." + b
    requires v == DecimalValue(a) as real + DecimalValue(b) as real / Pow10Real(|b|)
    ensures p != [] && IsDigit(p[0]) && ScanUnsignedDecimal(p) == Scan(|p|, v)
  {
    FractionShape(a, b);
  }

  // ------------------------------------------------------------ getDisplayName

  /** getDeviceMeta(id): the entry of `deviceMeta` under `String(id)`, null
      for a falsy id, a non-object `deviceMeta` or a falsy entry. */
  function DeviceMeta(id: Json, deviceMeta: Json): (m: Json)
    ensures m == Null || Truthy(m)
    ensures Truthy(m) ==> Truthy(id) && JsString(id) in OwnEntries(deviceMeta)
                          && m == OwnEntries(deviceMeta)[JsString(id)]
  {
    if !Truthy(id) then Null
    else
      var key := JsString(id);
      if Truthy(deviceMeta) && IsObjectType(deviceMeta) then
        var entries := OwnEntries(deviceMeta);
        if key in entries then Or(entries[key], Null) else Null
      else Null
  }

  /** getDisplayName(id): the device's name from its metadata when it has a
      truthy one, otherwise the id itself as a string. */
  function DisplayName(id: Json, deviceMeta: Json): (name: string)
    ensures var m := DeviceMeta(id, deviceMeta);
            name == if Truthy(m) && Truthy(Get(m, "name")) then JsString(Get(m, "name")) else JsString(id)
  {
    var m := DeviceMeta(id, deviceMeta);
    if Truthy(m) && Truthy(Get(m, "name")) then JsString(Get(m, "name")) else JsString(id)
  }

  /** After a name is saved for a device, that name is what is shown. */
  lemma NamedDeviceShowsName(id: string, fields: map<string, Json>, meta: map<string, Json>, name: string)
    requires id != "" && name != ""
    ensures DisplayName(Str(id), Obj(fields[id := Obj(meta["name" := Str(name)])])) == name
  {
  }

  /** A device without metadata shows its id. */
  lemma UnnamedDeviceShowsId(id: string, fields: map<string, Json>)
    requires id !in fields
    ensures DisplayName(Str(id), Obj(fields)) == id
  {
  }
}
