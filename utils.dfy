/** The shared helpers of the dashboard (utils.js): vehicle types, the
    device-id list of the search form, event labels, colours and icons,
    and the date and time texts. The date and time parts come in as
    numbers: the local-calendar getters of `Date` are not modelled. */
module Utils {
  import opened Text
  import opened Js
  import opened Wrappers
  import opened Timestamps

  // ------------------------------------------------------------ normalizeType

  /** normalizeType(t): the vehicle type named by the start of the lowered text. */
  function NormalizeType(t: Json): (r: string)
    ensures r == "moto" || r == "trafic" || r == "camion" || r == "auto"
  {
    TypeOfText(Lower(JsString(Or(t, Str("")))))
  }

  /** The prefix tests of normalizeType, on the lowered text. */
  function TypeOfText(s: string): (r: string)
    ensures r == "moto" || r == "trafic" || r == "camion" || r == "auto"
  {
    if StartsWith(s, "mot") then "moto"
    else if StartsWith(s, "traf") then "trafic"
    else if StartsWith(s, "cam") then "camion"
    else "auto"
  }

  /** The four outcomes, each with the prefix that selects it. */
  lemma NormalizeTypeCases(t: Json)
    ensures var s := Lower(JsString(Or(t, Str(""))));
            && (NormalizeType(t) == "moto" <==> StartsWith(s, "mot"))
            && (NormalizeType(t) == "trafic" <==> !StartsWith(s, "mot") && StartsWith(s, "traf"))
            && (NormalizeType(t) == "camion" <==> !StartsWith(s, "mot") && !StartsWith(s, "traf") && StartsWith(s, "cam"))
            && (NormalizeType(t) == "auto" <==> !StartsWith(s, "mot") && !StartsWith(s, "traf") && !StartsWith(s, "cam"))
  {
  }

  lemma LowerIdempotent(s: string)
    ensures Lower(Lower(s)) == Lower(s)
  {
  }

  /** A non-empty text is shown as itself. */
  lemma TextOfText(s: string)
    requires s != ""
    ensures JsString(Or(Str(s), Str(""))) == s
  {
  }

  /** Case does not matter: a type and its lowered text normalise alike. */
  lemma NormalizeTypeIgnoresCase(s: string)
    requires s != ""
    ensures NormalizeType(Str(Lower(s))) == NormalizeType(Str(s))
  {
    TextOfText(s);
    TextOfText(Lower(s));
    LowerIdempotent(s);
  }

  /** Each type name selects itself. */
  lemma TypeNamesFixed(r: string)
    requires r == "moto" || r == "trafic" || r == "camion" || r == "auto"
    ensures TypeOfText(r) == r
  {
    if r == "moto" {
      assert r[..3] == "mot";
    } else if r == "trafic" {
      assert r[..3][0] == 't' && r[..4] == "traf";
    } else if r == "camion" {
      assert r[..3][0] == 'c' && r[..4][0] == 'c' && r[..3] == "cam";
    } else {
      assert r[..3][0] == 'a' && r[..4][0] == 'a';
    }
  }

  /** Normalising a normalised type gives it back. */
  lemma NormalizeTypeIdempotent(t: Json)
    ensures NormalizeType(Str(NormalizeType(t))) == NormalizeType(t)
  {
    TypeNameNormal(NormalizeType(t));
  }

  /** A type name, read as a type, is itself. */
  lemma TypeNameNormal(r: string)
    requires r == "moto" || r == "trafic" || r == "camion" || r == "auto"
    ensures NormalizeType(Str(r)) == r
  {
    LowerKeeps(r);
    TextOfText(r);
    TypeNamesFixed(r);
  }

  /** Lowering leaves a text without capital letters alone. */
  lemma LowerKeeps(s: string)
    requires forall i :: 0 <= i < |s| ==> !('A' <= s[i] <= 'Z')
    ensures Lower(s) == s
  {
    if s != [] {
      LowerKeeps(s[1..]);
    }
  }

  // ------------------------------------------------------------ parseDevicesInput

  function TrimAll(xs: seq<string>): (ys: seq<string>)
    ensures |ys| == |xs|
    ensures forall k :: 0 <= k < |xs| ==> ys[k] == Trim(xs[k])
  {
    if xs == [] then [] else [Trim(xs[0])] + TrimAll(xs[1..])
  }

  /** `xs.filter(Boolean)` on strings: the non-empty ones, in order. */
  function NonEmpty(xs: seq<string>): (ys: seq<string>)
    ensures |ys| <= |xs|
    ensures forall y :: y in ys <==> y in xs && y != ""
  {
    if xs == [] then []
    else if xs[0] == "" then NonEmpty(xs[1..])
    else [xs[0]] + NonEmpty(xs[1..])
  }

  /** parseDevicesInput(s): the comma-separated ids of the search form,
      trimmed, without the empty ones. */
  function ParseDevicesInput(s: string): (ids: seq<string>)
    ensures Trim(s) == "" ==> ids == []
    ensures forall k :: 0 <= k < |ids| ==> ids[k] != "" && Trimmed(ids[k]) && ',' !in ids[k]
  {
    if s == "" || Trim(s) == "" then []
    else
      var ids := NonEmpty(TrimAll(Split(s, ',')));
      PiecesClean(Split(s, ','), ids);
      ids
  }

  /** The trimmed non-empty pieces of a split are trimmed and hold no comma. */
  lemma PiecesClean(parts: seq<string>, ids: seq<string>)
    requires forall k :: 0 <= k < |parts| ==> ',' !in parts[k]
    requires ids == NonEmpty(TrimAll(parts))
    ensures forall k :: 0 <= k < |ids| ==> ids[k] != "" && Trimmed(ids[k]) && ',' !in ids[k]
  {
    var trimmed := TrimAll(parts);
    forall k | 0 <= k < |ids| ensures ids[k] != "" && Trimmed(ids[k]) && ',' !in ids[k] {
      assert ids[k] in ids;
      assert ids[k] in trimmed;
      var j :| 0 <= j < |trimmed| && trimmed[j] == ids[k];
      TrimIsTrimmed(parts[j]);
      TrimInside(parts[j], ',');
    }
  }

  lemma TrimAllTrimmed(xs: seq<string>)
    requires forall k :: 0 <= k < |xs| ==> Trimmed(xs[k])
    ensures TrimAll(xs) == xs
  {
    forall k | 0 <= k < |xs| ensures TrimAll(xs)[k] == xs[k] {
      TrimOfTrimmed(xs[k]);
    }
  }

  lemma NonEmptyKeeps(xs: seq<string>)
    requires forall k :: 0 <= k < |xs| ==> xs[k] != ""
    ensures NonEmpty(xs) == xs
  {
    if xs != [] {
      NonEmptyKeeps(xs[1..]);
    }
  }

  /** Ids that are non-empty, trimmed and free of commas come back from
      their comma-joined text. */
  lemma ParseDevicesJoin(ids: seq<string>)
    requires ids != []
    requires forall k :: 0 <= k < |ids| ==> ids[k] != "" && Trimmed(ids[k]) && ',' !in ids[k]
    ensures ParseDevicesInput(Join(ids, ',')) == ids
  {
    var s := Join(ids, ',');
    SplitJoin(ids, ',');
    TrimAllTrimmed(ids);
    NonEmptyKeeps(ids);
    JoinHoldsFirst(ids);
  }

  /** A join whose first piece is trimmed and non-empty is not blank. */
  lemma JoinHoldsFirst(ids: seq<string>)
    requires ids != [] && ids[0] != "" && Trimmed(ids[0])
    ensures Trim(Join(ids, ',')) != ""
  {
    var s := Join(ids, ',');
    assert s[0] == ids[0][0] by {
      if |ids| > 1 {
        assert s == ids[0] + [','] + Join(ids[1..], ',');
      }
    }
    TrimIsTrimmed(s);
  }

  /** Parsing is idempotent: the ids re-joined parse to themselves. */
  lemma ParseDevicesIdempotent(s: string)
    ensures var ids := ParseDevicesInput(s);
            ids != [] ==> ParseDevicesInput(Join(ids, ',')) == ids
  {
    var ids := ParseDevicesInput(s);
    if ids != [] {
      ParseDevicesJoin(ids);
    }
  }

  // ------------------------------------------------------------ events

  /** The event codes that have a label and a colour of their own. */
  predicate KnownEvent(n: Num)
  {
    n == Fin(10.0) || n == Fin(11.0) || n == Fin(20.0) || n == Fin(28.0)
    || n == Fin(29.0) || n == Fin(30.0) || n == Fin(31.0)
  }

  const DefaultColor: string := "#9ca3af"

  /** eventColor(ev), switching on `Number(ev)`. */
  function EventColor(ev: Json): (color: string)
    ensures color == DefaultColor <==> !KnownEvent(ToNumber(ev))
  {
    ColorOf(ToNumber(ev))
  }

  /** The colour of event number `n`. */
  function ColorOf(n: Num): (color: string)
    ensures color == DefaultColor <==> !KnownEvent(n)
  {
    if n == Fin(20.0) then "#ef4444"
    else if n == Fin(31.0) then "#22c55e"
    else if n == Fin(30.0) then "#b91c1c"
    else if n == Fin(29.0) then "#000000"
    else if n == Fin(28.0) then "#7e22ce"
    else if n == Fin(11.0) then "#f59e0b"
    else if n == Fin(10.0) then "#22c55e"
    else DefaultColor
  }

  /** The label of a known event, None for the others. */
  function KnownCaption(n: Num): (c: Option<string>)
    ensures c.Some? <==> KnownEvent(n)
    ensures c.Some? ==> c.value != [] && c.value[0] != 'E'
  {
    if n == Fin(20.0) then Some("Pánico")
    else if n == Fin(31.0) then Some("Motor Encendido")
    else if n == Fin(30.0) then Some("Motor Detenido")
    else if n == Fin(29.0) then Some("Sin alimentación")
    else if n == Fin(28.0) then Some("Con alimentación")
    else if n == Fin(11.0) then Some("Detenido")
    else if n == Fin(10.0) then Some("Tránsito")
    else None
  }

  /** The label of event number `n`, with `shown` the text of an unknown event. */
  function Caption(n: Num, shown: string): (caption: string)
    ensures StartsWith(caption, "Evento ") <==> !KnownEvent(n)
    ensures !KnownEvent(n) ==> caption == "Evento " + shown
  {
    match KnownCaption(n)
    case Some(c) =>
      assert c[..1] != "E";
      c
    case None =>
      var c := "Evento " + shown;
      assert c[..7] == "Evento ";
      c
  }

  /** `ev ?? '-'` inside a template literal. */
  function Shown(ev: Json): string
  {
    if Nullish(ev) then "-" else JsString(ev)
  }

  /** eventLabel(ev), switching on `Number(ev)`; an unknown event is shown
      as "Evento " and the event itself (or "-"). */
  function EventLabel(ev: Json): (caption: string)
    ensures StartsWith(caption, "Evento ") <==> !KnownEvent(ToNumber(ev))
    ensures !KnownEvent(ToNumber(ev)) ==> caption == "Evento " + Shown(ev)
  {
    Caption(ToNumber(ev), Shown(ev))
  }

  /** Different known events get different labels. */
  lemma LabelsDistinct(a: Json, b: Json)
    requires KnownEvent(ToNumber(a)) && KnownEvent(ToNumber(b))
    requires ToNumber(a) != ToNumber(b)
    ensures EventLabel(a) != EventLabel(b)
  {
    CaptionsDistinct(ToNumber(a), ToNumber(b), Shown(a), Shown(b));
  }

  lemma CaptionsDistinct(n: Num, m: Num, x: string, y: string)
    requires KnownEvent(n) && KnownEvent(m) && n != m
    ensures Caption(n, x) != Caption(m, y)
  {
  }

  /** The label falls back to the generic text exactly when the colour
      falls back to grey. */
  lemma LabelAndColorAgree(ev: Json)
    ensures StartsWith(EventLabel(ev), "Evento ") <==> EventColor(ev) == DefaultColor
  {
  }

  lemma NumberOfDigitText(n: nat)
    ensures ToNumber(Str(NatToString(n))) == ToNumber(Int(n))
  {
    NumberOfDecimal(NatToString(n), n);
  }

  lemma NumberOfDecimal(d: string, n: nat)
    requires d != [] && AllDigits(d) && DecimalValue(d) == n
    ensures ToNumber(Str(d)) == ToNumber(Int(n))
  {
    NumberOfDigits(d);
  }

  lemma TextOfInt(n: nat)
    ensures JsString(Int(n)) == NatToString(n)
  {
    assert (n as real).Floor == n;
  }

  /** An event sent as a string of digits is labelled and coloured like the number. */
  lemma DigitEventsAgree(n: nat)
    ensures EventLabel(Str(NatToString(n))) == EventLabel(Int(n))
    ensures EventColor(Str(NatToString(n))) == EventColor(Int(n))
  {
    var d := NatToString(n);
    NumberOfDigitText(n);
    TextOfInt(n);
    SameNumberSameLabel(Str(d), Int(n));
  }

  /** Two values with the same number and the same text get the same label and colour. */
  lemma SameNumberSameLabel(a: Json, b: Json)
    requires ToNumber(a) == ToNumber(b) && Shown(a) == Shown(b)
    ensures EventLabel(a) == EventLabel(b) && EventColor(a) == EventColor(b)
  {
    assert EventLabel(a) == Caption(ToNumber(a), Shown(a));
    assert EventColor(a) == ColorOf(ToNumber(a));
  }

  // ------------------------------------------------------------ icons

  /** The code `Set.has` compares against: a string is read with
      `parseInt(ev, 10)`; a number counts only when it is a whole number. */
  function EventCode(ev: Json): (code: Option<int>)
    ensures forall n: int :: ev == Int(n) ==> code == Some(n)
    ensures ev.Number? && ev.n.Fin? && ev.n.r.Floor as real != ev.n.r ==> code == None
    ensures ev.Str? ==> code == ParseInt10(ev.s)
    ensures code.Some? ==> ev.Str? || (ev.Number? && ev.n.Fin?)
  {
    match ev
    case Str(s) => ParseInt10(s)
    case Number(Fin(r)) => if r.Floor as real == r then Some(r.Floor) else None
    case _ => None
  }

  /** The icon picture of an event code; unknown codes use the stopped one. */
  function IconKind(code: Option<int>): (kind: string)
    ensures kind in {"transito", "detenido", "apagado", "panico"}
    ensures kind == "transito" <==> code == Some(10) || code == Some(31)
    ensures kind == "apagado" <==> code == Some(30)
    ensures kind == "panico" <==> code == Some(20) || code == Some(21)
  {
    match code
    case Some(c) =>
      if c == 10 || c == 31 then "transito"
      else if c == 11 then "detenido"
      else if c == 30 then "apagado"
      else if c == 20 || c == 21 then "panico"
      else "detenido"
    case None => "detenido"
  }

  function IconPath(t: string, kind: string): string
  {
    "assets/" + t + "_" + kind + ".svg"
  }

  /** Pictures whose names start differently have different paths. */
  lemma IconPathsDiffer(t: string, k1: string, k2: string)
    requires k1 != [] && k2 != [] && k1[0] != k2[0]
    ensures IconPath(t, k1) != IconPath(t, k2)
  {
    assert IconPath(t, k1)[|t| + 8] == k1[0];
    assert IconPath(t, k2)[|t| + 8] == k2[0];
  }

  /** The path of an event picture names that picture and no other. */
  lemma KindPaths(t: string, kind: string)
    requires kind in {"transito", "detenido", "apagado", "panico"}
    ensures IconPath(t, kind) != IconPath(t, "sindatos")
    ensures IconPath(t, kind) == IconPath(t, "transito") <==> kind == "transito"
    ensures IconPath(t, kind) == IconPath(t, "apagado") <==> kind == "apagado"
    ensures IconPath(t, kind) == IconPath(t, "panico") <==> kind == "panico"
    ensures IconPath(t, kind) == IconPath(t, "detenido") <==> kind == "detenido"
  {
    var names := ["sindatos", "transito", "detenido", "apagado", "panico"];
    assert "sindatos"[0] == 's' && "transito"[0] == 't' && "detenido"[0] == 'd';
    assert "apagado"[0] == 'a' && "panico"[0] == 'p';
    forall other | other in names && other != kind ensures IconPath(t, kind) != IconPath(t, other) {
      IconPathsDiffer(t, kind, other);
    }
  }

  /** iconByTypeAndEvent(type, ev): the picture of the normalised type, the
      no-data one exactly for `stale`, and otherwise the moving one exactly
      for codes 10/31, the switched-off one for 30, the panic one for 20/21
      and the stopped one for anything else. */
  function IconByTypeAndEvent(vehicle: Json, ev: Json): (path: string)
    ensures var t := NormalizeType(vehicle);
            && (path == IconPath(t, "sindatos") <==> ev == Str("stale"))
            && (ev != Str("stale") ==>
                  && (path == IconPath(t, "transito") <==> EventCode(ev) == Some(10) || EventCode(ev) == Some(31))
                  && (path == IconPath(t, "apagado") <==> EventCode(ev) == Some(30))
                  && (path == IconPath(t, "panico") <==> EventCode(ev) == Some(20) || EventCode(ev) == Some(21))
                  && (path == IconPath(t, "detenido") <==> IconKind(EventCode(ev)) == "detenido"))
  {
    var t := NormalizeType(vehicle);
    KindPaths(t, IconKind(EventCode(ev)));
    if ev == Str("stale") then IconPath(t, "sindatos")
    else IconPath(t, IconKind(EventCode(ev)))
  }

  lemma ParseIntOfDigits(n: nat)
    ensures ParseInt10(NatToString(n)) == Some(n)
  {
    var d := NatToString(n);
    DigitsAreTrimmed(d);
    DigitRunOfDigits(d);
    assert SignOf(d) == (1.0, 0) by { assert IsDigit(d[0]); }
    assert d[0..] == d;
    assert d[..|d|] == d;
  }

  /** An event code sent as text picks the same icon as the number. */
  lemma IconOfDigitText(vehicle: Json, n: nat)
    ensures IconByTypeAndEvent(vehicle, Str(NatToString(n))) == IconByTypeAndEvent(vehicle, Int(n))
  {
    EventCodeOfText(n);
    EventCodeOfInt(n);
    assert NatToString(n) != "stale" by { assert IsDigit(NatToString(n)[0]); }
  }

  lemma EventCodeOfText(n: nat)
    ensures EventCode(Str(NatToString(n))) == Some(n)
  {
    ParseIntOfDigits(n);
  }

  lemma EventCodeOfInt(n: nat)
    ensures EventCode(Int(n)) == Some(n)
  {
    assert (n as real).Floor == n;
  }

  // ------------------------------------------------------------ dates

  /** fmtDate(d): `YYYY-MM-DD` from the local year, the month counted from
      0 and the day. */
  function FmtDate(year: int, month0: nat, day: nat): (s: string)
    ensures 1000 <= year < 10000 && month0 < 99 && day < 100 ==>
              CalendarDate(s) && Slice(s, 0, 4) == year && Slice(s, 5, 7) == month0 + 1 && Slice(s, 8, 10) == day
  {
    var s := IntToString(year) + "-" + Pad2(month0 + 1) + "-" + Pad2(day);
    if 1000 <= year < 10000 && month0 < 99 && day < 100 then
      assert s == CalendarText(year, month0 + 1, day);
      s
    else s
  }

  /** fmtTime(d): `HH:MM:SS`, each part padded to two digits. */
  function FmtTime(hours: nat, minutes: nat, seconds: nat): (s: string)
    ensures hours < 100 && minutes < 100 && seconds < 100 ==>
              |s| == 8 && s[2] == ':' && s[5] == ':'
              && DigitsAt(s, 0, 2) && DigitsAt(s, 3, 5) && DigitsAt(s, 6, 8)
              && Slice(s, 0, 2) == hours && Slice(s, 3, 5) == minutes && Slice(s, 6, 8) == seconds
  {
    var s := Pad2(hours) + ":" + Pad2(minutes) + ":" + Pad2(seconds);
    if hours < 100 && minutes < 100 && seconds < 100 then
      assert s[0..2] == Pad2(hours) && s[3..5] == Pad2(minutes) && s[6..8] == Pad2(seconds);
      s
    else s
  }
}
