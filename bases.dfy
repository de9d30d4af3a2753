/** The bases panel (bases.js): adding a base of four corner points to the
    user metadata, deleting one by position, and which bases are drawn. The
    form inputs are parameters, the time of the change (`new Date()
    .toISOString()`) is the parameter `nowIso`, and the metadata request and
    the map layer are not modelled. */
module Bases {
  import opened Text
  import opened Js
  import opened Permissions

  const MaxBases: nat := 4

  datatype Outcome =
    | NoPermission
    | MissingName
    | MissingCoordinates
    | TooManyBases
    | OutOfRange
    | Saved(newMeta: Json, newBases: seq<Json>)

  /** The eight coordinate inputs, two per corner. */
  datatype Corners = Corners(inputs: seq<string>)
  {
    predicate Complete() { |inputs| == 8 }
  }

  /** `[Number(lat), Number(lon)]` of corner `k`. */
  function CornerPoint(c: Corners, k: nat): (p: Json)
    requires c.Complete() && k < 4
    ensures p.Arr? && |p.items| == 2
  {
    Arr([Number(StringToNumber(c.inputs[2 * k])), Number(StringToNumber(c.inputs[2 * k + 1]))])
  }

  function Points(c: Corners): (pts: seq<Json>)
    requires c.Complete()
    ensures |pts| == 4
  {
    [CornerPoint(c, 0), CornerPoint(c, 1), CornerPoint(c, 2), CornerPoint(c, 3)]
  }

  /** The check of the source: some coordinate is NaN. */
  predicate SomeNaN(c: Corners)
    requires c.Complete()
  {
    exists k :: 0 <= k < 8 && StringToNumber(c.inputs[k]) == NaN
  }

  /** The check that was meant: some coordinate is blank or not a number. */
  predicate SomeMissing(c: Corners)
    requires c.Complete()
  {
    exists k :: 0 <= k < 8 && (Trim(c.inputs[k]) == "" || StringToNumber(c.inputs[k]) == NaN)
  }

  function NewBase(name: string, c: Corners, nowIso: string): Json
    requires c.Complete()
  {
    Obj(map["name" := Str(name), "points" := Arr(Points(c)), "updatedAt" := Str(nowIso)])
  }

  /** onAddBase as written: blank coordinate inputs read as 0 and pass. */
  function AddBaseAsWritten(state: Json, nameInput: string, c: Corners, nowIso: string): (o: Outcome)
    requires c.Complete()
    ensures o.Saved? <==> CanEditUser(state) && Trim(nameInput) != "" && !SomeNaN(c)
                          && |BasesOf(BaseMeta(state))| < MaxBases
    ensures o.Saved? ==> o.newBases == BasesOf(BaseMeta(state)) + [NewBase(Trim(nameInput), c, nowIso)]
    ensures o.Saved? ==> o.newMeta == WithKey(BaseMeta(state), "bases", Arr(o.newBases))
  {
    AddBaseWith(state, nameInput, c, nowIso, SomeNaN(c))
  }

  /** onAddBase as intended: every coordinate must be filled in with a number. */
  function AddBase(state: Json, nameInput: string, c: Corners, nowIso: string): (o: Outcome)
    requires c.Complete()
    ensures o.Saved? <==> CanEditUser(state) && Trim(nameInput) != "" && !SomeMissing(c)
                          && |BasesOf(BaseMeta(state))| < MaxBases
    ensures o.Saved? ==> o.newBases == BasesOf(BaseMeta(state)) + [NewBase(Trim(nameInput), c, nowIso)]
    ensures o.Saved? ==> o.newMeta == WithKey(BaseMeta(state), "bases", Arr(o.newBases))
  {
    AddBaseWith(state, nameInput, c, nowIso, SomeMissing(c))
  }

  /** The steps of onAddBase, with `missing` the outcome of the coordinate check. */
  function AddBaseWith(state: Json, nameInput: string, c: Corners, nowIso: string, missing: bool): (o: Outcome)
    requires c.Complete()
  {
    if !CanEditUser(state) then NoPermission
    else
      var name := Trim(nameInput);
      if name == "" then MissingName
      else if missing then MissingCoordinates
      else
        var meta := BaseMeta(state);
        var bases := BasesOf(meta);
        if |bases| >= MaxBases then TooManyBases
        else
          var newBases := bases + [NewBase(name, c, nowIso)];
          Saved(WithKey(meta, "bases", Arr(newBases)), newBases)
  }

  /** onDeleteBase(idx): removes exactly the base at `idx`; an index out of
      range changes nothing. */
  function DeleteBase(state: Json, idx: int): (o: Outcome)
    ensures o.Saved? <==> CanEditUser(state) && 0 <= idx < |BasesOf(BaseMeta(state))|
    ensures o.Saved? ==> o.newMeta == WithKey(BaseMeta(state), "bases", Arr(o.newBases))
  {
    if !CanEditUser(state) then NoPermission
    else
      var meta := BaseMeta(state);
      var bases := BasesOf(meta);
      if idx < 0 || idx >= |bases| then OutOfRange
      else
        var newBases := bases[..idx] + bases[idx + 1..];
        Saved(WithKey(meta, "bases", Arr(newBases)), newBases)
  }

  // ------------------------------------------------------------ properties

  /** Deleting keeps every other base, in order. */
  lemma DeleteRemovesOne(state: Json, idx: int)
    requires DeleteBase(state, idx).Saved?
    ensures var bases := BasesOf(BaseMeta(state));
            var nb := DeleteBase(state, idx).newBases;
            && |nb| == |bases| - 1
            && (forall k :: 0 <= k < idx ==> nb[k] == bases[k])
            && (forall k :: idx <= k < |nb| ==> nb[k] == bases[k + 1])
  {
    var bases := BasesOf(BaseMeta(state));
    assert DeleteBase(state, idx).newBases == bases[..idx] + bases[idx + 1..];
    RemoveAt(bases, idx);
  }

  /** Removing position `idx` shifts the later entries down by one. */
  lemma RemoveAt<T>(s: seq<T>, idx: int)
    requires 0 <= idx < |s|
    ensures var r := s[..idx] + s[idx + 1..];
            && |r| == |s| - 1
            && (forall k :: 0 <= k < idx ==> r[k] == s[k])
            && (forall k :: idx <= k < |r| ==> r[k] == s[k + 1])
  {
  }

  /** Deleting the base just added gives the list from before. */
  lemma AddThenDelete(bases: seq<Json>, b: Json)
    ensures (bases + [b])[..|bases|] + (bases + [b])[|bases| + 1..] == bases
  {
  }

  /** A saved list never holds more than four bases when the stored one did not. */
  lemma AtMostFourBases(state: Json, nameInput: string, c: Corners, nowIso: string)
    requires c.Complete()
    requires AddBase(state, nameInput, c, nowIso).Saved?
    ensures |AddBase(state, nameInput, c, nowIso).newBases| <= MaxBases
  {
  }

  /** The saved metadata reads back as the new list, and keeps every other key. */
  lemma SavedBasesReadBack(state: Json, nameInput: string, c: Corners, nowIso: string)
    requires c.Complete()
    requires AddBase(state, nameInput, c, nowIso).Saved?
    ensures var o := AddBase(state, nameInput, c, nowIso);
            BasesOf(o.newMeta) == o.newBases
            && forall k :: k != "bases" && k in OwnEntries(BaseMeta(state)) ==>
                 k in o.newMeta.fields && o.newMeta.fields[k] == OwnEntries(BaseMeta(state))[k]
  {
    var o := AddBase(state, nameInput, c, nowIso);
    BasesReadBack(BaseMeta(state), o.newBases);
  }

  // ------------------------------------------------------------ drawing

  /** drawBaseOnMap draws a base only when its points are an array of exactly four. */
  predicate Drawable(base: Json)
  {
    Get(base, "points").Arr? && |Get(base, "points").items| == 4
  }

  /** The bases drawn by renderAllBasesOnMap, in order. */
  function DrawnBases(bases: seq<Json>): (drawn: seq<Json>)
    ensures forall b :: b in drawn <==> b in bases && Drawable(b)
    ensures |drawn| <= |bases|
  {
    if bases == [] then []
    else if Drawable(bases[0]) then [bases[0]] + DrawnBases(bases[1..])
    else DrawnBases(bases[1..])
  }

  /** The tooltip of a drawn base. */
  function BaseLabel(base: Json): (tip: string)
    ensures Truthy(Get(base, "name")) ==> tip == "🏢 " + JsString(Get(base, "name"))
    ensures !Truthy(Get(base, "name")) ==> tip == "Base"
  {
    if Truthy(Get(base, "name")) then "🏢 " + JsString(Get(base, "name")) else "Base"
  }

  /** The tooltip is `Base` exactly for a base without a name, and otherwise
      ends with the name. */
  lemma LabelNamesBase(base: Json)
    ensures BaseLabel(base) == "Base" <==> !Truthy(Get(base, "name"))
    ensures Truthy(Get(base, "name")) ==>
              var name := JsString(Get(base, "name"));
              |BaseLabel(base)| > |name| && BaseLabel(base)[|BaseLabel(base)| - |name|..] == name
  {
    if Truthy(Get(base, "name")) {
      var name := JsString(Get(base, "name"));
      var tip := BaseLabel(base);
      assert tip == "🏢 " + name;
      assert tip[0] == '🏢';
      assert tip[|tip| - |name|..] == name;
    }
  }

  /** A base made by the panel is always drawn, under its name. */
  lemma NewBaseDrawn(name: string, c: Corners, nowIso: string)
    requires c.Complete() && name != ""
    ensures Drawable(NewBase(name, c, nowIso))
    ensures BaseLabel(NewBase(name, c, nowIso)) == "🏢 " + name
  {
  }

  /** Adding a base draws exactly the bases drawn before plus the new one. */
  lemma {:induction false} DrawnAfterAdd(bases: seq<Json>, b: Json)
    requires Drawable(b)
    ensures DrawnBases(bases + [b]) == DrawnBases(bases) + [b]
  {
    if bases == [] {
      assert [] + [b] == [b];
    } else {
      var rest := bases[1..];
      DrawnAfterAdd(rest, b);
      ConsSnoc(bases, b);
      DrawnCons(bases);
      DrawnCons(bases + [b]);
      var head := if Drawable(bases[0]) then [bases[0]] else [];
      Assoc(head, DrawnBases(rest), [b]);
    }
  }

  /** One step of the filter: the first base, if drawn, then the rest. */
  lemma DrawnCons(bases: seq<Json>)
    requires bases != []
    ensures DrawnBases(bases) == (if Drawable(bases[0]) then [bases[0]] else []) + DrawnBases(bases[1..])
  {
  }

  lemma ConsSnoc<T>(s: seq<T>, x: T)
    requires s != []
    ensures (s + [x])[0] == s[0] && (s + [x])[1..] == s[1..] + [x]
  {
  }

  lemma Assoc<T>(a: seq<T>, b: seq<T>, c: seq<T>)
    ensures a + (b + c) == (a + b) + c
  {
  }

  // ------------------------------------------------------------ the finding

  /** Leaving every coordinate blank: the written check accepts it and saves
      four corners at (0, 0); the intended check refuses it. */
  lemma BlankCornersAccepted(state: Json, nowIso: string)
    requires CanEditUser(state) && |BasesOf(BaseMeta(state))| < MaxBases
    ensures var blank := Corners(seq(8, k => ""));
            && AddBaseAsWritten(state, "Depósito", blank, nowIso).Saved?
            && AddBase(state, "Depósito", blank, nowIso) == MissingCoordinates
            && Points(blank)[0] == Arr([Int(0), Int(0)])
  {
    var blank := Corners(seq(8, k => ""));
    BlankCorners();
    NameKept();
    assert AddBaseAsWritten(state, "Depósito", blank, nowIso) == AddBaseWith(state, "Depósito", blank, nowIso, false);
    assert AddBase(state, "Depósito", blank, nowIso) == AddBaseWith(state, "Depósito", blank, nowIso, true);
  }

  lemma NameKept()
    ensures Trim("Depósito") == "Depósito"
  {
    assert Trimmed("Depósito");
    TrimOfTrimmed("Depósito");
  }

  /** Eight blank inputs: none reads as NaN, all of them are blank, and the
      first corner is (0, 0). */
  lemma BlankCorners()
    ensures var blank := Corners(seq(8, k => ""));
            && !SomeNaN(blank) && SomeMissing(blank) && Points(blank)[0] == Arr([Int(0), Int(0)])
  {
    var blank := Corners(seq(8, k => ""));
    assert StringToNumber("") == Fin(0.0);
    assert forall k :: 0 <= k < 8 ==> blank.inputs[k] == "";
    assert Trim(blank.inputs[0]) == "";
  }

  /** What the intended check adds: a saved base has no blank coordinate. */
  lemma SavedCornersFilled(state: Json, nameInput: string, c: Corners, nowIso: string)
    requires c.Complete()
    requires AddBase(state, nameInput, c, nowIso).Saved?
    ensures forall k :: 0 <= k < 8 ==> Trim(c.inputs[k]) != "" && StringToNumber(c.inputs[k]) != NaN
  {
  }
}
