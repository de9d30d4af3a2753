/** The vehicle editor (editor.js): saving the form of one device into the
    user metadata, and loading a device's metadata into the form. The time
    of the change is the parameter `nowIso`; the metadata request, the
    tooltips and the panels are not modelled. */
module Editor {
  import opened Text
  import opened Js
  import opened Permissions

  const DefaultColorHex: string := "#000000"

  /** The values of the editor's inputs. */
  datatype Form = Form(name: string, plate: string, brand: string, model: string, color: string, colorHex: string)

  datatype Outcome =
    | NoPermission
    | NoDevice
    | Saved(newMetadata: Json, newDevicesMeta: map<string, Json>)

  /** The `updated` object: the five texts trimmed, the colour code
      defaulting to black, and the time of the change. */
  function Updated(form: Form, nowIso: string): (u: map<string, Json>)
    ensures u.Keys == {"name", "plate", "brand", "model", "color", "colorHex", "updatedAt"}
    ensures u["colorHex"] == Str(if form.colorHex == "" then DefaultColorHex else form.colorHex)
    ensures u["updatedAt"] == Str(nowIso)
    ensures u["name"] == Str(Trim(form.name)) && u["plate"] == Str(Trim(form.plate))
            && u["brand"] == Str(Trim(form.brand)) && u["model"] == Str(Trim(form.model))
            && u["color"] == Str(Trim(form.color))
  {
    FieldsOf(Str(Trim(form.name)), Str(Trim(form.plate)), Str(Trim(form.brand)), Str(Trim(form.model)),
             Str(Trim(form.color)), Str(if form.colorHex == "" then DefaultColorHex else form.colorHex), Str(nowIso));
    map["name" := Str(Trim(form.name)), "plate" := Str(Trim(form.plate)), "brand" := Str(Trim(form.brand)),
        "model" := Str(Trim(form.model)), "color" := Str(Trim(form.color)),
        "colorHex" := Str(if form.colorHex == "" then DefaultColorHex else form.colorHex),
        "updatedAt" := Str(nowIso)]
  }

  /** Each field of the `updated` object holds the value written under it. */
  lemma FieldsOf<V>(name: V, plate: V, brand: V, model: V, color: V, colorHex: V, updatedAt: V)
    ensures var m := map["name" := name, "plate" := plate, "brand" := brand, "model" := model, "color" := color,
                         "colorHex" := colorHex, "updatedAt" := updatedAt];
            && m["name"] == name && m["plate"] == plate && m["brand"] == brand && m["model"] == model
            && m["color"] == color && m["colorHex"] == colorHex && m["updatedAt"] == updatedAt
            && m.Keys == {"name", "plate", "brand", "model", "color", "colorHex", "updatedAt"}
  {
  }

  /** `baseMeta.devices_meta` when it is a non-null object, else `{}`. */
  function DevicesMetaOf(meta: Json): (dm: Json)
    ensures UsableMeta(dm) || dm == Obj(map[])
  {
    var dm := Get(meta, "devices_meta");
    if UsableMeta(dm) then dm else Obj(map[])
  }

  /** `{ ...(entries[id] || {}), ...updated }` */
  function MergedEntry(entries: map<string, Json>, id: string, updated: map<string, Json>): (e: Json)
    ensures e.Obj?
    ensures forall k :: k in updated ==> k in e.fields && e.fields[k] == updated[k]
  {
    var stored := if id in entries then Or(entries[id], Obj(map[])) else Obj(map[]);
    Obj(OwnEntries(stored) + updated)
  }

  /** saveMetaForm(): only the selected device's entry changes, and in it
      only the fields of the form and the time of the change. */
  function SaveMetaForm(state: Json, id: string, form: Form, nowIso: string): (o: Outcome)
    ensures o.Saved? <==> CanEditUser(state) && id != ""
    ensures o.Saved? ==>
              var prev := OwnEntries(DevicesMetaOf(BaseMeta(state)));
              && o.newDevicesMeta == prev[id := MergedEntry(prev, id, Updated(form, nowIso))]
              && o.newMetadata == WithKey(BaseMeta(state), "devices_meta", Obj(o.newDevicesMeta))
  {
    if !CanEditUser(state) then NoPermission
    else if id == "" then NoDevice
    else
      var baseMeta := BaseMeta(state);
      var prev := OwnEntries(DevicesMetaOf(baseMeta));
      var newDevicesMeta := prev[id := MergedEntry(prev, id, Updated(form, nowIso))];
      Saved(WithKey(baseMeta, "devices_meta", Obj(newDevicesMeta)), newDevicesMeta)
  }

  /** `deviceMeta?.[id]` */
  function StoredEntry(deviceMeta: Json, id: string): (e: Json)
    ensures deviceMeta.Obj? && id in deviceMeta.fields ==> e == deviceMeta.fields[id]
    ensures deviceMeta.Obj? && id !in deviceMeta.fields ==> e == Undefined
  {
    if Nullish(deviceMeta) then Undefined
    else if id in OwnEntries(deviceMeta) then OwnEntries(deviceMeta)[id] else Undefined
  }

  /** The inputs filled from one stored entry `m`. */
  function FormOf(m: Json): (form: Form)
    ensures !Truthy(Get(m, "colorHex")) ==> form.colorHex == DefaultColorHex
    ensures Get(m, "colorHex").Str? ==> form.colorHex != ""
    ensures !Truthy(Get(m, "name")) ==> form.name == ""
    ensures !Truthy(Get(m, "plate")) ==> form.plate == ""
    ensures !Truthy(Get(m, "brand")) ==> form.brand == ""
    ensures !Truthy(Get(m, "model")) ==> form.model == ""
    ensures !Truthy(Get(m, "color")) ==> form.color == ""
    ensures forall s :: Get(m, "name") == Str(s) ==> form.name == s
    ensures forall s :: Get(m, "plate") == Str(s) ==> form.plate == s
    ensures forall s :: Get(m, "brand") == Str(s) ==> form.brand == s
    ensures forall s :: Get(m, "model") == Str(s) ==> form.model == s
    ensures forall s :: Get(m, "color") == Str(s) ==> form.color == s
  {
    var hex := Or(Get(m, "colorHex"), Str(DefaultColorHex));
    Form(JsString(Or(Get(m, "name"), Str(""))), JsString(Or(Get(m, "plate"), Str(""))),
         JsString(Or(Get(m, "brand"), Str(""))), JsString(Or(Get(m, "model"), Str(""))),
         JsString(Or(Get(m, "color"), Str(""))), JsString(hex))
  }

  /** loadDeviceMetaIntoForm(id): each input gets the stored value, or ""
      (black for the colour code) when there is none. */
  function LoadDeviceMetaIntoForm(deviceMeta: Json, id: string): (form: Form)
    ensures !Truthy(StoredEntry(deviceMeta, id)) ==> form == Form("", "", "", "", "", DefaultColorHex)
  {
    FormOf(Or(StoredEntry(deviceMeta, id), Obj(map[])))
  }

  // ------------------------------------------------------------ properties

  /** The other devices' entries are kept as they were. */
  lemma OthersUnchanged(state: Json, id: string, form: Form, nowIso: string)
    requires SaveMetaForm(state, id, form, nowIso).Saved?
    ensures var prev := OwnEntries(DevicesMetaOf(BaseMeta(state)));
            var next := SaveMetaForm(state, id, form, nowIso).newDevicesMeta;
            && next.Keys == prev.Keys + {id}
            && forall k :: k in prev && k != id ==> next[k] == prev[k]
  {
    var prev := OwnEntries(DevicesMetaOf(BaseMeta(state)));
    MapUpdate(prev, id, MergedEntry(prev, id, Updated(form, nowIso)));
  }

  lemma MapUpdate<V>(m: map<string, V>, key: string, v: V)
    ensures m[key := v].Keys == m.Keys + {key}
    ensures forall k :: k in m && k != key ==> m[key := v][k] == m[k]
  {
  }

  /** In the edited entry the form wins, and the stored fields it does not
      name are kept. */
  lemma EntryMerged(state: Json, id: string, form: Form, nowIso: string)
    requires SaveMetaForm(state, id, form, nowIso).Saved?
    ensures var prev := OwnEntries(DevicesMetaOf(BaseMeta(state)));
            var e := SaveMetaForm(state, id, form, nowIso).newDevicesMeta[id];
            var u := Updated(form, nowIso);
            && e.Obj?
            && (forall k :: k in u ==> e.fields[k] == u[k])
            && (id in prev && prev[id].Obj? ==>
                  forall k :: k in prev[id].fields && k !in u ==> k in e.fields && e.fields[k] == prev[id].fields[k])
  {
    var prev := OwnEntries(DevicesMetaOf(BaseMeta(state)));
    var u := Updated(form, nowIso);
    var e := MergedEntry(prev, id, u);
    assert SaveMetaForm(state, id, form, nowIso).newDevicesMeta[id] == e;
    if id in prev && prev[id].Obj? {
      StoredKept(prev, id, u);
    }
  }

  /** The stored fields the form does not name survive the merge. */
  lemma StoredKept(entries: map<string, Json>, id: string, updated: map<string, Json>)
    requires id in entries && entries[id].Obj?
    ensures var e := MergedEntry(entries, id, updated);
            forall k :: k in entries[id].fields && k !in updated ==> k in e.fields && e.fields[k] == entries[id].fields[k]
  {
    assert Or(entries[id], Obj(map[])) == entries[id];
  }

  /** Saving a device keeps the rest of the metadata, the bases included. */
  lemma SaveKeepsBases(state: Json, id: string, form: Form, nowIso: string)
    requires SaveMetaForm(state, id, form, nowIso).Saved?
    ensures var o := SaveMetaForm(state, id, form, nowIso);
            BasesOf(o.newMetadata) == BasesOf(BaseMeta(state))
            && forall k :: k != "devices_meta" && k in OwnEntries(BaseMeta(state)) ==>
                 o.newMetadata.fields[k] == OwnEntries(BaseMeta(state))[k]
  {
    var o := SaveMetaForm(state, id, form, nowIso);
    KeepsBases(BaseMeta(state), "devices_meta", Obj(o.newDevicesMeta));
  }

  /** What the form shows after a save: the trimmed texts, and the colour
      code or black. */
  function Normalized(form: Form): Form
  {
    Form(Trim(form.name), Trim(form.plate), Trim(form.brand), Trim(form.model), Trim(form.color),
         if form.colorHex == "" then DefaultColorHex else form.colorHex)
  }

  /** A stored text reads back as itself, the empty one included. */
  lemma TextLoads(m: Json, k: string, t: string)
    requires Get(m, k) == Str(t)
    ensures JsString(Or(Get(m, k), Str(""))) == t
  {
  }

  /** An entry holding the saved fields fills the form with them. */
  lemma FormOfUpdated(e: Json, form: Form, nowIso: string)
    requires e.Obj?
    requires forall k :: k in Updated(form, nowIso) ==> k in e.fields && e.fields[k] == Updated(form, nowIso)[k]
    ensures FormOf(e) == Normalized(form)
  {
    var u := Updated(form, nowIso);
    var hex := Normalized(form).colorHex;
    assert Get(e, "name") == u["name"] && Get(e, "plate") == u["plate"] && Get(e, "brand") == u["brand"]
        && Get(e, "model") == u["model"] && Get(e, "color") == u["color"] && Get(e, "colorHex") == u["colorHex"];
    FormOfFields(e, Trim(form.name), Trim(form.plate), Trim(form.brand), Trim(form.model), Trim(form.color), hex);
  }

  /** An entry holding the six texts fills the form with them. */
  lemma FormOfFields(e: Json, name: string, plate: string, brand: string, model: string, color: string, hex: string)
    requires Get(e, "name") == Str(name) && Get(e, "plate") == Str(plate) && Get(e, "brand") == Str(brand)
    requires Get(e, "model") == Str(model) && Get(e, "color") == Str(color)
    requires Get(e, "colorHex") == Str(hex) && hex != ""
    ensures FormOf(e) == Form(name, plate, brand, model, color, hex)
  {
    TextLoads(e, "name", name);
    TextLoads(e, "plate", plate);
    TextLoads(e, "brand", brand);
    TextLoads(e, "model", model);
    TextLoads(e, "color", color);
    HexLoads(e, hex);
  }

  /** A stored, non-empty colour code reads back as itself. */
  lemma HexLoads(m: Json, t: string)
    requires Get(m, "colorHex") == Str(t) && t != ""
    ensures JsString(Or(Get(m, "colorHex"), Str(DefaultColorHex))) == t
  {
  }

  /** Loading the device just saved fills the form with what was saved. */
  lemma SaveThenLoad(state: Json, id: string, form: Form, nowIso: string)
    requires SaveMetaForm(state, id, form, nowIso).Saved?
    ensures LoadDeviceMetaIntoForm(Obj(SaveMetaForm(state, id, form, nowIso).newDevicesMeta), id)
            == Normalized(form)
  {
    var dm := SaveMetaForm(state, id, form, nowIso).newDevicesMeta;
    var prev := OwnEntries(DevicesMetaOf(BaseMeta(state)));
    var e := MergedEntry(prev, id, Updated(form, nowIso));
    assert dm[id] == e;
    LoadedEntry(dm, id, e);
    FormOfUpdated(e, form, nowIso);
  }

  /** A stored object entry is what the form is filled from. */
  lemma LoadedEntry(dm: map<string, Json>, id: string, e: Json)
    requires id in dm && dm[id] == e && e.Obj?
    ensures LoadDeviceMetaIntoForm(Obj(dm), id) == FormOf(e)
  {
    assert StoredEntry(Obj(dm), id) == e;
    assert Or(e, Obj(map[])) == e;
  }
}
