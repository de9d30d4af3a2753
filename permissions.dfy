/** Who may edit the user's metadata, and where that metadata is read from.
    The bases panel and the vehicle editor use the same rule and the same
    lookup order. */
module Permissions {
  import opened Text
  import opened Js

  /** The four places a role can be stored, in the order they are read. */
  function Roles(state: Json): (roles: seq<Json>)
    ensures |roles| == 4
  {
    [Get2(state, "user", "role"), Get3(state, "user", "data", "role"),
     Get3(state, "user", "metadata", "role"), Get2(state, "metadata", "role")]
  }

  /** `String(x || '').toLowerCase()` */
  function RoleText(x: Json): string
  {
    Lower(JsString(Or(x, Str(""))))
  }

  /** The four roles as lower-case text. */
  function RoleTexts(state: Json): (texts: seq<string>)
    ensures |texts| == 4
    ensures forall k :: 0 <= k < 4 ==> texts[k] == RoleText(Roles(state)[k])
  {
    var roles := Roles(state);
    [RoleText(roles[0]), RoleText(roles[1]), RoleText(roles[2]), RoleText(roles[3])]
  }

  /** canEditUser(state): some stored role reads "admin" in any case, or the
      user's level is 1. */
  predicate CanEditUser(state: Json): (ok: bool)
    ensures ok <==> (exists k :: 0 <= k < 4 && RoleText(Roles(state)[k]) == "admin")
                    || ToNumber(Or(Get3(state, "user", "data", "nivel"), Int(0))) == Fin(1.0)
    ensures !Truthy(Get3(state, "user", "data", "nivel")) ==> (ok <==> "admin" in RoleTexts(state))
  {
    var isAdmin := "admin" in RoleTexts(state);
    var isNivel1 := ToNumber(Or(Get3(state, "user", "data", "nivel"), Int(0))) == Fin(1.0);
    isAdmin || isNivel1
  }

  /** A missing role reads as the empty text. */
  lemma RoleTextOfMissing()
    ensures RoleText(Undefined) == ""
  {
  }

  /** A non-empty text role reads as its lower-case form. */
  lemma RoleTextOfText(role: string)
    requires role != ""
    ensures RoleText(Str(role)) == Lower(role)
  {
  }

  /** A user whose role is "admin" (in any case) in `user.role` may edit. */
  lemma AdminMayEdit(user: map<string, Json>, role: string)
    requires Lower(role) == "admin"
    ensures CanEditUser(Obj(map["user" := Obj(user["role" := Str(role)])]))
  {
    var state := Obj(map["user" := Obj(user["role" := Str(role)])]);
    assert Roles(state)[0] == Str(role);
    assert role != "" by { assert |Lower(role)| == 5; }
    RoleTextOfText(role);
    assert RoleTexts(state)[0] == "admin";
  }

  /** Level 1 suffices, whether stored as a number or as the text "1". */
  lemma LevelOneMayEdit(data: map<string, Json>, level: Json)
    requires level == Int(1) || level == Str("1")
    ensures CanEditUser(Obj(map["user" := Obj(map["data" := Obj(data["nivel" := level])])]))
  {
    var state := Obj(map["user" := Obj(map["data" := Obj(data["nivel" := level])])]);
    assert Get(state, "user") == Obj(map["data" := Obj(data["nivel" := level])]);
    assert Get3(state, "user", "data", "nivel") == level;
    if level == Str("1") {
      NumberOfDigits("1");
    }
    assert ToNumber(Or(level, Int(0))) == Fin(1.0);
    LevelOne(state);
  }

  /** A level that reads as the number 1 suffices, whatever the roles. */
  lemma LevelOne(state: Json)
    requires ToNumber(Or(Get3(state, "user", "data", "nivel"), Int(0))) == Fin(1.0)
    ensures CanEditUser(state)
  {
  }

  /** Without any role or level nobody may edit. */
  lemma NobodyByDefault()
    ensures !CanEditUser(Obj(map[]))
  {
    assert Roles(Obj(map[])) == [Undefined, Undefined, Undefined, Undefined];
    RoleTextOfMissing();
    assert RoleTexts(Obj(map[])) == ["", "", "", ""];
  }

  /** A role that merely contains "admin" is not enough: the match is exact. */
  lemma RoleMatchIsExact(role: string)
    requires role != "" && Lower(role) != "admin"
    ensures !CanEditUser(Obj(map["user" := Obj(map["role" := Str(role)])]))
  {
    var state := Obj(map["user" := Obj(map["role" := Str(role)])]);
    var user := Obj(map["role" := Str(role)]);
    assert Get(state, "user") == user && Get(state, "metadata") == Undefined;
    assert Get(user, "role") == Str(role) && Get(user, "data") == Undefined && Get(user, "metadata") == Undefined;
    assert Roles(state) == [Str(role), Undefined, Undefined, Undefined];
    RoleTextOfMissing();
    RoleTextOfText(role);
    assert RoleTexts(state) == [Lower(role), "", "", ""];
    NoRoleNoLevel(state);
  }

  /** Without "admin" among the roles and without level 1 nobody may edit. */
  lemma NoRoleNoLevel(state: Json)
    requires "admin" !in RoleTexts(state) && Get3(state, "user", "data", "nivel") == Undefined
    ensures !CanEditUser(state)
  {
    assert Or(Undefined, Int(0)) == Int(0);
  }

  // ------------------------------------------------------------ metadata

  /** `x && typeof x === 'object'` */
  predicate UsableMeta(x: Json)
  {
    Truthy(x) && IsObjectType(x)
  }

  /** The user metadata: `state.metadata`, else `state.user.metadata`, else
      `state.user.data`, each only when it is a non-null object; else `{}`. */
  function BaseMeta(state: Json): (meta: Json)
    ensures meta.Obj? || meta.Arr?
    ensures UsableMeta(Get(state, "metadata")) ==> meta == Get(state, "metadata")
    ensures !UsableMeta(Get(state, "metadata")) && UsableMeta(Get2(state, "user", "metadata"))
            ==> meta == Get2(state, "user", "metadata")
    ensures !UsableMeta(Get(state, "metadata")) && !UsableMeta(Get2(state, "user", "metadata"))
            && UsableMeta(Get2(state, "user", "data"))
            ==> meta == Get2(state, "user", "data")
    ensures !UsableMeta(Get(state, "metadata")) && !UsableMeta(Get2(state, "user", "metadata"))
            && !UsableMeta(Get2(state, "user", "data"))
            ==> meta == Obj(map[])
    ensures UsableMeta(meta)
  {
    var a := Get(state, "metadata");
    var b := Get2(state, "user", "metadata");
    var c := Get2(state, "user", "data");
    if UsableMeta(a) then a
    else if UsableMeta(b) then b
    else if UsableMeta(c) then c
    else Obj(map[])
  }

  /** `Array.isArray(meta.bases) ? meta.bases : []` */
  function BasesOf(meta: Json): (bases: seq<Json>)
    ensures Get(meta, "bases").Arr? ==> bases == Get(meta, "bases").items
    ensures !Get(meta, "bases").Arr? ==> bases == []
  {
    var b := Get(meta, "bases");
    if b.Arr? then b.items else []
  }

  /** The metadata with one key replaced: `{ ...meta, key: value }`. */
  function WithKey(meta: Json, key: string, value: Json): (m: Json)
    ensures m.Obj? && key in m.fields && m.fields[key] == value
    ensures forall k :: k != key ==> (k in m.fields <==> k in OwnEntries(meta))
    ensures forall k :: k != key && k in m.fields ==> m.fields[k] == OwnEntries(meta)[k]
  {
    Obj(OwnEntries(meta)[key := value])
  }

  /** Writing another key leaves the bases as they were. */
  lemma KeepsBases(meta: Json, key: string, value: Json)
    requires key != "bases" && (meta.Obj? || meta.Arr?)
    ensures BasesOf(WithKey(meta, key, value)) == BasesOf(meta)
  {
    if meta.Arr? {
      forall i | 0 <= i < |meta.items| ensures NatToString(i) != "bases" {
        assert IsDigit(NatToString(i)[0]);
      }
      assert "bases" !in OwnEntries(meta);
    }
  }

  /** Bases written into the metadata are what is read back from it. */
  lemma BasesReadBack(meta: Json, bases: seq<Json>)
    ensures BasesOf(WithKey(meta, "bases", Arr(bases))) == bases
    ensures UsableMeta(WithKey(meta, "bases", Arr(bases)))
  {
  }
}
