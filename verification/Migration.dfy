/** Bringing old manifests up to date: obsolete names are replaced, in the manifest and in those nested in it. */
module Migration {
  import opened Prelude
  import opened Encryption

  datatype MigrationError = ManifestError | NotADict

  // ---- small accessors ----

  function Truthy(v: Value): bool {
    match v
    case Scalar(t) => t != ""
    case Items(vs) => vs != []
    case Dict(m) => m != map[]
    case _ => true
  }

  predicate Is(m: Fields, name: string, text: string) { name in m && m[name] == Scalar(text) }

  /** Moves a field to another name. */
  function Renamed(m: Fields, from: string, to: string): Fields {
    if from in m then m[to := m[from]] - {from} else m
  }

  predicate IsPart(part: string, text: string) {
    part <= text || (text != "" && IsPart(part, text[1..]))
  }

  /** fields['backends']['storage'] fails for a backends field that only looks as if it had one. */
  predicate BadBackends(m: Fields) {
    "backends" in m &&
    match m["backends"]
    case Scalar(t) => IsPart("storage", t)
    case Items(vs) => Scalar("storage") in vs
    case _ => false
  }

  /** The list fields['backends']['storage'], when there is one. */
  predicate HasStorages(m: Fields) {
    "backends" in m && m["backends"].Dict? && "storage" in m["backends"].fields && m["backends"].fields["storage"].Items?
  }

  function WithStorages(m: Fields, vs: seq<Value>): Fields
    requires HasStorages(m)
  {
    m["backends" := Dict(m["backends"].fields["storage" := Items(vs)])]
  }

  // ---- depth ----

  /** The nesting is at most n deep; a subcontainers field counts for two, as it will move one deeper. */
  ghost predicate Bounded(v: Value, n: int) {
    n >= 0 &&
    match v
    case Dict(m) => n > 0 && forall k :: k in m ==> Bounded(m[k], if k == "subcontainers" then n - 2 else n - 1)
    case Items(vs) => n > 0 && forall i :: 0 <= i < |vs| ==> Bounded(vs[i], n - 1)
    case _ => true
  }

  lemma {:induction false} BoundedMore(v: Value, n: int, k: int)
    requires Bounded(v, n) && n <= k
    ensures Bounded(v, k)
  {
    match v {
      case Dict(m) =>
        forall f | f in m { BoundedMore(m[f], if f == "subcontainers" then n - 2 else n - 1, if f == "subcontainers" then k - 2 else k - 1); }
      case Items(vs) =>
        forall i | 0 <= i < |vs| { BoundedMore(vs[i], n - 1, k - 1); }
      case _ =>
    }
  }

  /** Every manifest tree is finite, so it has a bound. */
  lemma {:induction false} HasBound(v: Value) returns (n: nat)
    ensures Bounded(v, n)
    decreases v, 1
  {
    match v {
      case Dict(m) =>
        var k := FieldsBound(m, m.Keys);
        n := k + 2;
        forall f | f in m { BoundedMore(m[f], k, if f == "subcontainers" then n - 2 else n - 1); }
      case Items(vs) =>
        var k := ItemsBound(vs, |vs|);
        n := k + 1;
      case _ => n := 0;
    }
  }

  lemma FieldsBound(m: Fields, names: set<string>) returns (n: nat)
    requires names <= m.Keys
    ensures forall f :: f in names ==> Bounded(m[f], n)
    decreases Dict(m), 0, |names|
  {
    n := 0;
    if names != {} {
      var f :| f in names;
      var a := HasBound(m[f]);
      var b := FieldsBound(m, names - {f});
      n := a + b;
      forall g | g in names ensures Bounded(m[g], n) {
        if g == f { BoundedMore(m[g], a, n); } else { BoundedMore(m[g], b, n); }
      }
    }
  }

  lemma ItemsBound(vs: seq<Value>, count: nat) returns (n: nat)
    requires count <= |vs|
    ensures forall i :: 0 <= i < count ==> Bounded(vs[i], n)
    decreases Items(vs), 0, count
  {
    n := 0;
    if count > 0 {
      var a := HasBound(vs[count - 1]);
      var b := ItemsBound(vs, count - 1);
      n := a + b;
      forall i | 0 <= i < count ensures Bounded(vs[i], n) {
        if i == count - 1 { BoundedMore(vs[i], a, n); } else { BoundedMore(vs[i], b, n); }
      }
    }
  }

  // ---- obsolete names of version 1 ----

  /** The type and object of one dictionary brought up to date. */
  function Retyped(m: Fields, inline: bool): Fields {
    var m1 := if inline then m - {"version", "owner"} else m;
    var m2 := if "type" in m1 && "object" !in m1 then m1["object" := Scalar("storage")] else m1;
    var m3 := if Is(m2, "type", "http-index") then m2["type" := Scalar("http")] else m2;
    if Is(m3, "type", "date-proxy") then m3["type" := Scalar("timeline")] else m3
  }

  /** An obsolete list of paths becomes a manifest pattern; the two cannot be merged. */
  function Patterned(m: Fields): Result<Fields, MigrationError> {
    if "subcontainers" !in m || !Truthy(m["subcontainers"]) then Ok(m)
    else if "manifest-pattern" in m then Err(ManifestError)
    else
      Ok(m["manifest-pattern" := Dict(map["type" := Scalar("list"), "paths" := m["subcontainers"]])] - {"subcontainers"})
  }

  /** The changes to the fields of one dictionary. */
  function Replaced(m: Fields, inline: bool): Result<Fields, MigrationError> {
    var m1 :- Patterned(Retyped(m, inline));
    Ok(Renamed(m1, "infrastructures", "manifests-catalog"))
  }

  lemma RetypedBounded(m: Fields, inline: bool, n: nat)
    requires Bounded(Dict(m), n)
    ensures Bounded(Dict(Retyped(m, inline)), n)
  {
  }

  lemma PatternedBounded(m: Fields, n: nat)
    requires Bounded(Dict(m), n) && Patterned(m).Ok?
    ensures Bounded(Dict(Patterned(m).value), n)
  {
    var r := Patterned(m).value;
    if "subcontainers" in m && Truthy(m["subcontainers"]) {
      assert Bounded(m["subcontainers"], n - 2);
      assert Bounded(r["manifest-pattern"], n - 1);
    }
  }

  lemma ReplacedBounded(m: Fields, inline: bool, n: nat)
    requires Bounded(Dict(m), n) && Replaced(m, inline).Ok?
    ensures Bounded(Dict(Replaced(m, inline).value), n)
  {
    RetypedBounded(m, inline, n);
    PatternedBounded(Retyped(m, inline), n);
    hide Retyped, Patterned;
  }

  /** Updates the dictionaries of a list, which are inline manifests. */
  function UpdateList(vs: seq<Value>, ghost n: int): (r: Result<seq<Value>, MigrationError>)
    requires n >= 0 && forall i :: 0 <= i < |vs| ==> Bounded(vs[i], n)
    ensures r.Ok? ==> |r.value| == |vs| && forall i :: 0 <= i < |vs| ==> Bounded(r.value[i], n)
    decreases n, 4, |vs|
  {
    if vs == [] then Ok([])
    else
      var first :- UpdateItem(vs[0], true, n);
      var rest :- UpdateList(vs[1..], n);
      Ok([first] + rest)
  }

  function UpdateItem(v: Value, inline: bool, ghost n: int): (r: Result<Value, MigrationError>)
    requires Bounded(v, n)
    ensures r.Ok? ==> Bounded(r.value, n) && (r.value.Dict? <==> v.Dict?) && (!v.Dict? ==> r.value == v)
    decreases n, 3
  {
    match v
    case Dict(m) =>
      var m' :- UpdateObsolete(m, inline, n);
      Ok(Dict(m'))
    case _ => Ok(v)
  }

  function StoragesUpdated(m: Fields, ghost n: int): (r: Result<Fields, MigrationError>)
    requires Bounded(Dict(m), n)
    ensures r.Ok? ==> Bounded(Dict(r.value), n)
    decreases n, 1
  {
    if BadBackends(m) then Err(NotADict)
    else if HasStorages(m) then
      assert Bounded(m["backends"], n - 1);
      assert Bounded(m["backends"].fields["storage"], n - 2);
      var vs :- UpdateList(m["backends"].fields["storage"].items, n - 3);
      assert Bounded(Items(vs), n - 2);
      Ok(WithStorages(m, vs))
    else Ok(m)
  }

  function CatalogUpdated(m: Fields, ghost n: int): (r: Result<Fields, MigrationError>)
    requires Bounded(Dict(m), n)
    ensures r.Ok? ==> Bounded(Dict(r.value), n)
    decreases n, 1
  {
    if "manifests-catalog" in m && m["manifests-catalog"].Items? then
      assert Bounded(m["manifests-catalog"], n - 1);
      var vs :- UpdateList(m["manifests-catalog"].items, n - 2);
      assert Bounded(Items(vs), n - 1);
      Ok(m["manifests-catalog" := Items(vs)])
    else Ok(m)
  }

  function LinkUpdated(m: Fields, ghost n: int): (r: Result<Fields, MigrationError>)
    requires Bounded(Dict(m), n)
    ensures r.Ok? ==> Bounded(Dict(r.value), n)
    decreases n, 1
  {
    if Is(m, "object", "link") && "storage" in m then
      var v :- UpdateItem(m["storage"], false, n - 1);
      Ok(m["storage" := v])
    else Ok(m)
  }

  predicate IsLink(v: Value) { v.Dict? && Is(v.fields, "object", "link") }

  function LinkValue(v: Value, ghost n: int): (r: Result<Value, MigrationError>)
    requires Bounded(v, n)
    ensures r.Ok? ==> Bounded(r.value, n)
    decreases n, 4
  {
    if IsLink(v) then UpdateItem(v, false, n) else Ok(v)
  }

  ghost function Below(k: string, n: int): int { if k == "subcontainers" then n - 2 else n - 1 }

  function LinksUpdated(m: Fields, ghost n: int): (r: Result<Fields, MigrationError>)
    requires Bounded(Dict(m), n)
    ensures r.Ok? ==> Bounded(Dict(r.value), n) && r.value.Keys == m.Keys
    decreases n, 1
  {
    if forall k :: k in m ==> LinkValue(m[k], Below(k, n)).Ok?
    then Ok(map k | k in m :: LinkValue(m[k], Below(k, n)).value)
    else Err(ManifestError)
  }

  /** update_obsolete */
  function UpdateObsolete(m: Fields, inline: bool, ghost n: int): (r: Result<Fields, MigrationError>)
    requires Bounded(Dict(m), n)
    ensures r.Ok? ==> Bounded(Dict(r.value), n)
    decreases n, 2
  {
    var m1 :- Replaced(m, inline);
    ReplacedBounded(m, inline, n);
    var m2 :- StoragesUpdated(m1, n);
    var m3 :- CatalogUpdated(m2, n);
    var m4 :- LinkUpdated(m3, n);
    LinksUpdated(m4, n)
  }

  // ---- what a migrated manifest looks like ----

  /** No obsolete name or type is left in the fields of one dictionary. */
  ghost predicate Current(m: Fields, inline: bool) {
    && (inline ==> "version" !in m && "owner" !in m)
    && ("type" in m ==> "object" in m)
    && !Is(m, "type", "http-index") && !Is(m, "type", "date-proxy")
    && ("subcontainers" in m ==> !Truthy(m["subcontainers"]))
    && "infrastructures" !in m
  }

  /** Nor in any dictionary nested at a place where manifests are. */
  ghost predicate Migrated(m: Fields, inline: bool)
    decreases Dict(m), 1
  {
    && Current(m, inline)
    && !BadBackends(m)
    && (HasStorages(m) ==> MigratedList(m["backends"].fields["storage"].items))
    && ("manifests-catalog" in m && m["manifests-catalog"].Items? ==> MigratedList(m["manifests-catalog"].items))
    && (Is(m, "object", "link") && "storage" in m && m["storage"].Dict? ==> Migrated(m["storage"].fields, false))
    && forall k :: k in m && IsLink(m[k]) ==> Migrated(m[k].fields, false)
  }

  ghost predicate MigratedList(vs: seq<Value>)
    decreases Items(vs), 0
  {
    forall i :: 0 <= i < |vs| && vs[i].Dict? ==> Migrated(vs[i].fields, true)
  }

  // ---- a migrated manifest is left alone ----

  lemma {:induction false} MigratedStays(m: Fields, inline: bool, n: int)
    requires Migrated(m, inline) && Bounded(Dict(m), n)
    ensures UpdateObsolete(m, inline, n) == Ok(m)
    decreases n, 2
  {
    hide Replaced, StoragesUpdated, CatalogUpdated, LinkUpdated, LinksUpdated;
    CurrentStays(m, inline);
    StoragesStay(m, n);
    CatalogStays(m, n);
    LinkStays(m, n);
    LinksStay(m, n);
  }

  lemma StoragesStay(m: Fields, n: int)
    requires Bounded(Dict(m), n) && !BadBackends(m)
    requires HasStorages(m) ==> MigratedList(m["backends"].fields["storage"].items)
    ensures StoragesUpdated(m, n) == Ok(m)
    decreases n, 1
  {
    if HasStorages(m) {
      assert Bounded(m["backends"], n - 1) && Bounded(m["backends"].fields["storage"], n - 2);
      MigratedListStays(m["backends"].fields["storage"].items, n - 3);
      SameStorages(m);
    }
  }

  lemma CatalogStays(m: Fields, n: int)
    requires Bounded(Dict(m), n)
    requires "manifests-catalog" in m && m["manifests-catalog"].Items? ==> MigratedList(m["manifests-catalog"].items)
    ensures CatalogUpdated(m, n) == Ok(m)
    decreases n, 1
  {
    if "manifests-catalog" in m && m["manifests-catalog"].Items? {
      assert Bounded(m["manifests-catalog"], n - 1);
      MigratedListStays(m["manifests-catalog"].items, n - 2);
      assert m["manifests-catalog" := m["manifests-catalog"]] == m;
    }
  }

  lemma LinkStays(m: Fields, n: int)
    requires Bounded(Dict(m), n)
    requires Is(m, "object", "link") && "storage" in m && m["storage"].Dict? ==> Migrated(m["storage"].fields, false)
    ensures LinkUpdated(m, n) == Ok(m)
    decreases n, 1
  {
    if Is(m, "object", "link") && "storage" in m {
      if m["storage"].Dict? { MigratedStays(m["storage"].fields, false, n - 1); }
      assert m["storage" := m["storage"]] == m;
    }
  }

  lemma LinksStay(m: Fields, n: int)
    requires Bounded(Dict(m), n)
    requires forall k :: k in m && IsLink(m[k]) ==> Migrated(m[k].fields, false)
    ensures LinksUpdated(m, n) == Ok(m)
    decreases n, 1
  {
    forall k | k in m
      ensures LinkValue(m[k], Below(k, n)) == Ok(m[k])
    {
      if IsLink(m[k]) { MigratedStays(m[k].fields, false, Below(k, n)); }
    }
    assert LinksUpdated(m, n).value == m;
  }

  lemma CurrentStays(m: Fields, inline: bool)
    requires Current(m, inline)
    ensures Replaced(m, inline) == Ok(m)
  {
    assert m - {"version", "owner"} == m || !inline;
  }

  lemma SameStorages(m: Fields)
    requires HasStorages(m)
    ensures WithStorages(m, m["backends"].fields["storage"].items) == m
  {
    var b := m["backends"].fields;
    assert b["storage" := Items(b["storage"].items)] == b;
  }

  lemma {:induction false} MigratedListStays(vs: seq<Value>, n: int)
    requires n >= 0 && MigratedList(vs) && forall i :: 0 <= i < |vs| ==> Bounded(vs[i], n)
    ensures UpdateList(vs, n) == Ok(vs)
    decreases n, 4, |vs|
  {
    if vs != [] {
      if vs[0].Dict? { MigratedStays(vs[0].fields, true, n); }
      MigratedListStays(vs[1..], n);
      assert vs == [vs[0]] + vs[1..];
    }
  }

  // ---- an update leaves nothing obsolete ----

  lemma ReplacedIsCurrent(m: Fields, inline: bool)
    requires Replaced(m, inline).Ok?
    ensures Current(Replaced(m, inline).value, inline)
    ensures SameAt(m, Replaced(m, inline).value, "storage")
  {
  }

  /** The fields agree at a name. */
  ghost predicate SameAt(m: Fields, r: Fields, k: string) {
    (k in m <==> k in r) && (k in m ==> m[k] == r[k])
  }

  /** The stages of an update after the first. */
  lemma Stages(m: Fields, inline: bool, n: int) returns (m1: Fields, m2: Fields, m3: Fields, m4: Fields)
    requires Bounded(Dict(m), n) && UpdateObsolete(m, inline, n).Ok?
    ensures Bounded(Dict(m1), n) && Bounded(Dict(m2), n) && Bounded(Dict(m3), n) && Bounded(Dict(m4), n)
    ensures Replaced(m, inline) == Ok(m1) && StoragesUpdated(m1, n) == Ok(m2) && CatalogUpdated(m2, n) == Ok(m3)
    ensures LinkUpdated(m3, n) == Ok(m4) && LinksUpdated(m4, n) == Ok(UpdateObsolete(m, inline, n).value)
  {
    ReplacedBounded(m, inline, n);
    m1 := Replaced(m, inline).value;
    m2 := StoragesUpdated(m1, n).value;
    m3 := CatalogUpdated(m2, n).value;
    m4 := LinkUpdated(m3, n).value;
  }

  lemma StorageInStages(m1: Fields, m2: Fields, m3: Fields, m4: Fields, n: int)
    requires Bounded(Dict(m1), n) && Bounded(Dict(m2), n) && Bounded(Dict(m3), n)
    requires StoragesUpdated(m1, n) == Ok(m2) && CatalogUpdated(m2, n) == Ok(m3) && LinkUpdated(m3, n) == Ok(m4)
    ensures SameAt(m1, m3, "storage") && ("storage" in m3 <==> "storage" in m4)
    ensures "storage" in m3 ==> (m3["storage"].Dict? <==> m4["storage"].Dict?) && (!m3["storage"].Dict? ==> m3["storage"] == m4["storage"])
  {
    hide UpdateList, UpdateItem, Bounded;
  }

  lemma StorageInLinks(m: Fields, n: int)
    requires Bounded(Dict(m), n) && LinksUpdated(m, n).Ok?
    ensures var r := LinksUpdated(m, n).value;
            && ("storage" in m <==> "storage" in r)
            && ("storage" in m ==> (m["storage"].Dict? <==> r["storage"].Dict?) && (!m["storage"].Dict? ==> m["storage"] == r["storage"]))
  {
    if "storage" in m {
      assert LinksUpdated(m, n).value["storage"] == LinkValue(m["storage"], n - 1).value;
    }
  }

  /** An update never touches a list under `storage`. */
  lemma KeepsStorageList(m: Fields, inline: bool, n: int)
    requires Bounded(Dict(m), n) && UpdateObsolete(m, inline, n).Ok?
    ensures var r := UpdateObsolete(m, inline, n).value;
            ("storage" in m && m["storage"].Items?) || ("storage" in r && r["storage"].Items?) ==> SameAt(m, r, "storage")
  {
    hide UpdateObsolete, Replaced, StoragesUpdated, CatalogUpdated, LinkUpdated, LinksUpdated, Bounded;
    var m1, m2, m3, m4 := Stages(m, inline, n);
    ReplacedIsCurrent(m, inline);
    StorageInStages(m1, m2, m3, m4, n);
    StorageInLinks(m4, n);
  }

  lemma {:induction false} UpdatedList(vs: seq<Value>, n: int)
    requires n >= 0 && (forall i :: 0 <= i < |vs| ==> Bounded(vs[i], n)) && UpdateList(vs, n).Ok?
    ensures MigratedList(UpdateList(vs, n).value)
    decreases n, 4, |vs|
  {
    if vs != [] {
      if vs[0].Dict? { UpdatedIsMigrated(vs[0].fields, true, n); }
      UpdatedList(vs[1..], n);
      var r := UpdateList(vs, n).value;
      assert r[1..] == UpdateList(vs[1..], n).value;
      forall i | 0 <= i < |r| && r[i].Dict? ensures Migrated(r[i].fields, true) {
        if i > 0 { assert r[i] == r[1..][i - 1]; }
      }
    }
  }

  lemma StoragesAreMigrated(m: Fields, n: int)
    requires Bounded(Dict(m), n) && StoragesUpdated(m, n).Ok?
    ensures var r := StoragesUpdated(m, n).value;
            && !BadBackends(r) && r.Keys == m.Keys && (forall k :: k in m && k != "backends" ==> r[k] == m[k])
            && (HasStorages(r) ==> MigratedList(r["backends"].fields["storage"].items))
    decreases n, 1
  {
    if HasStorages(m) {
      assert Bounded(m["backends"], n - 1) && Bounded(m["backends"].fields["storage"], n - 2);
      UpdatedList(m["backends"].fields["storage"].items, n - 3);
    }
  }

  lemma CatalogIsMigrated(m: Fields, n: int)
    requires Bounded(Dict(m), n) && CatalogUpdated(m, n).Ok?
    ensures var r := CatalogUpdated(m, n).value;
            && r.Keys == m.Keys && (forall k :: k in m && k != "manifests-catalog" ==> r[k] == m[k])
            && ("manifests-catalog" in r && r["manifests-catalog"].Items? ==> MigratedList(r["manifests-catalog"].items))
    decreases n, 1
  {
    if "manifests-catalog" in m && m["manifests-catalog"].Items? {
      assert Bounded(m["manifests-catalog"], n - 1);
      UpdatedList(m["manifests-catalog"].items, n - 2);
    }
  }

  lemma {:induction false} LinkIsMigrated(m: Fields, n: int)
    requires Bounded(Dict(m), n) && LinkUpdated(m, n).Ok?
    ensures var r := LinkUpdated(m, n).value;
            && r.Keys == m.Keys && (forall k :: k in m && k != "storage" ==> r[k] == m[k])
            && (Is(r, "object", "link") && "storage" in r && r["storage"].Dict? ==> Migrated(r["storage"].fields, false))
    decreases n, 1
  {
    if Is(m, "object", "link") && "storage" in m && m["storage"].Dict? {
      UpdatedIsMigrated(m["storage"].fields, false, n - 1);
    }
  }

  lemma LinkIsUpdated(m: Fields, n: int, k: string)
    requires Bounded(Dict(m), n) && LinksUpdated(m, n).Ok? && k in m
    ensures LinksUpdated(m, n).value[k] == LinkValue(m[k], Below(k, n)).value
    ensures LinkValue(m[k], Below(k, n)).Ok?
  {
  }

  /** What the last stage does: links are migrated, what is no link stays. */
  ghost predicate LinksDone(m: Fields, r: Fields) {
    && r.Keys == m.Keys
    && (forall k :: k in m && !IsLink(m[k]) ==> r[k] == m[k])
    && (forall k :: k in m && IsLink(m[k]) ==> r[k].Dict? && Migrated(r[k].fields, false))
  }

  lemma {:induction false} LinksAreMigrated(m: Fields, n: int)
    requires Bounded(Dict(m), n) && LinksUpdated(m, n).Ok?
    ensures LinksDone(m, LinksUpdated(m, n).value)
    decreases n, 1
  {
    hide Migrated, UpdateObsolete, LinksUpdated;
    LinksKeys(m, n);
    forall k | k in m
      ensures !IsLink(m[k]) ==> LinksUpdated(m, n).value[k] == m[k]
      ensures IsLink(m[k]) ==> LinksUpdated(m, n).value[k].Dict? && Migrated(LinksUpdated(m, n).value[k].fields, false)
    {
      LinkIsUpdated(m, n, k);
      if IsLink(m[k]) { UpdatedIsMigrated(m[k].fields, false, Below(k, n)); }
    }
  }

  lemma LinksKeys(m: Fields, n: int)
    requires Bounded(Dict(m), n) && LinksUpdated(m, n).Ok?
    ensures LinksUpdated(m, n).value.Keys == m.Keys
  {
  }

  /** Updating `backends` as a link keeps its list of storages. */
  lemma BackendsKept(m: Fields, n: int)
    requires Bounded(Dict(m), n) && LinksUpdated(m, n).Ok?
    ensures var r := LinksUpdated(m, n).value;
            && (HasStorages(m) <==> HasStorages(r))
            && (HasStorages(m) ==> r["backends"].fields["storage"] == m["backends"].fields["storage"])
            && (!BadBackends(m) ==> !BadBackends(r))
  {
    hide UpdateObsolete, LinksUpdated;
    LinksKeys(m, n);
    if "backends" in m {
      LinkIsUpdated(m, n, "backends");
      if IsLink(m["backends"]) {
        KeepsStorageList(m["backends"].fields, false, n - 1);
      }
    }
  }

  /** What the stages have established adds up. */
  lemma StagesAddUp(m1: Fields, m2: Fields, m3: Fields, m4: Fields, r: Fields, inline: bool)
    requires Current(m1, inline)
    requires m2.Keys == m1.Keys && (forall k :: k in m1 && k != "backends" ==> m2[k] == m1[k])
    requires m3.Keys == m2.Keys && (forall k :: k in m2 && k != "manifests-catalog" ==> m3[k] == m2[k])
    requires m4.Keys == m3.Keys && (forall k :: k in m3 && k != "storage" ==> m4[k] == m3[k])
    requires LinksDone(m4, r)
    requires !BadBackends(r) && (HasStorages(r) ==> MigratedList(r["backends"].fields["storage"].items))
    requires "manifests-catalog" in m3 && m3["manifests-catalog"].Items? ==> MigratedList(m3["manifests-catalog"].items)
    requires Is(m4, "object", "link") && "storage" in m4 && m4["storage"].Dict? ==> Migrated(m4["storage"].fields, false)
    ensures Migrated(r, inline)
  {
    hide BadBackends, HasStorages, MigratedList;
    assert Current(r, inline);
    forall k | k in r && IsLink(r[k])
      ensures Migrated(r[k].fields, false)
    {
      assert IsLink(m4[k]);
    }
    assert Is(r, "object", "link") ==> Is(m4, "object", "link");
  }

  lemma {:induction false} UpdatedIsMigrated(m: Fields, inline: bool, n: int)
    requires Bounded(Dict(m), n) && UpdateObsolete(m, inline, n).Ok?
    ensures Migrated(UpdateObsolete(m, inline, n).value, inline)
    decreases n, 2
  {
    hide UpdateObsolete, Replaced, StoragesUpdated, CatalogUpdated, LinkUpdated, LinksUpdated, Bounded, Migrated, MigratedList, LinksDone;
    var m1, m2, m3, m4 := Stages(m, inline, n);
    ReplacedIsCurrent(m, inline);
    StoragesAreMigrated(m1, n);
    CatalogIsMigrated(m2, n);
    LinkIsMigrated(m3, n);
    LinksAreMigrated(m4, n);
    BackendsKept(m4, n);
    var r := UpdateObsolete(m, inline, n).value;
    assert SameAt(m2, m4, "backends");
    StagesAddUp(m1, m2, m3, m4, r, inline);
  }

  // ---- from no version to version 1 ----

  /** Guesses what an unversioned manifest is. */
  function WithObject(m: Fields): Result<Fields, MigrationError> {
    if "object" in m then Ok(m)
    else if "user" in m then Ok(m["object" := Scalar("bridge")])
    else if "backends" in m then Ok(m["object" := Scalar("container")])
    else if "type" in m then Ok(m["object" := Scalar("storage")])
    else if "pubkeys" in m then Ok(m["object" := Scalar("user")])
    else Err(ManifestError)
  }

  predicate IsLocal(m: Fields) {
    Is(m, "type", "local") || Is(m, "type", "local-cached") || Is(m, "type", "local-dir-cached")
  }

  function ListToV1(vs: seq<Value>, catalog: bool): Result<seq<Value>, MigrationError>
    decreases vs, 0
  {
    if vs == [] then Ok([])
    else
      var first :- ItemToV1(vs[0], catalog);
      var rest :- ListToV1(vs[1..], catalog);
      Ok([first] + rest)
  }

  /** Inline storages that are not encrypted, and inline containers of a catalogue, are brought up to date too. */
  function ItemToV1(v: Value, catalog: bool): Result<Value, MigrationError>
    decreases v, 2
  {
    match v
    case Dict(m) =>
      if catalog then
        if !Is(m, "object", "container") then Ok(v)
        else if "version" in m && Truthy(m["version"]) then Err(ManifestError)
        else
          var m' :- ToVersion1(m, true);
          Ok(Dict(m'))
      else if m.Keys == {"encrypted"} then Ok(v)
      else
        var m' :- ToVersion1(m, false);
        Ok(Dict(m'))
    case _ => Ok(v)
  }

  /** update_to_version_1 */
  function ToVersion1(m: Fields, addVersion: bool): Result<Fields, MigrationError>
    decreases Dict(m), 1
  {
    var m1 := if "owner" in m then m else Renamed(m, "signer", "owner");
    var m2 := Renamed(m1, "inner-container", "reference-container");
    var m3 :- WithObject(m2);
    if BadBackends(m) then Err(NotADict)
    else
      var m4 :- if HasStorages(m) then
                  var vs :- ListToV1(m["backends"].fields["storage"].items, false);
                  Ok(m3["backends" := WithStorages(m, vs)["backends"]])
                else Ok(m3);
      var m5 :- if "infrastructures" in m && m["infrastructures"].Items? then
                  var vs :- ListToV1(m["infrastructures"].items, true);
                  Ok(m4["infrastructures" := Items(vs)])
                else Ok(m4);
      var m6 := if IsLocal(m5) then Renamed(m5, "path", "location") else m5;
      Ok(if addVersion then m6["version" := Scalar("1")] else m6)
  }

  /** A bound of a manifest's nesting. */
  ghost function BoundOf(m: Fields): int {
    HasBoundExists(m);
    var n: int :| Bounded(Dict(m), n);
    n
  }

  lemma HasBoundExists(m: Fields)
    ensures exists n: int :: Bounded(Dict(m), n)
  {
    var n := HasBound(Dict(m));
  }

  /** update_manifest_version */
  function UpdateVersion(m: Fields): Result<Fields, MigrationError> {
    var m1 :- if "version" in m then Ok(m) else ToVersion1(m, true);
    UpdateObsolete(m1, false, BoundOf(m1))
  }

  lemma VersionStays(m: Fields, n: int)
    requires Bounded(Dict(m), n) && UpdateObsolete(m, false, n).Ok? && "version" in m
    ensures "version" in UpdateObsolete(m, false, n).value
  {
    hide UpdateObsolete, Replaced, StoragesUpdated, CatalogUpdated, LinkUpdated, LinksUpdated, Bounded;
    var m1, m2, m3, m4 := Stages(m, false, n);
    ReplacedKeepsVersion(m);
    VersionInStages(m1, m2, m3, m4, n);
    LinksKeys(m4, n);
  }

  lemma ReplacedKeepsVersion(m: Fields)
    requires Replaced(m, false).Ok? && "version" in m
    ensures "version" in Replaced(m, false).value
  {
  }

  lemma VersionInStages(m1: Fields, m2: Fields, m3: Fields, m4: Fields, n: int)
    requires Bounded(Dict(m1), n) && Bounded(Dict(m2), n) && Bounded(Dict(m3), n)
    requires StoragesUpdated(m1, n) == Ok(m2) && CatalogUpdated(m2, n) == Ok(m3) && LinkUpdated(m3, n) == Ok(m4)
    ensures "version" in m1 ==> "version" in m4
  {
    hide UpdateList, UpdateItem, Bounded;
  }

  /** Migration leaves no obsolete name or type anywhere a manifest can be, and migrating again changes nothing. */
  lemma MigrationIsIdempotent(m: Fields)
    requires UpdateVersion(m).Ok?
    ensures Migrated(UpdateVersion(m).value, false) && "version" in UpdateVersion(m).value
    ensures UpdateVersion(UpdateVersion(m).value) == UpdateVersion(m)
  {
    hide UpdateObsolete, Bounded, Migrated;
    var m1 := if "version" in m then m else ToVersion1(m, true).value;
    var r := UpdateObsolete(m1, false, BoundOf(m1)).value;
    UpdatedIsMigrated(m1, false, BoundOf(m1));
    VersionStays(m1, BoundOf(m1));
    MigratedStays(r, false, BoundOf(r));
  }
}
