/** What an update does with the values of a manifest: which field each value of the result comes from, at every place. */
module UpdateValues {
  import opened Prelude
  import opened Encryption
  import opened Migration
  import opened Version1

  /** Where a field of the result comes from: it is none, a new value, or a field as it was. */
  datatype Source = Gone | New(value: Value) | From(name: string)

  function As(m: Fields, name: string): Source { if name in m then From(name) else Gone }

  predicate OldPaths(m: Fields) { "subcontainers" in m && Truthy(m["subcontainers"]) }

  function SourceOf(m: Fields, inline: bool, k: string): Source {
    match k
    case "version" => if inline then Gone else As(m, k)
    case "owner" => if inline then Gone else As(m, k)
    case "object" => if "object" !in m && "type" in m then New(Scalar("storage")) else As(m, k)
    case "type" =>
      if Is(m, "type", "http-index") then New(Scalar("http"))
      else if Is(m, "type", "date-proxy") then New(Scalar("timeline"))
      else As(m, k)
    case "subcontainers" => if OldPaths(m) then Gone else As(m, k)
    case "manifest-pattern" =>
      if OldPaths(m) then New(Dict(map["type" := Scalar("list"), "paths" := m["subcontainers"]])) else As(m, k)
    case "infrastructures" => Gone
    case "manifests-catalog" => As(m, if "infrastructures" in m then "infrastructures" else k)
    case _ => As(m, k)
  }

  /** A result has all that is to come of a manifest, but for some fields. */
  ghost predicate Carried(m: Fields, r: Fields, inline: bool, but: set<string>)
    decreases Dict(m), 2
  {
    forall k :: k !in but ==> FieldCarried(m, r, inline, k)
  }

  ghost predicate FieldCarried(m: Fields, r: Fields, inline: bool, k: string)
    decreases Dict(m), 1
  {
    match SourceOf(m, inline, k)
    case Gone => k !in r
    case New(v) => k in r && r[k] == v
    case From(name) => name in m && k in r && ValueCarried(k, m[name], r[k], Is(m, "object", "link"))
  }

  /** A value as it was, but for the manifests in it: inline ones in lists of storages and in the catalogue, and links. */
  ghost predicate ValueCarried(k: string, v: Value, u: Value, inLink: bool)
    decreases v, 5
  {
    if k == "backends" && HasList(v) then
      && HasList(u) && ListCarried(v.fields["storage"].items, u.fields["storage"].items)
      && if IsLink(v) then Carried(v.fields, u.fields, false, {"storage"})
         else u.fields == v.fields["storage" := u.fields["storage"]]
    else if k == "manifests-catalog" && v.Items? then u.Items? && ListCarried(v.items, u.items)
    else if IsLink(v) || (k == "storage" && inLink && v.Dict?) then u.Dict? && Carried(v.fields, u.fields, false, {})
    else u == v
  }

  predicate HasList(v: Value) { v.Dict? && "storage" in v.fields && v.fields["storage"].Items? }

  ghost predicate ListCarried(vs: seq<Value>, us: seq<Value>)
    decreases Items(vs), 3
  {
    && |us| == |vs|
    && forall i :: 0 <= i < |vs| ==>
         if vs[i].Dict? then us[i].Dict? && Carried(vs[i].fields, us[i].fields, true, {}) else us[i] == vs[i]
  }

  // ---- the first stage ----

  /** The fields of one dictionary, before what is nested is updated. */
  ghost predicate Sourced(m: Fields, m1: Fields, inline: bool) {
    forall k :: SourcedAt(m, m1, inline, k)
  }

  ghost predicate SourcedAt(m: Fields, m1: Fields, inline: bool, k: string) {
    match SourceOf(m, inline, k)
    case Gone => k !in m1
    case New(v) => k in m1 && m1[k] == v
    case From(name) => name in m && k in m1 && m1[k] == m[name]
  }

  lemma ReplacedIsSourced(m: Fields, inline: bool)
    requires Replaced(m, inline).Ok?
    ensures Sourced(m, Replaced(m, inline).value, inline)
  {
    var m1 := Retyped(m, inline);
    RetypedSourced(m, inline);
    assert "subcontainers" in m1 <==> "subcontainers" in m;
    PatternedSourced(m1);
    var m2 := Patterned(m1).value;
    hide Retyped, Patterned;
    RenamedMoves(m2, "infrastructures", "manifests-catalog");
    hide Renamed;
    var r := Replaced(m, inline).value;
    forall k
      ensures SourcedAt(m, r, inline, k)
    {
      SourcesAddUp(m, m1, m2, r, inline, k);
    }
  }

  lemma RetypedSourced(m: Fields, inline: bool)
    ensures var r := Retyped(m, inline);
            && SameBut(m, r, {"version", "owner", "object", "type"})
            && (if inline then "version" !in r && "owner" !in r else SameAt(m, r, "version") && SameAt(m, r, "owner"))
            && (if "object" !in m && "type" in m then Is(r, "object", "storage") else SameAt(m, r, "object"))
            && (if Is(m, "type", "http-index") then Is(r, "type", "http")
                else if Is(m, "type", "date-proxy") then Is(r, "type", "timeline")
                else SameAt(m, r, "type"))
  {
  }

  lemma PatternedSourced(m: Fields)
    requires Patterned(m).Ok?
    ensures var r := Patterned(m).value;
            if OldPaths(m) then
              && SameBut(m, r, {"subcontainers", "manifest-pattern"}) && "subcontainers" !in r
              && "manifest-pattern" in r
              && r["manifest-pattern"] == Dict(map["type" := Scalar("list"), "paths" := m["subcontainers"]])
            else r == m
  {
  }

  lemma SourcesAddUp(m: Fields, m1: Fields, m2: Fields, r: Fields, inline: bool, k: string)
    requires SameBut(m, m1, {"version", "owner", "object", "type"})
    requires if inline then "version" !in m1 && "owner" !in m1 else SameAt(m, m1, "version") && SameAt(m, m1, "owner")
    requires if "object" !in m && "type" in m then Is(m1, "object", "storage") else SameAt(m, m1, "object")
    requires if Is(m, "type", "http-index") then Is(m1, "type", "http")
             else if Is(m, "type", "date-proxy") then Is(m1, "type", "timeline")
             else SameAt(m, m1, "type")
    requires if OldPaths(m1) then
               && SameBut(m1, m2, {"subcontainers", "manifest-pattern"}) && "subcontainers" !in m2
               && "manifest-pattern" in m2
               && m2["manifest-pattern"] == Dict(map["type" := Scalar("list"), "paths" := m1["subcontainers"]])
             else m2 == m1
    requires Moved(m2, r, "infrastructures", "manifests-catalog") && SameBut(m2, r, {"infrastructures", "manifests-catalog"})
    ensures SourcedAt(m, r, inline, k)
  {
    assert SameAt(m, m1, "subcontainers");
    assert SameAt(m, m1, "infrastructures") && SameAt(m, m1, "manifests-catalog");
    assert SameAt(m1, m2, "infrastructures") && SameAt(m1, m2, "manifests-catalog");
    if k !in {"infrastructures", "manifests-catalog"} {
      assert SameAt(m2, r, k);
      if k !in {"subcontainers", "manifest-pattern"} {
        assert SameAt(m1, m2, k);
        if k !in {"version", "owner", "object", "type"} { assert SameAt(m, m1, k); }
      } else {
        assert SameAt(m, m1, k);
      }
    }
  }

  // ---- the other stages ----

  lemma BackendsPlace(m: Fields, n: int)
    requires Bounded(Dict(m), n) && StoragesUpdated(m, n).Ok? && HasStorages(m)
    ensures var r := StoragesUpdated(m, n).value;
            && HasStorages(r) && Updated(Storages(m), Storages(r), n - 3)
            && r["backends"] == Dict(m["backends"].fields["storage" := Items(Storages(r))])
  {
    StoragesPlaces(m, n);
    hide UpdateList, Bounded, Updated;
  }

  /** The fields after the stage of links, one by one. */
  ghost predicate Staged(m1: Fields, m2: Fields, m3: Fields, m4: Fields, r: Fields, n: int)
    requires Bounded(Dict(m1), n) && Bounded(Dict(m2), n) && Bounded(Dict(m3), n) && Bounded(Dict(m4), n)
  {
    && m2.Keys == m1.Keys && m3.Keys == m1.Keys && m4.Keys == m1.Keys && r.Keys == m1.Keys
    && (forall k :: k in m1 && k != "backends" ==> m2[k] == m1[k])
    && (forall k :: k in m1 && k != "manifests-catalog" ==> m3[k] == m2[k])
    && (forall k :: k in m1 && k != "storage" ==> m4[k] == m3[k])
    && (forall k :: k in m1 ==> LinkValue(m4[k], Below(k, n)) == Ok(r[k]))
    && (forall k, t :: Is(m3, k, t) <==> Is(m1, k, t))
  }

  lemma StagesOf(m: Fields, inline: bool, n: int) returns (m1: Fields, m2: Fields, m3: Fields, m4: Fields)
    requires Bounded(Dict(m), n) && UpdateObsolete(m, inline, n).Ok?
    ensures Bounded(Dict(m1), n) && Bounded(Dict(m2), n) && Bounded(Dict(m3), n) && Bounded(Dict(m4), n)
    ensures Replaced(m, inline) == Ok(m1) && StoragesUpdated(m1, n) == Ok(m2) && CatalogUpdated(m2, n) == Ok(m3)
    ensures LinkUpdated(m3, n) == Ok(m4) && LinksUpdated(m4, n) == Ok(UpdateObsolete(m, inline, n).value)
    ensures "infrastructures" !in m1 && Staged(m1, m2, m3, m4, UpdateObsolete(m, inline, n).value, n)
  {
    hide UpdateObsolete, Replaced, StoragesUpdated, CatalogUpdated, LinkUpdated, LinksUpdated, LinkValue, Bounded, Updated;
    m1, m2, m3, m4 := Stages(m, inline, n);
    ReplacedPlaces(m, inline);
    StoragesPlaces(m1, n);
    CatalogPlaces(m2, n);
    LinkPlaces(m3, n);
    LinksKeys(m4, n);
    forall k | k in m1
      ensures LinkValue(m4[k], Below(k, n)) == Ok(UpdateObsolete(m, inline, n).value[k])
    {
      LinkIsUpdated(m4, n, k);
    }
  }

  lemma {:induction false} LinkCarries(v: Value, n: int)
    requires Bounded(v, n) && LinkValue(v, n).Ok?
    ensures var u := LinkValue(v, n).value;
            if IsLink(v) then u.Dict? && Carried(v.fields, u.fields, false, {}) else u == v
    decreases Positive(n), 3
  {
    if IsLink(v) { UpdateCarries(v.fields, false, n); }
  }

  lemma {:induction false} ListCarries(vs: seq<Value>, us: seq<Value>, n: int)
    requires Updated(vs, us, n)
    ensures ListCarried(vs, us)
    decreases Positive(n), 3
  {
    hide UpdateObsolete, Carried, Bounded;
    forall i | 0 <= i < |vs| && vs[i].Dict?
      ensures Carried(vs[i].fields, us[i].fields, true, {})
    {
      UpdateCarries(vs[i].fields, true, n);
    }
  }

  /** A successful update carries every value over: those under old names to the new ones, every other to where it was,
      at every place that it reaches. */
  lemma {:induction false} UpdateCarries(m: Fields, inline: bool, n: int)
    requires Bounded(Dict(m), n) && UpdateObsolete(m, inline, n).Ok?
    ensures Carried(m, UpdateObsolete(m, inline, n).value, inline, {})
    decreases Positive(n), 2
  {
    assert n > 0;
    hide UpdateObsolete, Replaced, StoragesUpdated, CatalogUpdated, LinkUpdated, LinksUpdated, LinkValue, Bounded, ValueCarried;
    var m1, m2, m3, m4 := StagesOf(m, inline, n);
    var r := UpdateObsolete(m, inline, n).value;
    ReplacedIsSourced(m, inline);
    forall k | k in m1
      ensures ValueCarried(k, m1[k], r[k], Is(m1, "object", "link"))
    {
      if k == "backends" {
        BackendsCarry(m1, m2, m3, m4, r, n);
      } else if k == "manifests-catalog" {
        CatalogCarries(m1, m2, m3, m4, r, n);
      } else if k == "storage" {
        StorageCarries(m1, m2, m3, m4, r, n);
      } else {
        OtherCarries(m1, m2, m3, m4, r, n, k);
      }
    }
    SourcedIsCarried(m, m1, r, inline);
  }

  lemma SourcedIsCarried(m: Fields, m1: Fields, r: Fields, inline: bool)
    requires Sourced(m, m1, inline) && r.Keys == m1.Keys
    requires forall k :: k in m1 ==> ValueCarried(k, m1[k], r[k], Is(m1, "object", "link"))
    ensures Carried(m, r, inline, {})
  {
    hide SourceOf, ValueCarried;
    LinkIsSourced(m, m1, inline);
    forall k
      ensures FieldCarried(m, r, inline, k)
    {
      assert SourcedAt(m, m1, inline, k);
      if SourceOf(m, inline, k).New? { NewStays(m, inline, k, r[k], Is(m, "object", "link")); }
    }
  }

  /** A new value has no manifest in it. */
  lemma NewStays(m: Fields, inline: bool, k: string, u: Value, inLink: bool)
    requires SourceOf(m, inline, k).New? && ValueCarried(k, SourceOf(m, inline, k).value, u, inLink)
    ensures u == SourceOf(m, inline, k).value
  {
  }

  lemma LinkIsSourced(m: Fields, m1: Fields, inline: bool)
    requires Sourced(m, m1, inline)
    ensures Is(m1, "object", "link") <==> Is(m, "object", "link")
  {
    assert SourceOf(m, inline, "object") == if "object" !in m && "type" in m then New(Scalar("storage")) else As(m, "object");
    assert SourcedAt(m, m1, inline, "object");
    assert Is(m1, "object", "link") ==> m1["object"] != Scalar("storage");
  }

  lemma {:induction false} OtherCarries(m1: Fields, m2: Fields, m3: Fields, m4: Fields, r: Fields, n: int, k: string)
    requires n > 0
    requires Bounded(Dict(m1), n) && Bounded(Dict(m2), n) && Bounded(Dict(m3), n) && Bounded(Dict(m4), n)
    requires Staged(m1, m2, m3, m4, r, n) && k in m1 && k !in {"backends", "manifests-catalog", "storage"}
    ensures ValueCarried(k, m1[k], r[k], Is(m1, "object", "link"))
    decreases Positive(n), 1
  {
    assert Bounded(m4[k], Below(k, n));
    hide LinkValue, Carried, Bounded;
    LinkCarries(m4[k], Below(k, n));
  }

  lemma {:induction false} BackendsCarry(m1: Fields, m2: Fields, m3: Fields, m4: Fields, r: Fields, n: int)
    requires n > 0
    requires Bounded(Dict(m1), n) && Bounded(Dict(m2), n) && Bounded(Dict(m3), n) && Bounded(Dict(m4), n)
    requires Staged(m1, m2, m3, m4, r, n) && "backends" in m1 && StoragesUpdated(m1, n) == Ok(m2)
    ensures ValueCarried("backends", m1["backends"], r["backends"], Is(m1, "object", "link"))
    decreases Positive(n), 1
  {
    hide Carried, ValueCarried, Bounded, UpdateObsolete, StoragesUpdated;
    BoundedAt(m4, n, "backends");
    assert m4["backends"] == m2["backends"];
    assert LinkValue(m4["backends"], n - 1) == Ok(r["backends"]);
    hide Staged, LinkValue, Is, IsLink;
    if HasStorages(m1) {
      BackendsPlace(m1, n);
      ListCarries(Storages(m1), Storages(m2), n - 3);
      ListedBackendsCarry(m1["backends"], m2["backends"], r["backends"], Is(m1, "object", "link"), n - 1);
    } else {
      NoStorages(m1, n);
      LinkCarries(m1["backends"], n - 1);
      PlainBackendsCarry(m1["backends"], r["backends"], Is(m1, "object", "link"));
    }
  }

  lemma NoStorages(m: Fields, n: int)
    requires Bounded(Dict(m), n) && StoragesUpdated(m, n).Ok? && !HasStorages(m)
    ensures StoragesUpdated(m, n) == Ok(m)
  {
  }

  lemma BoundedAt(m: Fields, n: int, k: string)
    requires Bounded(Dict(m), n) && k in m
    ensures Bounded(m[k], Below(k, n))
  {
  }

  lemma PlainBackendsCarry(v: Value, u: Value, inLink: bool)
    requires !HasList(v) && if IsLink(v) then u.Dict? && Carried(v.fields, u.fields, false, {}) else u == v
    ensures ValueCarried("backends", v, u, inLink)
  {
  }

  lemma {:induction false} ListedBackendsCarry(v: Value, v': Value, u: Value, inLink: bool, n: int)
    requires HasList(v) && HasList(v') && v'.fields == v.fields["storage" := v'.fields["storage"]]
    requires ListCarried(v.fields["storage"].items, v'.fields["storage"].items)
    requires Bounded(v', n) && LinkValue(v', n) == Ok(u)
    ensures ValueCarried("backends", v, u, inLink)
    decreases Positive(n), 4
  {
    hide Carried, Bounded, UpdateObsolete;
    if IsLink(v) {
      assert IsLink(v');
      UpdateCarries(v'.fields, false, n);
      KeepsStorageList(v'.fields, false, n);
      WithoutList(v.fields, v'.fields, u.fields);
    }
  }

  /** But for its list of storages, a dictionary is updated as one with another list. */
  lemma WithoutList(b: Fields, b': Fields, u: Fields)
    requires "storage" in b && "storage" in b' && b' == b["storage" := b'["storage"]]
    requires Carried(b', u, false, {})
    ensures Carried(b, u, false, {"storage"})
  {
    hide ValueCarried, SourceOf;
    assert Is(b, "object", "link") <==> Is(b', "object", "link");
    forall k | k != "storage"
      ensures SourceOf(b, false, k) == SourceOf(b', false, k)
      ensures SourceOf(b, false, k).From? ==> SourceOf(b, false, k).name in b && b'[SourceOf(b, false, k).name] == b[SourceOf(b, false, k).name]
    {
      SameSource(b, b', k);
    }
    forall k | k != "storage"
      ensures FieldCarried(b, u, false, k)
    {
      assert FieldCarried(b', u, false, k);
    }
  }

  lemma SameSource(b: Fields, b': Fields, k: string)
    requires "storage" in b && "storage" in b' && b' == b["storage" := b'["storage"]] && k != "storage"
    ensures SourceOf(b, false, k) == SourceOf(b', false, k)
    ensures SourceOf(b, false, k).From? ==> SourceOf(b, false, k).name in b && b'[SourceOf(b, false, k).name] == b[SourceOf(b, false, k).name]
  {
  }

  lemma {:induction false} CatalogCarries(m1: Fields, m2: Fields, m3: Fields, m4: Fields, r: Fields, n: int)
    requires n > 0
    requires Bounded(Dict(m1), n) && Bounded(Dict(m2), n) && Bounded(Dict(m3), n) && Bounded(Dict(m4), n)
    requires Staged(m1, m2, m3, m4, r, n) && "manifests-catalog" in m1 && "infrastructures" !in m1 && CatalogUpdated(m2, n) == Ok(m3)
    ensures ValueCarried("manifests-catalog", m1["manifests-catalog"], r["manifests-catalog"], Is(m1, "object", "link"))
    decreases Positive(n), 1
  {
    var v, u := m1["manifests-catalog"], r["manifests-catalog"];
    hide Carried, Bounded, UpdateObsolete, Is;
    BoundedAt(m4, n, "manifests-catalog");
    CatalogPlace(m2, m3, n);
    assert m2["manifests-catalog"] == v && m4["manifests-catalog"] == m3["manifests-catalog"];
    assert LinkValue(m4["manifests-catalog"], n - 1) == Ok(u);
    hide Staged, CatalogUpdated, Updated;
    if v.Items? {
      ListCarries(v.items, m3["manifests-catalog"].items, n - 2);
    } else {
      hide LinkValue, ListCarried;
      LinkCarries(v, n - 1);
    }
  }

  lemma CatalogPlace(m: Fields, r: Fields, n: int)
    requires Bounded(Dict(m), n) && CatalogUpdated(m, n) == Ok(r) && "manifests-catalog" in m && "infrastructures" !in m
    ensures "manifests-catalog" in r
    ensures if m["manifests-catalog"].Items? then
              && r["manifests-catalog"].Items?
              && Updated(m["manifests-catalog"].items, r["manifests-catalog"].items, n - 2)
            else r["manifests-catalog"] == m["manifests-catalog"]
  {
    CatalogPlaces(m, n);
    hide UpdateList, Updated;
  }

  lemma {:induction false} StorageCarries(m1: Fields, m2: Fields, m3: Fields, m4: Fields, r: Fields, n: int)
    requires n > 0
    requires Bounded(Dict(m1), n) && Bounded(Dict(m2), n) && Bounded(Dict(m3), n) && Bounded(Dict(m4), n)
    requires Staged(m1, m2, m3, m4, r, n) && "storage" in m1 && LinkUpdated(m3, n) == Ok(m4)
    ensures ValueCarried("storage", m1["storage"], r["storage"], Is(m1, "object", "link"))
    decreases Positive(n), 1
  {
    var v, u := m1["storage"], r["storage"];
    assert m3["storage"] == v && (Is(m3, "object", "link") <==> Is(m1, "object", "link"));
    StoragePlace(m3, m4, n);
    assert LinkValue(m4["storage"], n - 1) == Ok(u);
    hide UpdateObsolete, Carried, Bounded, LinkUpdated, LinkValue, Staged, Is;
    if Is(m1, "object", "link") && v.Dict? {
      UpdateCarries(v.fields, false, n - 1);
      UpdatedStays(v.fields, n - 1);
    } else {
      LinkCarries(v, n - 1);
    }
  }

  lemma StoragePlace(m: Fields, r: Fields, n: int)
    requires Bounded(Dict(m), n) && LinkUpdated(m, n) == Ok(r) && "storage" in m
    ensures Bounded(m["storage"], n - 1) && "storage" in r
    ensures if Is(m, "object", "link") && m["storage"].Dict? then
              && UpdateObsolete(m["storage"].fields, false, n - 1).Ok?
              && r["storage"] == Dict(UpdateObsolete(m["storage"].fields, false, n - 1).value)
            else r["storage"] == m["storage"]
  {
    assert Bounded(m["storage"], n - 1);
    hide UpdateObsolete, Bounded;
  }

  /** What has been updated is not changed when it is reached again as a link. */
  lemma UpdatedStays(m: Fields, n: int)
    requires Bounded(Dict(m), n) && UpdateObsolete(m, false, n).Ok?
    ensures var w := Dict(UpdateObsolete(m, false, n).value); Bounded(w, n) && LinkValue(w, n) == Ok(w)
  {
    var w := UpdateObsolete(m, false, n).value;
    UpdatedIsMigrated(m, false, n);
    MigratedStays(w, false, n);
    hide UpdateObsolete;
  }

  // ---- the step to version 1 ----

  /** The fields that the step may touch. */
  function SteppedFields(): set<string> {
    {"signer", "owner", "inner-container", "reference-container", "object", "backends", "infrastructures", "path", "location",
     "version"}
  }

  /** What a manifest without an object is taken for. */
  function Guess(m: Fields): string {
    if "user" in m then "bridge" else if "backends" in m then "container" else if "type" in m then "storage" else "user"
  }

  /** A result has all that is to come of an unversioned manifest. */
  ghost predicate Brought(m: Fields, r: Fields, addVersion: bool)
    decreases Dict(m), 1
  {
    && NamesMoved(m, r) && SameBut(m, r, SteppedFields())
    && ("object" !in m ==> Is(r, "object", Guess(m)))
    && (if addVersion then Is(r, "version", "1") else SameAt(m, r, "version"))
    && (if HasStorages(m) then
          && "backends" in r && HasStorages(r) && ListBrought(m["backends"].fields["storage"].items, Storages(r), false)
          && r["backends"] == Dict(m["backends"].fields["storage" := Items(Storages(r))])
        else SameAt(m, r, "backends"))
    && (if "infrastructures" in m && m["infrastructures"].Items? then
          && "infrastructures" in r && r["infrastructures"].Items?
          && ListBrought(m["infrastructures"].items, r["infrastructures"].items, true)
        else SameAt(m, r, "infrastructures"))
  }

  /** The inline manifests that the step reaches: readable storages, and containers of the catalogue. */
  predicate InStep(v: Value, catalog: bool) {
    if catalog then IsContainer(v) else v.Dict? && v.fields.Keys != {"encrypted"}
  }

  ghost predicate ListBrought(vs: seq<Value>, us: seq<Value>, catalog: bool)
    decreases Items(vs), 0
  {
    && |us| == |vs|
    && forall i :: 0 <= i < |vs| ==>
         if InStep(vs[i], catalog) then us[i].Dict? && Brought(vs[i].fields, us[i].fields, catalog) else us[i] == vs[i]
  }

  /** A successful step to version 1 carries every value over, at every place that it reaches. */
  lemma {:induction false} StepBrings(m: Fields, addVersion: bool)
    requires ToVersion1(m, addVersion).Ok?
    ensures Brought(m, ToVersion1(m, addVersion).value, addVersion)
    decreases Dict(m), 1
  {
    var m2, m3, m4, m5, m6 := StepStages(m, addVersion);
    StepMoves(m, addVersion);
    StepPlaces(m, addVersion);
    StepKeeps(m, addVersion);
    hide ToVersion1, WithObject, NamesMoved, SameBut, Stepped, ListToV1;
    if HasStorages(m) { StepBringsList(Storages(m), Storages(ToVersion1(m, addVersion).value), false); }
    if "infrastructures" in m && m["infrastructures"].Items? { StepBringsList(Catalog(m), Catalog(ToVersion1(m, addVersion).value), true); }
  }

  lemma {:induction false} StepBringsList(vs: seq<Value>, us: seq<Value>, catalog: bool)
    requires Stepped(vs, us, catalog)
    ensures ListBrought(vs, us, catalog)
    decreases Items(vs), 0
  {
    hide ToVersion1, Brought;
    forall i | 0 <= i < |vs| && InStep(vs[i], catalog)
      ensures us[i].Dict? && Brought(vs[i].fields, us[i].fields, catalog)
    {
      StepBrings(vs[i].fields, catalog);
    }
  }

  /** What the step does outside the lists. */
  lemma StepKeeps(m: Fields, addVersion: bool)
    requires ToVersion1(m, addVersion).Ok?
    ensures var r := ToVersion1(m, addVersion).value;
            && SameBut(m, r, SteppedFields())
            && ("object" !in m ==> Is(r, "object", Guess(m)))
            && (addVersion || SameAt(m, r, "version"))
            && (if HasStorages(m) then
                  HasStorages(r) && r["backends"] == Dict(m["backends"].fields["storage" := Items(Storages(r))])
                else SameAt(m, r, "backends"))
            && (if "infrastructures" in m && m["infrastructures"].Items? then "infrastructures" in r && r["infrastructures"].Items?
                else SameAt(m, r, "infrastructures"))
  {
    hide WithObject, ListToV1, ToVersion1, Renamed, IsLocal, Guess, SteppedFields, WithStorages;
    var m2, m3, m4, m5, m6 := StepStages(m, addVersion);
    var m1 := if "owner" in m then m else Renamed(m, "signer", "owner");
    RenamedMoves(m, "signer", "owner");
    RenamedMoves(m1, "inner-container", "reference-container");
    RenamedMoves(m5, "path", "location");
    GuessIs(m2, m3);
    var r := ToVersion1(m, addVersion).value;
    OthersKept(m, m1, m2, m3, m4, m5, m6, r);
    PlacesKept(m, m1, m2, m3, m4, m5, m6, r);
  }

  lemma GuessIs(m: Fields, r: Fields)
    requires WithObject(m) == Ok(r)
    ensures "object" !in m ==> Is(r, "object", Guess(m))
    ensures SameBut(m, r, {"object"})
  {
  }

  lemma OthersKept(m: Fields, m1: Fields, m2: Fields, m3: Fields, m4: Fields, m5: Fields, m6: Fields, r: Fields)
    requires m1 == m || SameBut(m, m1, {"signer", "owner"})
    requires SameBut(m1, m2, {"inner-container", "reference-container"}) && SameBut(m2, m3, {"object"})
    requires "object" !in m2 ==> Is(m3, "object", Guess(m2))
    requires SameBut(m3, m4, {"backends"}) && SameBut(m4, m5, {"infrastructures"})
    requires m6 == m5 || SameBut(m5, m6, {"path", "location"})
    requires r == m6 || r == m6["version" := Scalar("1")]
    ensures SameBut(m, r, SteppedFields())
    ensures "object" !in m ==> Is(r, "object", Guess(m))
    ensures r == m6 ==> SameAt(m, r, "version")
  {
    assert SameBut(m, m1, {"signer", "owner"}) && SameBut(m5, m6, {"path", "location"});
    assert SameBut(m6, r, {"version"});
    forall k | k !in SteppedFields()
      ensures SameAt(m, r, k)
    {
      SameThrough(m, m1, m2, m3, k);
      SameThrough(m3, m4, m5, m6, k);
      assert SameAt(m6, r, k);
    }
    SameThrough(m, m1, m2, m3, "version");
    SameThrough(m3, m4, m5, m6, "version");
    SameThrough(m, m1, m2, m2, "object");
    SameThrough(m3, m4, m5, m6, "object");
    assert SameAt(m6, r, "object");
    SameThrough(m, m1, m2, m2, "user");
    SameThrough(m, m1, m2, m2, "type");
    SameThrough(m, m1, m2, m2, "backends");
  }

  lemma PlacesKept(m: Fields, m1: Fields, m2: Fields, m3: Fields, m4: Fields, m5: Fields, m6: Fields, r: Fields)
    requires m1 == m || SameBut(m, m1, {"signer", "owner"})
    requires SameBut(m1, m2, {"inner-container", "reference-container"}) && SameBut(m2, m3, {"object"})
    requires HasStorages(m) ==> ListToV1(Storages(m), false).Ok? &&
                                m4 == m3["backends" := WithStorages(m, ListToV1(Storages(m), false).value)["backends"]]
    requires !HasStorages(m) ==> m4 == m3
    requires if "infrastructures" in m && m["infrastructures"].Items?
             then ListToV1(Catalog(m), true).Ok? && m5 == m4["infrastructures" := Items(ListToV1(Catalog(m), true).value)]
             else m5 == m4
    requires m6 == m5 || SameBut(m5, m6, {"path", "location"})
    requires r == m6 || r == m6["version" := Scalar("1")]
    ensures if HasStorages(m) then
              HasStorages(r) && r["backends"] == Dict(m["backends"].fields["storage" := Items(Storages(r))])
            else SameAt(m, r, "backends")
    ensures if "infrastructures" in m && m["infrastructures"].Items? then "infrastructures" in r && r["infrastructures"].Items?
            else SameAt(m, r, "infrastructures")
  {
    hide ListToV1;
    assert SameBut(m, m1, {"signer", "owner"}) && SameBut(m5, m6, {"path", "location"});
    assert SameBut(m6, r, {"version"});
    SameThrough(m, m1, m2, m3, "backends");
    SameThrough(m, m1, m2, m3, "infrastructures");
    SameThrough(m5, m6, r, r, "backends");
    SameThrough(m5, m6, r, r, "infrastructures");
  }

  // ---- whole manifests ----

  /** What comes of the values of a manifest brought up to date: an unversioned one goes through the step first. */
  lemma UpdateVersionCarries(m: Fields)
    requires UpdateVersion(m).Ok?
    ensures "version" in m ==> Carried(m, UpdateVersion(m).value, false, {})
    ensures "version" !in m ==> exists m1: Fields :: Brought(m, m1, true) && Carried(m1, UpdateVersion(m).value, false, {})
  {
    hide UpdateObsolete, ToVersion1, Carried, Brought, Bounded;
    var m1 := if "version" in m then m else ToVersion1(m, true).value;
    UpdateCarries(m1, false, BoundOf(m1));
    if "version" !in m { StepBrings(m, true); }
  }
}
