/** The names of version 1: which manifests have them once they are brought up to date, and which keep older ones. */
module Version1 {
  import opened Prelude
  import opened Encryption
  import opened Migration

  // ---- the places an update reaches ----

  /** An inline storage of which nothing but the ciphertext is seen. */
  predicate Hidden(v: Value) { v.Dict? && v.fields.Keys - {"version", "owner"} == {"encrypted"} }

  /** An inline storage whose fields can be read. */
  predicate Open(v: Value) { v.Dict? && !Hidden(v) }

  predicate IsContainer(v: Value) { v.Dict? && Is(v.fields, "object", "container") }

  function Storages(m: Fields): seq<Value> {
    if HasStorages(m) then m["backends"].fields["storage"].items else []
  }

  /** The list of containers, under its old name when it has that. */
  function Catalog(m: Fields): seq<Value> {
    if "infrastructures" in m then (if m["infrastructures"].Items? then m["infrastructures"].items else [])
    else if "manifests-catalog" in m && m["manifests-catalog"].Items? then m["manifests-catalog"].items
    else []
  }

  lemma StoragesSmaller(m: Fields, i: nat)
    requires i < |Storages(m)|
    ensures Storages(m)[i] < Dict(m)
  {
    assert m["backends"].fields["storage"] < m["backends"] < Dict(m);
  }

  lemma CatalogSmaller(m: Fields, i: nat)
    requires i < |Catalog(m)|
    ensures Catalog(m)[i] < Dict(m)
  {
    if "infrastructures" in m {
      assert m["infrastructures"] < Dict(m);
    } else {
      assert m["manifests-catalog"] < Dict(m);
    }
  }

  // ---- the names of version 1 ----

  /** No name older than version 1 in the fields of one dictionary. */
  ghost predicate V1Names(m: Fields) {
    && "object" in m && "inner-container" !in m
    && ("signer" in m ==> "owner" in m)
    && (IsLocal(m) ==> "path" !in m)
  }

  /** Nor in the inline storages that can be read and in the containers of the catalogue. */
  ghost predicate V1Current(m: Fields)
    decreases Dict(m)
  {
    && V1Names(m)
    && (forall i :: 0 <= i < |Storages(m)| && Open(Storages(m)[i]) ==>
                      (StoragesSmaller(m, i); V1Current(Storages(m)[i].fields)))
    && (forall i :: 0 <= i < |Catalog(m)| && IsContainer(Catalog(m)[i]) ==>
                      (CatalogSmaller(m, i); V1Current(Catalog(m)[i].fields)))
  }

  /** What the changes within version 1 need to find: they guess an object from a type only, and take the owner
      of an inline manifest away. */
  ghost predicate ReadyNames(m: Fields, inline: bool) {
    && ("object" in m || "type" in m) && "inner-container" !in m
    && ("signer" in m ==> "owner" in m && !inline)
    && (IsLocal(m) ==> "path" !in m)
  }

  /** And in what is nested. */
  ghost predicate V1Ready(m: Fields, inline: bool)
    decreases Dict(m)
  {
    && ReadyNames(m, inline)
    && (forall i :: 0 <= i < |Storages(m)| && Open(Storages(m)[i]) ==>
                      (StoragesSmaller(m, i); V1Ready(Storages(m)[i].fields, true)))
    && (forall i :: 0 <= i < |Catalog(m)| && IsContainer(Catalog(m)[i]) ==>
                      (CatalogSmaller(m, i); V1Ready(Catalog(m)[i].fields, true)))
  }

  /** What the step to version 1 needs to find: no inline manifest with a signer beside its owner, and no old name
      in a catalogue that has its new name already. */
  ghost predicate V1Reachable(m: Fields, inline: bool)
    decreases Dict(m)
  {
    && ("signer" in m && "owner" in m ==> !inline)
    && (forall i :: 0 <= i < |Storages(m)| && Open(Storages(m)[i]) ==>
                      (StoragesSmaller(m, i); V1Reachable(Storages(m)[i].fields, true)))
    && (forall i :: 0 <= i < |Catalog(m)| && IsContainer(Catalog(m)[i]) ==>
                      (CatalogSmaller(m, i);
                       if "infrastructures" in m then V1Reachable(Catalog(m)[i].fields, true)
                       else V1Ready(Catalog(m)[i].fields, true)))
  }

  // ---- lists of inline manifests ----

  ghost predicate CurrentIn(vs: seq<Value>, at: Value -> bool) {
    forall i :: 0 <= i < |vs| && at(vs[i]) && vs[i].Dict? ==> V1Current(vs[i].fields)
  }

  ghost predicate ReadyIn(vs: seq<Value>, at: Value -> bool) {
    forall i :: 0 <= i < |vs| && at(vs[i]) && vs[i].Dict? ==> V1Ready(vs[i].fields, true)
  }

  ghost predicate ReachableIn(vs: seq<Value>, at: Value -> bool) {
    forall i :: 0 <= i < |vs| && at(vs[i]) && vs[i].Dict? ==> V1Reachable(vs[i].fields, true)
  }

  lemma CurrentParts(m: Fields)
    ensures V1Current(m) <==> V1Names(m) && CurrentIn(Storages(m), Open) && CurrentIn(Catalog(m), IsContainer)
  {
  }

  lemma ReadyParts(m: Fields, inline: bool)
    ensures V1Ready(m, inline) <==>
            ReadyNames(m, inline) && ReadyIn(Storages(m), Open) && ReadyIn(Catalog(m), IsContainer)
  {
  }

  lemma ReachableParts(m: Fields, inline: bool)
    ensures V1Reachable(m, inline) <==>
            && ("signer" in m && "owner" in m ==> !inline)
            && ReachableIn(Storages(m), Open)
            && (if "infrastructures" in m then ReachableIn(Catalog(m), IsContainer) else ReadyIn(Catalog(m), IsContainer))
  {
  }

  // ---- changes within version 1 ----

  lemma UpdateListAt(vs: seq<Value>, n: int, i: nat)
    requires n >= 0 && (forall j :: 0 <= j < |vs| ==> Bounded(vs[j], n)) && UpdateList(vs, n).Ok? && i < |vs|
    ensures UpdateItem(vs[i], true, n) == Ok(UpdateList(vs, n).value[i])
  {
    if i > 0 { UpdateListAt(vs[1..], n, i - 1); }
  }

  lemma RetypedPlaces(m: Fields, inline: bool)
    ensures var r := Retyped(m, inline);
            && ("object" in r <==> "object" in m || "type" in m)
            && (Is(r, "object", "container") <==> Is(m, "object", "container"))
            && (IsLocal(r) <==> IsLocal(m))
            && SameBut(m, r, {"version", "owner", "type", "object"})
            && ("owner" in r <==> "owner" in m && !inline)
  {
  }

  lemma PatternedPlaces(m: Fields)
    requires Patterned(m).Ok?
    ensures SameBut(m, Patterned(m).value, {"subcontainers", "manifest-pattern"})
  {
  }

  lemma RenamedCatalog(m: Fields)
    ensures Catalog(Renamed(m, "infrastructures", "manifests-catalog")) == Catalog(m)
    ensures "infrastructures" !in Renamed(m, "infrastructures", "manifests-catalog")
  {
  }

  lemma PlacesThrough(m: Fields, m1: Fields, m2: Fields, r: Fields)
    requires SameBut(m, m1, {"version", "owner", "type", "object"}) && SameBut(m1, m2, {"subcontainers", "manifest-pattern"})
    requires SameBut(m2, r, {"infrastructures", "manifests-catalog"})
    ensures SameAt(m, r, "inner-container") && SameAt(m, r, "signer") && SameAt(m, r, "path") && SameAt(m, r, "backends")
    ensures SameAt(m1, r, "object") && SameAt(m1, r, "owner") && SameAt(m1, r, "type")
    ensures Catalog(m2) == Catalog(m)
  {
    SameThrough(m, m1, m2, r, "inner-container");
    SameThrough(m, m1, m2, r, "signer");
    SameThrough(m, m1, m2, r, "path");
    SameThrough(m, m1, m2, r, "backends");
    SameThrough(m1, m1, m2, r, "object");
    SameThrough(m1, m1, m2, r, "owner");
    SameThrough(m1, m1, m2, r, "type");
    SameThrough(m, m1, m2, m2, "infrastructures");
    SameThrough(m, m1, m2, m2, "manifests-catalog");
  }

  /** What the first stage of an update keeps. */
  lemma ReplacedPlaces(m: Fields, inline: bool)
    requires Replaced(m, inline).Ok?
    ensures var r := Replaced(m, inline).value;
            && ("object" in r <==> "object" in m || "type" in m)
            && (Is(r, "object", "container") <==> Is(m, "object", "container"))
            && (IsLocal(r) <==> IsLocal(m))
            && (forall k :: k in {"inner-container", "signer", "path", "backends"} ==> SameAt(m, r, k))
            && ("owner" in r <==> "owner" in m && !inline)
            && Catalog(r) == Catalog(m) && "infrastructures" !in r
  {
    RetypedPlaces(m, inline);
    var m1 := Retyped(m, inline);
    PatternedPlaces(m1);
    var m2 := Patterned(m1).value;
    hide Retyped, Patterned;
    RenamedMoves(m2, "infrastructures", "manifests-catalog");
    RenamedCatalog(m2);
    var r := Renamed(m2, "infrastructures", "manifests-catalog");
    hide Renamed, Catalog;
    PlacesThrough(m, m1, m2, r);
    }

  lemma StoragesPlaces(m: Fields, n: int)
    requires Bounded(Dict(m), n) && StoragesUpdated(m, n).Ok?
    ensures var r := StoragesUpdated(m, n).value;
            r.Keys == m.Keys && (forall k :: k in m && k != "backends" ==> r[k] == m[k]) && (forall k, t :: Is(r, k, t) <==> Is(m, k, t))
    ensures Updated(Storages(m), Storages(StoragesUpdated(m, n).value), n - 3)
  {
    if HasStorages(m) {
      assert Bounded(m["backends"], n - 1) && Bounded(m["backends"].fields["storage"], n - 2);
      UpdatedAll(Storages(m), n - 3);
    }
  }

  lemma CatalogPlaces(m: Fields, n: int)
    requires Bounded(Dict(m), n) && CatalogUpdated(m, n).Ok? && "infrastructures" !in m
    ensures var r := CatalogUpdated(m, n).value;
            r.Keys == m.Keys && (forall k :: k in m && k != "manifests-catalog" ==> r[k] == m[k]) && (forall k, t :: Is(r, k, t) <==> Is(m, k, t))
    ensures Updated(Catalog(m), Catalog(CatalogUpdated(m, n).value), n - 2)
  {
    if "manifests-catalog" in m && m["manifests-catalog"].Items? {
      assert Bounded(m["manifests-catalog"], n - 1);
      UpdatedAll(Catalog(m), n - 2);
    }
  }

  lemma LinkPlaces(m: Fields, n: int)
    requires Bounded(Dict(m), n) && LinkUpdated(m, n).Ok?
    ensures var r := LinkUpdated(m, n).value;
            r.Keys == m.Keys && (forall k :: k in m && k != "storage" ==> r[k] == m[k]) && (forall k, t :: Is(r, k, t) <==> Is(m, k, t))
  {
  }

  lemma LinksPlaces(m: Fields, n: int)
    requires Bounded(Dict(m), n) && LinksUpdated(m, n).Ok? && "infrastructures" !in m
    ensures var r := LinksUpdated(m, n).value;
            r.Keys == m.Keys && (forall k, t :: Is(r, k, t) <==> Is(m, k, t)) && Storages(r) == Storages(m) && Catalog(r) == Catalog(m)
  {
    BackendsKept(m, n);
    LinksKeys(m, n);
    forall k | k in m
      ensures var r := LinksUpdated(m, n).value;
              (r[k].Dict? <==> m[k].Dict?) && (m[k].Dict? || r[k] == m[k])
    {
      LinkIsUpdated(m, n, k);
    }
    hide LinksUpdated;
  }

  /** Every dictionary of a list is updated as an inline manifest. */
  ghost predicate Updated(vs: seq<Value>, us: seq<Value>, n: int) {
    && |us| == |vs|
    && forall i :: 0 <= i < |vs| ==>
                     (us[i].Dict? <==> vs[i].Dict?) && (!vs[i].Dict? ==> us[i] == vs[i]) && (vs[i].Dict? ==> n >= 0 && Bounded(vs[i], n) && UpdateObsolete(vs[i].fields, true, n) == Ok(us[i].fields))
  }

  lemma UpdatedAll(vs: seq<Value>, n: int)
    requires n >= 0 && (forall j :: 0 <= j < |vs| ==> Bounded(vs[j], n)) && UpdateList(vs, n).Ok?
    ensures Updated(vs, UpdateList(vs, n).value, n)
  {
    forall i | 0 <= i < |vs| { UpdateListAt(vs, n, i); }
  }

  /** What an update changes where the names of version 1 are. */
  lemma UpdatedPlaces(m: Fields, inline: bool, n: int)
    requires Bounded(Dict(m), n) && UpdateObsolete(m, inline, n).Ok?
    ensures Replaced(m, inline).Ok?
    ensures var m1, r := Replaced(m, inline).value, UpdateObsolete(m, inline, n).value;
            && r.Keys == m1.Keys && (forall k, t :: Is(r, k, t) <==> Is(m1, k, t))
            && Updated(Storages(m1), Storages(r), n - 3) && Updated(Catalog(m1), Catalog(r), n - 2)
  {
    hide UpdateObsolete, Replaced, StoragesUpdated, CatalogUpdated, LinkUpdated, LinksUpdated, Bounded, Updated, Is;
    var m1, m2, m3, m4 := Stages(m, inline, n);
    ReplacedPlaces(m, inline);
    StoragesPlaces(m1, n);
    CatalogPlaces(m2, n);
    LinkPlaces(m3, n);
    LinksPlaces(m4, n);
    assert SameAt(m1, m2, "manifests-catalog") && SameAt(m2, m4, "backends") && SameAt(m3, m4, "manifests-catalog");
  }

  lemma HiddenKept(m: Fields, n: int)
    requires Bounded(Dict(m), n) && UpdateObsolete(m, true, n).Ok?
    ensures var r := UpdateObsolete(m, true, n).value;
            (Hidden(Dict(r)) <==> Hidden(Dict(m))) && (IsContainer(Dict(r)) <==> IsContainer(Dict(m)))
  {
    UpdatedPlaces(m, true, n);
    ReplacedPlaces(m, true);
    ReplacedHidden(m);
    hide UpdateObsolete, Replaced;
  }

  lemma ReplacedHidden(m: Fields)
    requires Replaced(m, true).Ok?
    ensures Hidden(Dict(Replaced(m, true).value)) <==> Hidden(Dict(m))
  {
    var r := Replaced(m, true).value;
    var names := m.Keys - {"version", "owner"};
    assert "version" !in r && "owner" !in r;
    if names == {"encrypted"} {
      assert r.Keys == {"encrypted"};
    }
    if r.Keys - {"version", "owner"} == {"encrypted"} {
      assert r.Keys == {"encrypted"};
      ReplacedPlaces(m, true);
      assert "encrypted" in m && "object" !in r;
      assert "manifest-pattern" !in r && "manifests-catalog" !in r;
      assert names == {"encrypted"};
    }
  }

  function Positive(n: int): nat { if n < 0 then 0 else n }

  lemma SameStoragesWhenKept(m: Fields, r: Fields)
    requires SameAt(m, r, "backends")
    ensures Storages(m) == Storages(r)
  {
  }

  lemma NamesKept(m: Fields, m1: Fields, r: Fields, inline: bool)
    requires Replaced(m, inline) == Ok(m1)
    requires r.Keys == m1.Keys && forall k, t :: Is(r, k, t) <==> Is(m1, k, t)
    ensures V1Names(r) <==> ReadyNames(m, inline)
  {
    hide Replaced;
    ReplacedPlaces(m, inline);
    assert IsLocal(r) <==> IsLocal(m1);
    assert SameAt(m, m1, "inner-container") && SameAt(m, m1, "signer") && SameAt(m, m1, "path");
  }

  /** The changes within version 1 leave exactly the manifests that were ready with its names. */
  lemma {:induction false} UpdateKeepsV1(m: Fields, inline: bool, n: int)
    requires Bounded(Dict(m), n) && UpdateObsolete(m, inline, n).Ok?
    ensures V1Current(UpdateObsolete(m, inline, n).value) <==> V1Ready(m, inline)
    decreases Positive(n), 2
  {
    assert n > 0;
    hide UpdateObsolete, Replaced, V1Current, V1Ready, Bounded, V1Names, ReadyNames, ReadyIn, CurrentIn, Updated, Storages, Catalog;
    var m1, r := Replaced(m, inline).value, UpdateObsolete(m, inline, n).value;
    UpdatedPlaces(m, inline, n);
    ReplacedPlaces(m, inline);
    NamesKept(m, m1, r, inline);
    assert SameAt(m, m1, "backends");
    SameStoragesWhenKept(m, m1);
    CurrentParts(r);
    ReadyParts(m, inline);
    UpdateKeepsList(Storages(m), Storages(r), n - 3);
    UpdateKeepsList(Catalog(m), Catalog(r), n - 2);
  }

  lemma {:induction false} UpdateKeepsList(vs: seq<Value>, us: seq<Value>, n: int)
    requires Updated(vs, us, n)
    ensures CurrentIn(us, Open) <==> ReadyIn(vs, Open)
    ensures CurrentIn(us, IsContainer) <==> ReadyIn(vs, IsContainer)
    decreases Positive(n), 3
  {
    hide V1Current, V1Ready, UpdateObsolete, Hidden, Is, Bounded;
    forall i | 0 <= i < |vs| && vs[i].Dict?
      ensures V1Current(us[i].fields) <==> V1Ready(vs[i].fields, true)
      ensures (Open(us[i]) <==> Open(vs[i])) && (IsContainer(us[i]) <==> IsContainer(vs[i]))
    {
      UpdateKeepsV1(vs[i].fields, true, n);
      HiddenKept(vs[i].fields, n);
    }
  }

  // ---- from no version to version 1 ----

  lemma ListToV1At(vs: seq<Value>, catalog: bool, i: nat)
    requires ListToV1(vs, catalog).Ok? && i < |vs|
    ensures |ListToV1(vs, catalog).value| == |vs| && ItemToV1(vs[i], catalog) == Ok(ListToV1(vs, catalog).value[i])
  {
    if i > 0 {
      ListToV1At(vs[1..], catalog, i - 1);
    } else if |vs| > 1 {
      ListToV1At(vs[1..], catalog, 0);
    }
  }

  /** Every inline manifest the step reaches is brought to version 1, the others stay. */
  ghost predicate Stepped(vs: seq<Value>, us: seq<Value>, catalog: bool) {
    && |us| == |vs|
    && forall i :: 0 <= i < |vs| ==> ItemToV1(vs[i], catalog) == Ok(us[i])
  }

  lemma SteppedAll(vs: seq<Value>, catalog: bool)
    requires ListToV1(vs, catalog).Ok?
    ensures Stepped(vs, ListToV1(vs, catalog).value, catalog)
  {
    forall i | 0 <= i < |vs| { ListToV1At(vs, catalog, i); }
  }

  /** How the names of a manifest change. */
  ghost predicate NamesMoved(m: Fields, r: Fields) {
    && "object" in r && ("object" in m ==> r["object"] == m["object"])
    && Moved(m, r, "inner-container", "reference-container")
    && (if "owner" in m then SameAt(m, r, "owner") && SameAt(m, r, "signer") else Moved(m, r, "signer", "owner"))
    && (if IsLocal(m) then Moved(m, r, "path", "location") else SameAt(m, r, "path") && SameAt(m, r, "location"))
    && SameAt(m, r, "type")
  }

  /** A value under its old name is found under the new one only. */
  ghost predicate Moved(m: Fields, r: Fields, from: string, to: string) {
    from !in r && if from in m then to in r && r[to] == m[from] else SameAt(m, r, to)
  }

  lemma WithObjectKeeps(m: Fields)
    requires WithObject(m).Ok?
    ensures "object" in WithObject(m).value && forall k :: k != "object" || k in m ==> SameAt(m, WithObject(m).value, k)
  {
  }

  /** The stages of a step: renames, the guess, what is nested, the path of a local storage. */
  lemma StepStages(m: Fields, addVersion: bool) returns (m2: Fields, m3: Fields, m4: Fields, m5: Fields, m6: Fields)
    requires ToVersion1(m, addVersion).Ok?
    ensures m2 == Renamed(if "owner" in m then m else Renamed(m, "signer", "owner"), "inner-container", "reference-container")
    ensures WithObject(m2) == Ok(m3)
    ensures HasStorages(m) ==> ListToV1(Storages(m), false).Ok? &&
                               m4 == m3["backends" := WithStorages(m, ListToV1(Storages(m), false).value)["backends"]]
    ensures !HasStorages(m) ==> m4 == m3
    ensures if "infrastructures" in m && m["infrastructures"].Items?
            then ListToV1(Catalog(m), true).Ok? && m5 == m4["infrastructures" := Items(ListToV1(Catalog(m), true).value)]
            else m5 == m4
    ensures m6 == if IsLocal(m5) then Renamed(m5, "path", "location") else m5
    ensures ToVersion1(m, addVersion).value == if addVersion then m6["version" := Scalar("1")] else m6
  {
    hide WithObject, ListToV1, BadBackends;
    m2 := Renamed(if "owner" in m then m else Renamed(m, "signer", "owner"), "inner-container", "reference-container");
    m3 := WithObject(m2).value;
    m4 := if HasStorages(m) then m3["backends" := WithStorages(m, ListToV1(Storages(m), false).value)["backends"]] else m3;
    m5 := if "infrastructures" in m && m["infrastructures"].Items?
          then m4["infrastructures" := Items(ListToV1(Catalog(m), true).value)] else m4;
    m6 := if IsLocal(m5) then Renamed(m5, "path", "location") else m5;
  }

  ghost predicate SameBut(m: Fields, r: Fields, names: set<string>) {
    forall k :: k !in names ==> SameAt(m, r, k)
  }

  lemma RenamedMoves(m: Fields, from: string, to: string)
    requires from != to
    ensures Moved(m, Renamed(m, from, to), from, to) && SameBut(m, Renamed(m, from, to), {from, to})
  {
  }

  /** The stages between the renames. */
  lemma MiddleKeeps(m: Fields, m2: Fields, m3: Fields, m4: Fields, m5: Fields)
    requires WithObject(m2) == Ok(m3)
    requires m4 == m3 || ("backends" in m && "backends" in m2 && "backends" in m4 && m4 == m3["backends" := m4["backends"]])
    requires m5 == m4 || ("infrastructures" in m && "infrastructures" in m2 && "infrastructures" in m5 && m5 == m4["infrastructures" := m5["infrastructures"]])
    ensures SameBut(m2, m5, {"object", "backends", "infrastructures"})
    ensures "object" in m5 && ("object" in m2 ==> m5["object"] == m2["object"])
  {
    WithObjectKeeps(m2);
    hide WithObject;
  }

  /** A step to version 1 moves every value to its new name. */
  lemma StepMoves(m: Fields, addVersion: bool)
    requires ToVersion1(m, addVersion).Ok?
    ensures NamesMoved(m, ToVersion1(m, addVersion).value)
    ensures "object" in ToVersion1(m, addVersion).value
    ensures addVersion ==> Is(ToVersion1(m, addVersion).value, "version", "1")
  {
    var m2, m3, m4, m5, m6 := StepStages(m, addVersion);
    var m1 := if "owner" in m then m else Renamed(m, "signer", "owner");
    RenamedMoves(m, "signer", "owner");
    RenamedMoves(m1, "inner-container", "reference-container");
    MiddleKeeps(m, m2, m3, m4, m5);
    RenamedMoves(m5, "path", "location");
    hide WithObject, ListToV1, WithStorages, HasStorages, ToVersion1, Renamed;
    StagesMove(m, m1, m2, m5, m6);
  }

  lemma StagesMove(m: Fields, m1: Fields, m2: Fields, m5: Fields, m6: Fields)
    requires if "owner" in m then m1 == m else Moved(m, m1, "signer", "owner") && SameBut(m, m1, {"signer", "owner"})
    requires Moved(m1, m2, "inner-container", "reference-container") && SameBut(m1, m2, {"inner-container", "reference-container"})
    requires SameBut(m2, m5, {"object", "backends", "infrastructures"})
    requires "object" in m5 && ("object" in m2 ==> m5["object"] == m2["object"])
    requires if IsLocal(m5) then Moved(m5, m6, "path", "location") && SameBut(m5, m6, {"path", "location"}) else m6 == m5
    ensures NamesMoved(m, m6) && NamesMoved(m, m6["version" := Scalar("1")])
  {
    assert SameAt(m, m1, "type") && SameAt(m1, m2, "type") && SameAt(m2, m5, "type");
    assert IsLocal(m5) == IsLocal(m);
    assert SameAt(m5, m6, "type") && SameAt(m5, m6, "object");
    assert SameAt(m, m1, "object") && SameAt(m1, m2, "object");
    assert SameAt(m, m1, "path") && SameAt(m1, m2, "path") && SameAt(m2, m5, "path");
    assert SameAt(m, m1, "location") && SameAt(m1, m2, "location") && SameAt(m2, m5, "location");
    assert SameAt(m1, m2, "owner") && SameAt(m2, m5, "owner") && SameAt(m5, m6, "owner");
    assert SameAt(m1, m2, "signer") && SameAt(m2, m5, "signer") && SameAt(m5, m6, "signer");
    assert SameAt(m, m1, "inner-container") && SameAt(m2, m5, "inner-container") && SameAt(m5, m6, "inner-container");
    assert SameAt(m, m1, "reference-container") && SameAt(m2, m5, "reference-container") && SameAt(m5, m6, "reference-container");
  }

  /** And steps through what is nested. */
  lemma StepPlaces(m: Fields, addVersion: bool)
    requires ToVersion1(m, addVersion).Ok?
    ensures var r := ToVersion1(m, addVersion).value;
            && Stepped(Storages(m), Storages(r), false)
            && (if "infrastructures" in m then "infrastructures" in r && Stepped(Catalog(m), Catalog(r), true)
                else "infrastructures" !in r && Catalog(r) == Catalog(m))
  {
    var m2, m3, m4, m5, m6 := StepStages(m, addVersion);
    var m1 := if "owner" in m then m else Renamed(m, "signer", "owner");
    RenamedMoves(m, "signer", "owner");
    RenamedMoves(m1, "inner-container", "reference-container");
    WithObjectKeeps(m2);
    RenamedMoves(m5, "path", "location");
    hide WithObject, ListToV1, ToVersion1, Stepped, Renamed, IsLocal, HasStorages, WithStorages, Storages, Catalog;
    SameThrough(m, m1, m2, m3, "backends");
    SameThrough(m, m1, m2, m3, "infrastructures");
    SameThrough(m, m1, m2, m3, "manifests-catalog");
    StepStorages(m, m3, m4);
    StepCatalog(m, m3, m4, m5);
    PlacesAddUp(m5, m6);
  }

  lemma SameThrough(m: Fields, m1: Fields, m2: Fields, m3: Fields, k: string)
    requires SameAt(m, m1, k) && SameAt(m1, m2, k) && SameAt(m2, m3, k)
    ensures SameAt(m, m3, k)
  {
  }

  lemma StepStorages(m: Fields, m3: Fields, m4: Fields)
    requires SameAt(m, m3, "backends")
    requires HasStorages(m) ==> ListToV1(Storages(m), false).Ok? &&
                                m4 == m3["backends" := WithStorages(m, ListToV1(Storages(m), false).value)["backends"]]
    requires !HasStorages(m) ==> m4 == m3
    ensures Stepped(Storages(m), Storages(m4), false) && SameBut(m3, m4, {"backends"})
  {
    if HasStorages(m) { SteppedAll(Storages(m), false); }
    hide ListToV1;
  }

  lemma StepCatalog(m: Fields, m3: Fields, m4: Fields, m5: Fields)
    requires SameAt(m, m3, "infrastructures") && SameAt(m, m3, "manifests-catalog") && SameBut(m3, m4, {"backends"})
    requires if "infrastructures" in m && m["infrastructures"].Items?
             then ListToV1(Catalog(m), true).Ok? && m5 == m4["infrastructures" := Items(ListToV1(Catalog(m), true).value)]
             else m5 == m4
    ensures if "infrastructures" in m then "infrastructures" in m5 && Stepped(Catalog(m), Catalog(m5), true)
            else "infrastructures" !in m5 && Catalog(m5) == Catalog(m)
    ensures Storages(m5) == Storages(m4)
  {
    assert SameAt(m3, m4, "infrastructures") && SameAt(m3, m4, "manifests-catalog");
    if "infrastructures" in m && m["infrastructures"].Items? { SteppedAll(Catalog(m), true); }
    hide ListToV1;
  }

  lemma PlacesAddUp(m5: Fields, m6: Fields)
    requires SameBut(m5, m6, {"path", "location"})
    ensures Storages(m6) == Storages(m5) && Storages(m6["version" := Scalar("1")]) == Storages(m5)
    ensures Catalog(m6) == Catalog(m5) && Catalog(m6["version" := Scalar("1")]) == Catalog(m5)
    ensures "infrastructures" in m6 <==> "infrastructures" in m5
  {
    assert SameAt(m5, m6, "backends") && SameAt(m5, m6, "infrastructures") && SameAt(m5, m6, "manifests-catalog");
  }


  /** A storage that shows nothing but its ciphertext does not say what it is. */
  lemma HiddenIsNoManifest(m: Fields, addVersion: bool)
    requires Hidden(Dict(m))
    ensures ToVersion1(m, addVersion).Err?
  {
    var names := m.Keys - {"version", "owner"};
    assert "object" !in names && "user" !in names && "backends" !in names && "type" !in names && "pubkeys" !in names;
    assert "signer" !in names && "inner-container" !in names;
    assert WithObject(m).Err?;
  }

  lemma ObjectIsSeen(m: Fields)
    requires "object" in m
    ensures Open(Dict(m))
  {
    assert "object" in m.Keys - {"version", "owner"};
  }

  /** The step to version 1 makes exactly the manifests it can reach ready. */
  lemma {:induction false} StepReaches(m: Fields, addVersion: bool, inline: bool)
    requires ToVersion1(m, addVersion).Ok?
    ensures V1Ready(ToVersion1(m, addVersion).value, inline) <==> V1Reachable(m, inline)
    decreases Dict(m), 1
  {
    hide ToVersion1, V1Ready, V1Reachable, ReadyIn, ReachableIn, Storages, Catalog, Stepped;
    var r := ToVersion1(m, addVersion).value;
    StepMoves(m, addVersion);
    StepPlaces(m, addVersion);
    ReadyParts(r, inline);
    ReachableParts(m, inline);
    forall x | x in Storages(m) ensures x < Dict(m) { var i :| 0 <= i < |Storages(m)| && Storages(m)[i] == x; StoragesSmaller(m, i); }
    forall x | x in Catalog(m) ensures x < Dict(m) { var i :| 0 <= i < |Catalog(m)| && Catalog(m)[i] == x; CatalogSmaller(m, i); }
    StepReachesList(Dict(m), Storages(m), Storages(r), false);
    if "infrastructures" in m { StepReachesList(Dict(m), Catalog(m), Catalog(r), true); }
  }

  lemma {:induction false} StepReachesList(v: Value, vs: seq<Value>, us: seq<Value>, catalog: bool)
    requires Stepped(vs, us, catalog) && forall x :: x in vs ==> x < v
    ensures !catalog ==> (ReadyIn(us, Open) <==> ReachableIn(vs, Open))
    ensures catalog ==> (ReadyIn(us, IsContainer) <==> ReachableIn(vs, IsContainer))
    decreases v, 0
  {
    hide V1Ready, V1Reachable, ToVersion1;
    forall i | 0 <= i < |vs| && vs[i].Dict?
      ensures us[i].Dict?
      ensures catalog ==> (IsContainer(us[i]) <==> IsContainer(vs[i])) && (IsContainer(vs[i]) ==> (V1Ready(us[i].fields, true) <==> V1Reachable(vs[i].fields, true)))
      ensures !catalog ==> (Open(us[i]) <==> Open(vs[i])) && (Open(vs[i]) ==> (V1Ready(us[i].fields, true) <==> V1Reachable(vs[i].fields, true)))
    {
      var m := vs[i].fields;
      assert vs[i] in vs && vs[i] == Dict(m);
      if catalog && IsContainer(vs[i]) {
        StepReaches(m, true, true);
        StepMoves(m, true);
      } else if !catalog && m.Keys != {"encrypted"} {
        StepReaches(m, false, true);
        StepMoves(m, false);
        ObjectIsSeen(us[i].fields);
        if Hidden(vs[i]) { HiddenIsNoManifest(m, false); }
      }
    }
  }

  // ---- manifests of either kind, brought up to date ----

  /** Which manifests have the names of version 1 once they are up to date: a versioned one that was ready, and an
      unversioned one that the step to version 1 reaches. The others keep older names. */
  lemma V1AfterUpdate(m: Fields)
    requires UpdateVersion(m).Ok?
    ensures V1Current(UpdateVersion(m).value) <==> if "version" in m then V1Ready(m, false) else V1Reachable(m, false)
  {
    hide UpdateObsolete, ToVersion1, V1Current, V1Ready, V1Reachable, Bounded;
    var m1 := if "version" in m then m else ToVersion1(m, true).value;
    UpdateKeepsV1(m1, false, BoundOf(m1));
    if "version" !in m { StepReaches(m, true, false); }
  }

  /** A value that is no link is found under its new name. */
  ghost predicate Renames(m: Fields, r: Fields, from: string, to: string) {
    from !in r && (from in m && !IsLink(m[from]) ==> to in r && r[to] == m[from])
  }

  /** The values a manifest had under old names, and the types of today. */
  ghost predicate FieldsUpdated(m: Fields, r: Fields) {
    && Is(r, "version", "1")
    && Renames(m, r, "inner-container", "reference-container")
    && ("owner" !in m ==> Renames(m, r, "signer", "owner"))
    && (IsLocal(m) ==> Renames(m, r, "path", "location"))
    && ("signer" in r <==> "signer" in m && "owner" in m)
    && (Is(m, "type", "http-index") ==> Is(r, "type", "http"))
    && (Is(m, "type", "date-proxy") ==> Is(r, "type", "timeline"))
    && ("object" in m && !IsLink(m["object"]) ==> "object" in r && r["object"] == m["object"])
  }

  /** What becomes of the fields of an unversioned manifest itself, whatever is nested in it. */
  lemma UnversionedFields(m: Fields)
    requires "version" !in m && UpdateVersion(m).Ok?
    ensures V1Names(UpdateVersion(m).value) && FieldsUpdated(m, UpdateVersion(m).value)
  {
    hide UpdateObsolete, ToVersion1, Bounded, Replaced, NamesMoved, V1Names, ReadyNames, Updated;
    var m1 := ToVersion1(m, true).value;
    var r, n := UpdateVersion(m).value, BoundOf(m1);
    StepMoves(m, true);
    UpdatedPlaces(m1, false, n);
    var m2 := Replaced(m1, false).value;
    ReplacedFields(m1);
    NamesKept(m1, m2, r, false);
    forall k ensures k in m1 && k !in Touched() && !IsLink(m1[k]) ==> k in r && r[k] == m1[k] {
      if k in m1 && k !in Touched() {
        assert SameAt(m1, m2, k);
        FieldKept(m1, n, k);
      }
    }
    FieldsAddUp(m, m1, m2, r);
  }

  /** The fields that changes within version 1 touch. */
  function Touched(): set<string> {
    {"type", "subcontainers", "manifest-pattern", "infrastructures", "manifests-catalog", "backends", "storage"}
  }

  lemma FieldsAddUp(m: Fields, m1: Fields, m2: Fields, r: Fields)
    requires NamesMoved(m, m1) && Is(m1, "version", "1") && SameBut(m1, m2, Touched() - {"backends", "storage"})
    requires Is(m1, "type", "http-index") ==> Is(m2, "type", "http")
    requires Is(m1, "type", "date-proxy") ==> Is(m2, "type", "timeline")
    requires forall k :: k in m1 && k !in Touched() && !IsLink(m1[k]) ==> k in r && r[k] == m1[k]
    requires r.Keys == m2.Keys && (forall k, t :: Is(r, k, t) <==> Is(m2, k, t)) && (V1Names(r) <==> ReadyNames(m1, false))
    ensures V1Names(r) && FieldsUpdated(m, r)
  {
    assert SameAt(m1, m2, "version") && SameAt(m1, m2, "inner-container") && SameAt(m1, m2, "signer") && SameAt(m1, m2, "path");
    assert SameAt(m, m1, "type");
    assert Is(r, "version", "1") <==> Is(m2, "version", "1");
    assert ReadyNames(m1, false);
    hide V1Names, ReadyNames;
  }

  lemma ReplacedFields(m: Fields)
    requires Replaced(m, false).Ok? && "object" in m
    ensures var r := Replaced(m, false).value;
            && (Is(m, "type", "http-index") ==> Is(r, "type", "http"))
            && (Is(m, "type", "date-proxy") ==> Is(r, "type", "timeline"))
            && SameBut(m, r, Touched() - {"backends", "storage"})
  {
  }

  lemma FieldKept(m: Fields, n: int, k: string)
    requires Bounded(Dict(m), n) && UpdateObsolete(m, false, n).Ok? && k !in {"backends", "manifests-catalog", "storage"}
    ensures Replaced(m, false).Ok?
    ensures var m1 := Replaced(m, false).value;
            k in m1 && !IsLink(m1[k]) ==> k in UpdateObsolete(m, false, n).value && UpdateObsolete(m, false, n).value[k] == m1[k]
  {
    hide UpdateObsolete, Replaced, StoragesUpdated, CatalogUpdated, LinkUpdated, LinksUpdated, Bounded, Updated;
    var m1, m2, m3, m4 := Stages(m, false, n);
    StoragesPlaces(m1, n);
    ReplacedPlaces(m, false);
    CatalogPlaces(m2, n);
    LinkPlaces(m3, n);
    LinksKeys(m4, n);
    if k in m4 { LinkIsUpdated(m4, n, k); }
  }

  // ---- manifests that keep older names ----

  /** A manifest that has a version is not looked through for names older than version 1. */
  lemma VersionedKeepsOldNames(path: Value)
    requires !path.Dict?
    ensures var m := map["version" := Scalar("1"), "object" := Scalar("container"), "inner-container" := path];
            UpdateVersion(m) == Ok(m) && !V1Current(m)
  {
    var m := map["version" := Scalar("1"), "object" := Scalar("container"), "inner-container" := path];
    assert Migrated(m, false);
    MigratedStays(m, false, BoundOf(m));
  }

  /** Nor is a catalogue that has its new name, in an unversioned manifest. */
  lemma NewCatalogKeepsOldNames(path: Value)
    requires !path.Dict?
    ensures var m := map["object" := Scalar("user"),
                         "manifests-catalog" := Items([Dict(map["object" := Scalar("container"), "inner-container" := path])])];
            UpdateVersion(m) == Ok(m["version" := Scalar("1")]) && !V1Current(m["version" := Scalar("1")])
  {
    var e := map["object" := Scalar("container"), "inner-container" := path];
    var m := map["object" := Scalar("user"), "manifests-catalog" := Items([Dict(e)])];
    var r := m["version" := Scalar("1")];
    UserSteps(m);
    assert Catalog(r) == [Dict(e)];
    OldNameIsLeft(r, e);
    hide V1Current, ToVersion1;
    UserIsMigrated(r, e);
    hide Migrated, Catalog;
    MigratedStays(r, false, BoundOf(r));
  }

  lemma UserSteps(m: Fields)
    requires m.Keys == {"object", "manifests-catalog"}
    ensures ToVersion1(m, true) == Ok(m["version" := Scalar("1")])
  {
  }

  lemma UserIsMigrated(r: Fields, e: Fields)
    requires r.Keys == {"object", "manifests-catalog", "version"} && r["manifests-catalog"] == Items([Dict(e)])
    requires Is(r, "object", "user") && !IsLink(r["version"])
    requires e.Keys == {"object", "inner-container"} && Is(e, "object", "container") && !e["inner-container"].Dict?
    ensures Migrated(r, false)
  {
    assert Migrated(e, true);
    assert MigratedList([Dict(e)]);
    assert forall k :: k in r ==> !IsLink(r[k]);
  }

  lemma OldNameIsLeft(r: Fields, e: Fields)
    requires Catalog(r) == [Dict(e)] && Is(e, "object", "container") && "inner-container" in e
    ensures !V1Current(r)
  {
    assert IsContainer(Catalog(r)[0]);
  }

  /** A dictionary whose own fields are the only ones out of date. */
  lemma {:induction false} OnlyReplaced(m: Fields, r: Fields, inline: bool, n: int)
    requires Bounded(Dict(m), n) && Replaced(m, inline) == Ok(r) && Migrated(r, inline)
    ensures UpdateObsolete(m, inline, n) == Ok(r)
  {
    hide Replaced, StoragesUpdated, CatalogUpdated, LinkUpdated, LinksUpdated;
    ReplacedBounded(m, inline, n);
    StoragesStay(r, n);
    CatalogStays(r, n);
    LinkStays(r, n);
    LinksStay(r, n);
  }

  /** A dictionary whose inline storages are the only manifests out of date. */
  lemma OnlyStorages(m: Fields, r: Fields, n: int)
    requires Bounded(Dict(m), n) && Current(m, false) && StoragesUpdated(m, n) == Ok(r) && Migrated(r, false)
    ensures UpdateObsolete(m, false, n) == Ok(r)
  {
    hide Replaced, StoragesUpdated, CatalogUpdated, LinkUpdated, LinksUpdated;
    CurrentStays(m, false);
    CatalogStays(r, n);
    LinkStays(r, n);
    LinksStay(r, n);
  }

  lemma UpdateOne(v: Value, u: Value, n: int)
    requires n >= 0 && Bounded(v, n) && UpdateItem(v, true, n) == Ok(u)
    ensures UpdateList([v], n) == Ok([u])
  {
    hide UpdateItem;
    assert [v][1..] == [] && UpdateList([v][1..], n) == Ok([]);
    assert [u] + [] == [u];
  }

  lemma StepOne(v: Value, u: Value, catalog: bool)
    requires ItemToV1(v, catalog) == Ok(u)
    ensures ListToV1([v], catalog) == Ok([u])
  {
    hide ItemToV1;
    assert [v][1..] == [] && ListToV1([v][1..], catalog) == Ok([]);
    assert [u] + [] == [u];
  }

  function OneStorage(e: Fields): Value { Dict(map["storage" := Items([Dict(e)])]) }

  lemma OneStorageSteps(m: Fields, e: Fields)
    requires m == map["object" := Scalar("container"), "backends" := OneStorage(e)]
    requires "owner" in e && "inner-container" !in e && "object" in e && "type" !in e && "backends" !in e && "infrastructures" !in e
    ensures ToVersion1(m, true) == Ok(m["version" := Scalar("1")])
  {
    assert ToVersion1(e, false) == Ok(e);
    assert "object" in e.Keys && e.Keys != {"encrypted"};
    StepOne(Dict(e), Dict(e), false);
    SameStorages(m);
    hide ListToV1;
  }

  lemma OneStorageUpdated(m: Fields, e: Fields, u: Fields, n: int)
    requires Bounded(Dict(m), n) && "backends" in m && m["backends"] == OneStorage(e)
    requires forall k: int :: Bounded(Dict(e), k) ==> UpdateObsolete(e, true, k) == Ok(u)
    ensures StoragesUpdated(m, n) == Ok(m["backends" := OneStorage(u)])
  {
    hide UpdateObsolete, UpdateList;
    assert Bounded(m["backends"], n - 1) && Bounded(m["backends"].fields["storage"], n - 2);
    assert Bounded(m["backends"].fields["storage"].items[0], n - 3);
    UpdateOne(Dict(e), Dict(u), n - 3);
    hide Bounded;
    assert m["backends"].fields["storage" := Items([Dict(u)])] == OneStorage(u).fields;
  }

  /** An inline storage with a signer beside its owner loses the owner and keeps the signer. */
  lemma InlineSignerStays(owner: Value, signer: Value)
    requires !owner.Dict? && !signer.Dict?
    ensures var e := map["object" := Scalar("storage"), "signer" := signer];
            var m := map["object" := Scalar("container"), "backends" := OneStorage(e["owner" := owner])];
            var r := map["object" := Scalar("container"), "version" := Scalar("1"), "backends" := OneStorage(e)];
            UpdateVersion(m) == Ok(r) && !V1Current(r)
  {
    hide V1Current, ToVersion1, Migrated, Bounded, UpdateObsolete;
    var e := map["object" := Scalar("storage"), "signer" := signer];
    var o := e["owner" := owner];
    var m := map["object" := Scalar("container"), "backends" := OneStorage(o)];
    var r := map["object" := Scalar("container"), "version" := Scalar("1"), "backends" := OneStorage(e)];
    var m1 := m["version" := Scalar("1")];
    OneStorageSteps(m, o);
    OwnerTaken(o, e);
    var n := BoundOf(m1);
    SignerIsLeft(r, e);
    assert m1["backends" := OneStorage(e)] == r;
    StorageReplaced(m1, o, e, n);
  }

  lemma OwnerTaken(o: Fields, e: Fields)
    requires o.Keys == {"object", "signer", "owner"} && e == o - {"owner"}
    requires Is(e, "object", "storage") && !e["signer"].Dict?
    ensures forall n: int :: Bounded(Dict(o), n) ==> UpdateObsolete(o, true, n) == Ok(e)
    ensures Migrated(e, true)
  {
    assert o - {"version", "owner"} == e;
    assert Replaced(o, true) == Ok(e);
    assert Migrated(e, true);
    hide UpdateObsolete, Replaced, Migrated, Bounded;
    forall n: int | Bounded(Dict(o), n) ensures UpdateObsolete(o, true, n) == Ok(e) { OnlyReplaced(o, e, true, n); }
  }

  lemma StorageReplaced(m: Fields, o: Fields, e: Fields, n: int)
    requires Bounded(Dict(m), n) && m.Keys == {"object", "version", "backends"} && m["backends"] == OneStorage(o)
    requires Is(m, "object", "container") && Is(m, "version", "1") && Migrated(e, true)
    requires forall k: int :: Bounded(Dict(o), k) ==> UpdateObsolete(o, true, k) == Ok(e)
    ensures UpdateObsolete(m, false, n) == Ok(m["backends" := OneStorage(e)])
  {
    hide UpdateObsolete, Bounded;
    var r := m["backends" := OneStorage(e)];
    OneStorageUpdated(m, o, e, n);
    assert forall k :: k in r ==> !IsLink(r[k]);
    assert MigratedList([Dict(e)]);
    assert Migrated(r, false);
    OnlyStorages(m, r, n);
  }

  lemma SignerIsLeft(r: Fields, e: Fields)
    requires "backends" in r && r["backends"] == OneStorage(e) && "signer" in e && "owner" !in e && "object" in e
    ensures !V1Current(r)
  {
    ObjectIsSeen(e);
    assert Storages(r)[0] == Dict(e);
  }
}
