/** The file system object: the mount table, the resolver, the lazily mounted storages and the watches. */
module WildlandFs {
  import opened Prelude
  import opened Mounts
  import opened Watchers
  import opened Resolver
  import opened Resolution
  import opened FileCreation
  import T = MountTable

  /** One item of a mount command; `eager` when the storage is to be mounted at once, `up` when it can be. */
  datatype Item = Item(paths: seq<Path>, storage: Backend, remount: bool, eager: bool, up: bool)

  class WildlandFS {
    const storages: LazyStorageDict
    const resolver: ConflictResolver
    const fileWatchers: FSWatchers
    const childrenWatchers: FSWatchers
    var storagePaths: map<nat, seq<Path>>
    var mainPaths: map<Path, nat>
    var storageCounter: nat

    /** The objects this one is made of. */
    ghost function Repr(): set<object>
      reads this, resolver
    {
      {this, storages, resolver, fileWatchers, childrenWatchers} + resolver.nodes.Values
    }

    /** Watches are on known storages, watchers run on mounted ones. Says nothing of the table itself. */
    ghost predicate Valid()
      reads Repr()
    {
      && fileWatchers != childrenWatchers
      && resolver.Valid() && storages.Valid() && fileWatchers.Valid() && childrenWatchers.Valid()
      && fileWatchers.InStepWith(storages) && childrenWatchers.InStepWith(storages)
      && forall id :: id in storages.storages ==> id < storageCounter
    }

    ghost function Table(): T.Table
      reads Repr()
    {
      T.Table(storages.storages.Keys, storagePaths, mainPaths, storageCounter, resolver.Mounts())
    }

    constructor ()
      ensures Valid() && fresh(Repr()) && Table() == T.EMPTY
    {
      hide LazyStorageDict.Valid, ConflictResolver.Valid, FSWatchers.Valid, ConflictResolver.Mounts;
      storages := new LazyStorageDict();
      resolver := new ConflictResolver();
      fileWatchers := new FSWatchers();
      childrenWatchers := new FSWatchers();
      storagePaths, mainPaths, storageCounter := map[], map[], 1;
    }

    /** Removes the watches of a storage from both registries. */
    method RemoveWatches(storageId: nat)
      requires Valid()
      modifies storages, fileWatchers, childrenWatchers
      ensures Valid() && unchanged(storages)
      ensures fileWatchers.WatchesOn(storageId) == {} && childrenWatchers.WatchesOn(storageId) == {}
      ensures storageId !in fileWatchers.watchers + childrenWatchers.watchers
    {
      hide ConflictResolver.Valid, ConflictResolver.Mounts, T.UnmountPaths;
      fileWatchers.RemoveWatches(storages, storageId);
      childrenWatchers.RemoveWatches(storages, storageId);
    }

    /** Deletes a storage that no watch is on. */
    method DeleteStorage(storageId: nat)
      requires Valid() && storageId in storages.storages
      requires fileWatchers.WatchesOn(storageId) == {} && childrenWatchers.WatchesOn(storageId) == {}
      modifies storages
      ensures Valid() && storages.storages.Keys == old(storages.storages.Keys) - {storageId}
    {
      hide ConflictResolver.Valid, ConflictResolver.Mounts, T.UnmountPaths;
      assert forall w :: w in fileWatchers.watches ==> fileWatchers.watches[w].storageId != storageId by {
        assert forall w :: w in fileWatchers.watches && fileWatchers.watches[w].storageId == storageId ==>
            w in fileWatchers.WatchesOn(storageId);
      }
      assert forall w :: w in childrenWatchers.watches ==> childrenWatchers.watches[w].storageId != storageId by {
        assert forall w :: w in childrenWatchers.watches && childrenWatchers.watches[w].storageId == storageId ==>
            w in childrenWatchers.WatchesOn(storageId);
      }
      storages.Delete(storageId);
    }

    /** The storage goes with its watches, whatever becomes of its paths. */
    method UnmountStorage(storageId: nat) returns (e: Option<FsError>)
      requires Valid()
      modifies Repr()
      ensures Valid() && Repr() <= old(Repr())
      ensures (Table(), e) == T.Unmount(old(Table()), storageId)
      ensures fileWatchers.WatchesOn(storageId) == {} && childrenWatchers.WatchesOn(storageId) == {}
    {
      hide ConflictResolver.Valid, ConflictResolver.Mounts, LazyStorageDict.Valid, FSWatchers.Valid, FSWatchers.InStepWith,
        T.UnmountPaths;
      RemoveWatches(storageId);
      ghost var before := Table();
      if storageId !in storages.storages || storageId !in storagePaths {
        e := Some(AssertionError);
      } else {
        DeleteStorage(storageId);
        e := RemovePaths(storageId, before);
      }
    }

    /** Takes the paths of a deleted storage out of the table and the tree; `before` is the table from
        before it was deleted. */
    method RemovePaths(storageId: nat, ghost before: T.Table) returns (e: Option<FsError>)
      requires Valid() && storageId in storagePaths
      requires storageId in before.live && Table() == before.(live := before.live - {storageId})
      modifies this, resolver, resolver.nodes.Values
      ensures Valid() && Repr() <= old(Repr())
      ensures (Table(), e) == T.Unmount(before, storageId)
    {
      hide ConflictResolver.Valid, ConflictResolver.Mounts, T.UnmountPaths;
      var paths := storagePaths[storageId];
      storagePaths := storagePaths - {storageId};
      if paths == [] || paths[0] !in mainPaths {
        e := Some(KeyError);
      } else {
        mainPaths := mainPaths - {paths[0]};
        var ok := UnmountAll(paths, storageId);
        e := if ok then None else Some(KeyError);
      }
    }

    /** The loop over the paths of a storage. */
    method UnmountAll(paths: seq<Path>, storageId: nat) returns (ok: bool)
      requires Valid()
      modifies resolver, resolver.nodes.Values
      ensures Valid() && Repr() <= old(Repr())
      ensures (resolver.Mounts(), ok) == T.UnmountPaths(old(resolver.Mounts()), paths, storageId)
    {
      var rest := paths;
      ok := true;
      while rest != []
        invariant Valid() && Repr() <= old(Repr())
        invariant ok && T.UnmountPaths(resolver.Mounts(), rest, storageId)
                        == T.UnmountPaths(old(resolver.Mounts()), paths, storageId)
        decreases |rest|
      {
        ghost var m := resolver.Mounts();
        ok := resolver.Unmount(rest[0], storageId);
        if !ok {
          assert resolver.Mounts() == m;
          return;
        }
        rest := rest[1..];
      }
    }

    /** Makes room for a mount: a storage with the same main path is unmounted, or in the way. */
    method Displace(mainPath: Path, remount: bool) returns (e: Option<FsError>)
      requires Valid()
      modifies Repr()
      ensures Valid() && Repr() <= old(Repr())
      ensures (Table(), e) == T.Displace(old(Table()), mainPath, remount)
    {
      hide ConflictResolver.Valid, ConflictResolver.Mounts, T.UnmountPaths;
      if mainPath !in mainPaths {
        e := None;
      } else if !remount {
        e := Some(WildlandError);
      } else {
        e := UnmountStorage(mainPaths[mainPath]);
      }
    }

    /** Mounts a storage under its paths; when it is to be mounted at once and cannot be, the error is
        raised with everything else done. */
    method MountStorage(paths: seq<Path>, storage: Backend, remount: bool, eager: bool, up: bool)
      returns (e: Option<FsError>)
      requires Valid()
      modifies Repr()
      ensures Valid() && fresh(Repr() - old(Repr()))
      ensures var (t, raised) := T.Mount(old(Table()), paths, remount);
              Table() == t && e == if raised.None? && eager && !up then Some(WildlandError) else raised
    {
      hide ConflictResolver.Valid, ConflictResolver.Mounts, LazyStorageDict.Valid, FSWatchers.Valid, FSWatchers.InStepWith,
        T.UnmountPaths, T.Unmount, T.Displace, T.Enter;
      if paths == [] {
        return Some(AssertionError);
      }
      e := Displace(paths[0], remount);
      if e.None? {
        var ident := EnterStorage(paths, storage);
        if eager {
          var ok := MountNow(ident, up);
          e := if ok then None else Some(WildlandError);
        }
      }
    }

    /** Mounts a storage that was entered but not mounted. */
    method MountNow(ident: nat, up: bool) returns (ok: bool)
      requires Valid() && ident in storages.storages && ident !in storages.Ready()
      modifies storages
      ensures Valid() && Table() == old(Table()) && ok == up
    {
      hide ConflictResolver.Valid, ConflictResolver.Mounts, T.UnmountPaths;
      var backend := storages.Get(ident, up);
      ok := backend.Ok?;
    }

    /** Enters a storage in the table, under a new id, and in the tree. */
    method EnterStorage(paths: seq<Path>, storage: Backend) returns (ident: nat)
      requires Valid() && paths != []
      modifies Repr()
      ensures Valid() && fresh(Repr() - old(Repr()))
      ensures Table() == T.Enter(old(Table()), paths)
      ensures ident in storages.storages && ident !in storages.Ready()
    {
      hide ConflictResolver.Valid, ConflictResolver.Mounts, T.UnmountPaths;
      ident := PutStorage(paths, storage);
      MountAll(paths, ident);
    }

    method PutStorage(paths: seq<Path>, storage: Backend) returns (ident: nat)
      requires Valid() && paths != []
      modifies this, storages
      ensures Valid() && Repr() == old(Repr())
      ensures ident == old(storageCounter)
      ensures Table() == T.Enter(old(Table()), paths).(mounts := old(Table()).mounts)
      ensures ident in storages.storages && ident !in storages.Ready()
    {
      hide ConflictResolver.Valid, ConflictResolver.Mounts, T.UnmountPaths;
      ident := storageCounter;
      storageCounter := storageCounter + 1;
      storages.Put(ident, storage);
      storagePaths := storagePaths[ident := paths];
      mainPaths := mainPaths[paths[0] := ident];
    }

    method MountAll(paths: seq<Path>, storageId: nat)
      requires Valid()
      modifies resolver, resolver.nodes.Values
      ensures Valid() && fresh(Repr() - old(Repr()))
      ensures Table() == old(Table()).(mounts := old(Table()).mounts + T.PathsOf(paths, storageId))
    {
      ghost var start := resolver.Mounts();
      assert T.PathsOf(paths[..0], storageId) == {};
      for i := 0 to |paths|
        invariant Valid() && fresh(Repr() - old(Repr()))
        invariant resolver.Mounts() == start + T.PathsOf(paths[..i], storageId)
      {
        T.PathsOfStep(start, paths, i, storageId);
        resolver.Mount(paths[i], storageId);
      }
      assert paths[..|paths|] == paths;
    }

    // ---- control commands ----

    /** Every item is tried up to one without paths; an error of one does not stop the next. */
    method ControlMount(items: seq<Item>) returns (failed: bool)
      requires Valid()
      modifies Repr()
      ensures Valid() && fresh(Repr() - old(Repr()))
      ensures var n := FirstWithoutPaths(items);
              && Table() == T.Run(old(Table()), Commands(items[..n]))
              && (failed <==> n < |items| || exists k :: 0 <= k < n && ItemFails(old(Table()), items, k))
    {
      hide ConflictResolver.Valid, ConflictResolver.Mounts, T.Mount, LazyStorageDict.Valid, FSWatchers.Valid, ItemFails, T.Run,
        Commands;
      failed := false;
      NoItems(Table());
      ghost var start, n := Table(), FirstWithoutPaths(items);
      assert items[..0] == [];
      for i := 0 to |items|
        invariant Valid() && fresh(Repr() - old(Repr()))
        invariant i <= n && Table() == T.Run(start, Commands(items[..i]))
        invariant failed <==> exists k :: 0 <= k < i && ItemFails(start, items, k)
      {
        var item := items[i];
        if item.paths == [] {
          return true;
        }
        ItemStep(start, items, i);
        var e := MountStorage(item.paths, item.storage, item.remount, item.eager, item.up);
        failed := failed || e.Some?;
      }
      assert items[..|items|] == items;
    }

    method ControlUnmount(storageId: nat) returns (e: Option<FsError>)
      requires Valid()
      modifies Repr()
      ensures Valid() && Repr() <= old(Repr())
      ensures (Table(), e) == T.Step(old(Table()), T.UnmountCommand(storageId))
    {
      if storageId !in storages.storages {
        return Some(WildlandError);
      }
      e := UnmountStorage(storageId);
    }

    /** A watch is set on a known storage, under a new id; the storage is mounted for the first one. When it cannot
        be, the call fails and the watch stays. */
    method ControlAddWatch(storageId: nat, pattern: string, handler: nat, up: bool, watchable: bool)
      returns (r: Result<nat, FsError>)
      requires Valid()
      modifies fileWatchers, storages
      ensures Valid() && Table() == old(Table())
      ensures if "/" <= pattern || storageId !in old(storages.storages) then
                r == Err(WildlandError) && unchanged(fileWatchers) && unchanged(storages)
              else
                && fileWatchers.watches == old(fileWatchers.watches)[old(fileWatchers.watchCounter) := Watch(storageId, pattern, handler)]
                && old(fileWatchers.watchCounter) !in old(fileWatchers.watches)
                && fileWatchers.watchCounter == old(fileWatchers.watchCounter) + 1
                && storages.Ready() == old(storages.Ready()) + (if r.Ok? && old(fileWatchers.WatchesOn(storageId)) == {} then {storageId} else {})
                && (r.Err? <==> old(fileWatchers.WatchesOn(storageId)) == {} && storageId !in old(storages.Ready()) && !up)
                && (r.Ok? ==> r.value == old(fileWatchers.watchCounter))
                && fileWatchers.watchers == old(fileWatchers.watchers)
                     + if r.Ok? && old(fileWatchers.WatchesOn(storageId)) == {} && watchable then {storageId} else {}
    {
      hide ConflictResolver.Valid, ConflictResolver.Mounts, LazyStorageDict.Valid, FSWatchers.Valid;
      if "/" <= pattern || storageId !in storages.storages {
        return Err(WildlandError);
      }
      r := fileWatchers.AddWatch(storages, storageId, pattern, handler, up, watchable);
    }

    /** A connection closes: its watch goes, if unmounting has not taken it already. */
    method CloseWatch(watchId: nat)
      requires Valid()
      modifies fileWatchers, storages
      ensures Valid() && Table() == old(Table())
      ensures fileWatchers.watches == old(fileWatchers.watches) - {watchId}
      ensures watchId !in old(fileWatchers.watches) ==> unchanged(fileWatchers)
    {
      hide ConflictResolver.Valid, ConflictResolver.Mounts, LazyStorageDict.Valid, FSWatchers.Valid;
      fileWatchers.CleanupWatch(storages, watchId);
    }

    /** The storages by path; an id is listed once for each time its path list has the path. */
    method ControlPaths() returns (r: map<Path, seq<nat>>)
      ensures forall p, id :: Has(r, p, id) <==> id in storagePaths && p in storagePaths[id]
      ensures (forall id :: id in storagePaths ==> Distinct(storagePaths[id])) ==> forall p :: p in r ==> Distinct(r[p])
    {
      r := map[];
      var ids := storagePaths.Keys;
      while ids != {}
        invariant ids <= storagePaths.Keys
        invariant forall p, id :: Has(r, p, id) <==> id in storagePaths.Keys - ids && p in storagePaths[id]
        invariant (forall id :: id in storagePaths ==> Distinct(storagePaths[id])) ==> forall p :: p in r ==> Distinct(r[p])
        decreases ids
      {
        var id :| id in ids;
        r := AddPaths(r, id, storagePaths[id]);
        ids := ids - {id};
      }
    }

    /** Lists an id, so far not listed, under its paths. */
    static method AddPaths(before: map<Path, seq<nat>>, id: nat, paths: seq<Path>) returns (r: map<Path, seq<nat>>)
      requires forall p :: !Has(before, p, id)
      ensures forall p, k :: Has(r, p, k) <==> Has(before, p, k) || (k == id && p in paths)
      ensures Distinct(paths) && (forall p :: p in before ==> Distinct(before[p])) ==> forall p :: p in r ==> Distinct(r[p])
    {
      r := before;
      for j := 0 to |paths|
        invariant forall p, k :: Has(r, p, k) <==> Has(before, p, k) || (k == id && p in paths[..j])
        invariant Distinct(paths) && (forall p :: p in before ==> Distinct(before[p])) ==>
                    forall p :: p in r ==> Distinct(r[p])
      {
        var p := paths[j];
        assert paths[..j + 1] == paths[..j] + [p];
        assert Distinct(paths) ==> !Has(r, p, id);
        ghost var r0 := r;
        r := r[p := (if p in r then r[p] else []) + [id]];
        assert forall q, k :: Has(r, q, k) <==> Has(r0, q, k) || (q == p && k == id);
      }
      assert paths[..|paths|] == paths;
    }

    static predicate Has(r: map<Path, seq<nat>>, p: Path, id: nat) {
      p in r && id in r[p]
    }

    /** Creates a file in the directory `parent`, mounting the chosen storage for it if it can be (`up`); the storage
        offers create or not, and agrees or not. */
    method Create(w: World, parent: Path, name: string, up: bool, offered: bool, made: bool)
      returns (r: Result<Resolved, CreateError>, after: World)
      requires Valid()
      modifies resolver`cache, storages
      ensures Valid() && Table() == old(Table()) && ReadOnly() == old(ReadOnly())
      ensures var backing := BackingIn(old(storages.storages.Keys), old(storages.Ready()), up, offered, made);
              Creates(w, ReadOnly(), resolver.Mounts(), parent, name, backing, r, after)
    {
      hide ConflictResolver.Valid, ConflictResolver.Mounts, FSWatchers.Valid, LazyStorageDict.Valid, Masked;
      ghost var backing := BackingIn(storages.storages.Keys, storages.Ready(), up, offered, made);
      var v := Masked(w, ReadOnly());
      var answer := resolver.GetattrExtended(v, parent);
      ghost var expected := Target(answer, ReadOnly(), backing);
      if answer.Err? {
        r := Err(if answer.error == EACCES then IO(EROFS)
                 else if answer.error == InvalidName then IO(InvalidName) else AssertionFailed);
      } else if answer.value.1.None? {
        r := Err(IO(EROFS));
      } else {
        r := CreateIn(answer.value.1.value, up, offered, made);
      }
      assert r == expected;
      after := if r.Ok? then WithFile(w, r.value, name) else w;
    }

    /** The proxied call on the storage chosen. */
    method CreateIn(dir: Resolved, up: bool, offered: bool, made: bool) returns (r: Result<Resolved, CreateError>)
      requires Valid()
      modifies storages
      ensures Valid() && Table() == old(Table()) && storages.storages == old(storages.storages)
      ensures r == match BackingIn(old(storages.storages.Keys), old(storages.Ready()), up, offered, made)(dir.ident)
                   case NotMounted => Err(Unavailable)
                   case NoCreate => Err(IO(ENOSYS))
                   case Refuses => Err(IO(if dir.ident in ReadOnly() then EROFS else EIO(0)))
                   case Makes => if dir.ident in ReadOnly() then Err(IO(EROFS)) else Ok(dir)
    {
      hide ConflictResolver.Valid, ConflictResolver.Mounts, FSWatchers.Valid, LazyStorageDict.Valid;
      var storage := storages.Get(dir.ident, up);
      if storage.Err? {
        return Err(Unavailable);
      }
      if !offered {
        return Err(IO(ENOSYS));
      }
      if storage.value.readOnly {
        return Err(IO(EROFS));
      }
      return if made then Ok(dir) else Err(IO(EIO(0)));
    }

    function ReadOnly(): set<nat>
      reads storages
    {
      set id | id in storages.storages && storages.storages[id].readOnly
    }
  }

  /** What becomes of a call on each storage, given which are known and mounted. */
  function BackingIn(known: set<nat>, ready: set<nat>, up: bool, offered: bool, made: bool): nat -> Backing {
    id =>
      if id !in known || (id !in ready && !up) then NotMounted
      else if !offered then NoCreate
      else if made then Makes else Refuses
  }

  function FirstWithoutPaths(items: seq<Item>): (n: nat)
    ensures n <= |items| && (forall k :: 0 <= k < n ==> items[k].paths != []) && (n < |items| ==> items[n].paths == [])
  {
    if items == [] || items[0].paths == [] then 0 else 1 + FirstWithoutPaths(items[1..])
  }

  /** Item k raises when the items before it have been tried. */
  predicate ItemFails(t: T.Table, items: seq<Item>, k: nat)
    requires k < |items|
  {
    var raised := T.Mount(T.Run(t, Commands(items[..k])), items[k].paths, items[k].remount).1;
    raised.Some? || (items[k].eager && !items[k].up)
  }

  lemma NoItems(t: T.Table)
    ensures T.Run(t, Commands([])) == t
  {
  }

  lemma ItemStep(t: T.Table, items: seq<Item>, k: nat)
    requires k < |items|
    ensures var (u, raised) := T.Mount(T.Run(t, Commands(items[..k])), items[k].paths, items[k].remount);
            && T.Run(t, Commands(items[..k + 1])) == u
            && (ItemFails(t, items, k) <==> raised.Some? || (items[k].eager && !items[k].up))
  {
    hide T.Mount;
    assert items[..k + 1][..k] == items[..k];
    assert Commands(items[..k + 1])[..k] == Commands(items[..k]);
  }

  function Commands(items: seq<Item>): (cs: seq<T.Command>)
    ensures |cs| == |items|
  {
    seq(|items|, i requires 0 <= i < |items| => T.MountCommand(items[i].paths, items[i].remount))
  }
}
