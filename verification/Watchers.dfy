/** Lazily mounted storages, and the registry of the watches set on them. */
module Watchers {
  import opened Prelude

  datatype FsError = WildlandError | KeyError | AssertionError

  datatype Backend = Backend(id: nat, readOnly: bool)

  /** A dictionary of storages that are mounted on first use and unmounted when deleted. */
  class LazyStorageDict {
    var storages: map<nat, Backend>
    var initialized: map<nat, bool>
    // Every request_mount and request_unmount so far.
    ghost var requested: multiset<nat>
    ghost var released: multiset<nat>

    /** The storages mounted now. */
    ghost function Ready(): set<nat>
      reads this
    {
      set id | id in initialized && initialized[id]
    }

    /** Requests to mount and to unmount are balanced, but for the storages mounted now. */
    ghost predicate Valid()
      reads this
    {
      && storages.Keys == initialized.Keys
      && forall id :: requested[id] == released[id] + if id in Ready() then 1 else 0
    }

    constructor ()
      ensures Valid() && storages == map[]
    {
      storages, initialized, requested, released := map[], map[], multiset{}, multiset{};
    }

    /** `up` says whether the backend can be mounted, if this is what it takes. */
    method Get(key: nat, up: bool) returns (r: Result<Backend, FsError>)
      requires Valid()
      modifies this
      ensures Valid() && storages == old(storages)
      ensures r == if key !in storages then Err(KeyError)
                   else if key in old(Ready()) || up then Ok(storages[key])
                   else Err(WildlandError)
      ensures Ready() == old(Ready()) + if r.Ok? then {key} else {}
      ensures key in old(Ready()) ==> unchanged(this)
    {
      if key !in storages {
        return Err(KeyError);
      }
      if initialized[key] {
        return Ok(storages[key]);
      }
      if !up {
        return Err(WildlandError);
      }
      ghost var before := Ready();
      requested := requested + multiset{key};
      initialized := initialized[key := true];
      assert Ready() == before + {key};
      return Ok(storages[key]);
    }

    /** Storages are put under new ids only. */
    method Put(key: nat, value: Backend)
      requires Valid() && key !in storages
      modifies this
      ensures Valid() && storages == old(storages)[key := value] && Ready() == old(Ready())
    {
      storages := storages[key := value];
      initialized := initialized[key := false];
      assert Ready() == old(Ready());
    }

    method Delete(key: nat)
      requires Valid() && key in storages
      modifies this
      ensures Valid() && storages == old(storages) - {key} && Ready() == old(Ready()) - {key}
    {
      if initialized[key] {
        released := released + multiset{key};
      }
      storages := storages - {key};
      initialized := initialized - {key};
      assert Ready() == old(Ready()) - {key};
    }
  }

  datatype Watch = Watch(storageId: nat, pattern: string, handler: nat)

  class FSWatchers {
    var watches: map<nat, Watch>
    var storageWatches: map<nat, set<nat>>
    var watchers: set<nat>
    var watchCounter: nat
    // Every start and stop of a watcher so far.
    ghost var started: multiset<nat>
    ghost var stopped: multiset<nat>

    ghost function WatchesOn(storageId: nat): set<nat>
      reads this
    {
      set w | w in watches && watches[w].storageId == storageId
    }

    /** storage_watches lists exactly the live watches of each storage, a running watcher has a watch,
        and starts and stops are balanced, but for the watchers running now. */
    ghost predicate Valid()
      reads this
    {
      && Indexed()
      && (forall s :: s in watchers ==> WatchesOn(s) != {})
      && (forall s :: started[s] == stopped[s] + if s in watchers then 1 else 0)
    }

    /** Watches are set on known storages, and watchers run on mounted ones. */
    ghost predicate InStepWith(storages: LazyStorageDict)
      reads this, storages
    {
      && watchers <= storages.Ready()
      && forall w :: w in watches ==> watches[w].storageId in storages.storages
    }

    constructor ()
      ensures Valid() && watches == map[] && watchers == {}
    {
      watches, storageWatches, watchers, watchCounter := map[], map[], {}, 1;
      started, stopped := multiset{}, multiset{};
    }

    /** storage_watches lists exactly the live watches of each storage. */
    ghost predicate Indexed()
      reads this
    {
      && (forall s :: s in storageWatches ==> storageWatches[s] == WatchesOn(s))
      && (forall w :: w in watches ==> w < watchCounter && watches[w].storageId in storageWatches)
    }

    /** Enters a watch in both tables, under a new id. */
    method Register(watch: Watch) returns (id: nat)
      requires Indexed()
      modifies this`watches, this`storageWatches, this`watchCounter
      ensures Indexed() && watch.storageId in storageWatches
      ensures id == old(watchCounter) && id !in old(watches) && watchCounter == id + 1
      ensures watches == old(watches)[id := watch]
      ensures WatchesOn(watch.storageId) == old(WatchesOn(watch.storageId)) + {id}
      ensures forall s :: s != watch.storageId ==> WatchesOn(s) == old(WatchesOn(s))
    {
      id := watchCounter;
      var s := watch.storageId;
      ghost var before := WatchesOn(s);
      if s !in storageWatches {
        storageWatches := storageWatches[s := {}];
      }
      watches := watches[id := watch];
      storageWatches := storageWatches[s := storageWatches[s] + {id}];
      watchCounter := watchCounter + 1;
      assert WatchesOn(s) == before + {id};
      assert forall t :: t != s ==> WatchesOn(t) == old(WatchesOn(t));
    }

    /** Removes a watch from both tables. */
    method Unregister(watchId: nat)
      requires Indexed() && watchId in watches
      modifies this`watches, this`storageWatches
      ensures Indexed() && watches == old(watches) - {watchId}
      ensures forall s :: WatchesOn(s) == old(WatchesOn(s)) - {watchId}
    {
      var s := watches[watchId].storageId;
      storageWatches := storageWatches[s := storageWatches[s] - {watchId}];
      watches := watches - {watchId};
      assert forall t :: WatchesOn(t) == old(WatchesOn(t)) - {watchId};
    }

    /** Registers a watch under a new id; the first watch of a storage starts its watcher, if it provides
        one. When the storage cannot be mounted for that, the watch stays registered all the same. */
    method AddWatch(storages: LazyStorageDict, storageId: nat, pattern: string, handler: nat, up: bool, watchable: bool)
      returns (r: Result<nat, FsError>)
      requires Valid() && storages.Valid() && InStepWith(storages) && storageId in storages.storages
      modifies this, storages
      ensures Valid() && storages.Valid() && InStepWith(storages) && storages.storages == old(storages.storages)
      ensures watches == old(watches)[old(watchCounter) := Watch(storageId, pattern, handler)]
      ensures old(watchCounter) !in old(watches) && watchCounter == old(watchCounter) + 1
      ensures WatchesOn(storageId) == old(WatchesOn(storageId)) + {old(watchCounter)}
      ensures |WatchesOn(storageId)| == |old(WatchesOn(storageId))| + 1
      ensures r.Ok? ==> r.value == old(watchCounter)
      ensures r.Err? <==> old(WatchesOn(storageId)) == {} && storageId !in old(storages.Ready()) && !up
      ensures watchers == old(watchers) + if r.Ok? && old(WatchesOn(storageId)) == {} && watchable then {storageId} else {}
      ensures storages.Ready() == old(storages.Ready()) + if r.Ok? && old(WatchesOn(storageId)) == {} then {storageId} else {}
    {
      var id := Register(Watch(storageId, pattern, handler));
      assert old(WatchesOn(storageId)) == {} <==> |WatchesOn(storageId)| == 1 by {
        if |WatchesOn(storageId)| == 1 { OnlyElement(WatchesOn(storageId), id); }
      }
      if |storageWatches[storageId]| == 1 {
        var ok := StartWatcher(storages, storageId, up, watchable);
        if !ok {
          return Err(WildlandError);
        }
      }
      return Ok(id);
    }

    /** Starts the watcher of a storage that has none, mounting the storage for it. */
    method StartWatcher(storages: LazyStorageDict, storageId: nat, up: bool, watchable: bool) returns (ok: bool)
      requires Valid() && storages.Valid() && InStepWith(storages)
      requires storageId !in watchers && WatchesOn(storageId) != {} && storageId in storages.storages
      modifies this`watchers, this`started, storages
      ensures Valid() && storages.Valid() && InStepWith(storages) && storages.storages == old(storages.storages)
      ensures ok <==> storageId in old(storages.Ready()) || up
      ensures watchers == old(watchers) + if ok && watchable then {storageId} else {}
      ensures storages.Ready() == old(storages.Ready()) + if ok then {storageId} else {}
    {
      var storage := storages.Get(storageId, up);
      if storage.Err? {
        return false;
      }
      if watchable {
        watchers := watchers + {storageId};
        started := started + multiset{storageId};
      }
      return true;
    }

    lemma OnlyElement(s: set<nat>, x: nat)
      requires |s| == 1 && x in s
      ensures s == {x}
    {
      assert |s - {x}| == 0;
    }

    /** Stops the running watcher of a storage. */
    method StopWatcher(storages: LazyStorageDict, storageId: nat)
      requires Valid() && storages.Valid() && InStepWith(storages) && storageId in watchers
      modifies this`watchers, this`stopped, storages
      ensures Valid() && unchanged(storages) && watchers == old(watchers) - {storageId}
    {
      var storage := storages.Get(storageId, true);
      stopped := stopped + multiset{storageId};
      watchers := watchers - {storageId};
    }

    /** Removes a live watch; the last one of a storage stops its watcher. */
    method RemoveWatch(storages: LazyStorageDict, watchId: nat)
      requires Valid() && storages.Valid() && InStepWith(storages) && watchId in watches
      modifies this, storages
      ensures Valid() && unchanged(storages) && InStepWith(storages)
      ensures watches == old(watches) - {watchId} && watchCounter == old(watchCounter)
      ensures forall s :: WatchesOn(s) == old(WatchesOn(s)) - {watchId}
      ensures var s := old(watches[watchId].storageId);
              watchers == if old(WatchesOn(s)) == {watchId} then old(watchers) - {s} else old(watchers)
    {
      var s := watches[watchId].storageId;
      assert old(WatchesOn(s)) == {watchId} <==> |storageWatches[s]| == 1 by {
        if |storageWatches[s]| == 1 { OnlyElement(storageWatches[s], watchId); }
      }
      if |storageWatches[s]| == 1 && s in watchers {
        StopWatcher(storages, s);
      }
      Unregister(watchId);
    }

    /** Removes all watches of a storage, and stops its watcher. */
    method RemoveWatches(storages: LazyStorageDict, storageId: nat)
      requires Valid() && storages.Valid() && InStepWith(storages)
      modifies this, storages
      ensures Valid() && unchanged(storages) && InStepWith(storages)
      ensures watches == old(watches) - old(WatchesOn(storageId)) && watchCounter == old(watchCounter)
      ensures WatchesOn(storageId) == {} && watchers == old(watchers) - {storageId}
    {
      if storageId in storageWatches {
        var ids := storageWatches[storageId];
        ghost var all, start, running, counter := ids, watches, watchers, watchCounter;
        while ids != {}
          invariant Valid() && unchanged(storages) && InStepWith(storages)
          invariant watchCounter == counter
          invariant ids == WatchesOn(storageId) && ids <= all
          invariant watches == start - (all - ids)
          invariant watchers == if ids == {} then running - {storageId} else running
          decreases ids
        {
          var id :| id in ids;
          RemoveWatch(storages, id);
          ids := ids - {id};
        }
      }
    }

    /** The close handler of a connection: its watch may have gone with the storage already. */
    method CleanupWatch(storages: LazyStorageDict, watchId: nat)
      requires Valid() && storages.Valid() && InStepWith(storages)
      modifies this, storages
      ensures Valid() && unchanged(storages) && InStepWith(storages)
      ensures watches == old(watches) - {watchId} && watchCounter == old(watchCounter)
      ensures watchId !in old(watches) ==> unchanged(this)
    {
      if watchId in watches {
        RemoveWatch(storages, watchId);
      }
    }

    /** The watches to tell about a change made through this mount: those of a storage that has no
        watcher of its own. */
    method ToNotify(storageId: nat) returns (ids: set<nat>)
      requires Valid()
      ensures ids == if storageId in watchers then {} else WatchesOn(storageId)
    {
      if storageId !in storageWatches {
        return {};
      }
      if storageId in watchers {
        return {};
      }
      return storageWatches[storageId];
    }
  }

  /** The first watch of a storage that cannot be mounted fails and stays. From then on watches can be set on the
      storage, however many: none of them starts its watcher. */
  method LeftWatchKeepsWatcherOff(ws: FSWatchers, storages: LazyStorageDict, storageId: nat, patterns: seq<string>, handler: nat)
    requires ws.Valid() && storages.Valid() && ws.InStepWith(storages)
    requires storageId in storages.storages && storageId !in storages.Ready() && ws.WatchesOn(storageId) == {}
    modifies ws, storages
    ensures ws.Valid() && storages.Valid() && ws.InStepWith(storages) && storages.storages == old(storages.storages)
    ensures storageId !in ws.watchers && storageId !in storages.Ready()
    ensures |ws.WatchesOn(storageId)| == |patterns| + 1
  {
    assert storageId !in ws.watchers;
    hide FSWatchers.Valid, LazyStorageDict.Valid, FSWatchers.WatchesOn, FSWatchers.InStepWith, LazyStorageDict.Ready;
    var r := ws.AddWatch(storages, storageId, "", handler, false, true);
    for k := 0 to |patterns|
      invariant ws.Valid() && storages.Valid() && ws.InStepWith(storages) && storages.storages == old(storages.storages)
      invariant storageId !in ws.watchers && storageId !in storages.Ready()
      invariant |ws.WatchesOn(storageId)| == k + 1
    {
      r := ws.AddWatch(storages, storageId, patterns[k], handler, true, true);
    }
  }
}
