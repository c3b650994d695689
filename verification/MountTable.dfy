/** The table of mounted storages: what each control command does to it, and what every run keeps. */
module MountTable {
  import opened Prelude
  import opened Mounts
  import opened Watchers

  /** storages (by id), storage_paths, main_paths, storage_counter, and the pairs in the resolver's tree. */
  datatype Table = Table(
    live: set<nat>, paths: map<nat, seq<Path>>, mainPaths: map<Path, nat>, counter: nat, mounts: MountSet)

  const EMPTY := Table({}, map[], map[], 1, {})

  // ---- commands ----

  /** Unmounts the paths one by one, up to the first that raises. */
  function UnmountPaths(m: MountSet, ps: seq<Path>, id: nat): (MountSet, bool) {
    if ps == [] then (m, true)
    else if (ps[0], id) in m then UnmountPaths(m - {(ps[0], id)}, ps[1..], id)
    else (m, false)
  }

  /** _unmount_storage, with the exception it may raise and what it has changed by then. */
  function Unmount(t: Table, id: nat): (Table, Option<FsError>) {
    if id !in t.live || id !in t.paths then (t, Some(AssertionError))
    else
      var ps := t.paths[id];
      var t1 := t.(live := t.live - {id}, paths := t.paths - {id});
      if ps == [] || ps[0] !in t.mainPaths then (t1, Some(KeyError))
      else
        var (m, ok) := UnmountPaths(t.mounts, ps, id);
        (t1.(mainPaths := t.mainPaths - {ps[0]}, mounts := m), if ok then None else Some(KeyError))
  }

  /** Enters a storage under the next id. */
  function Enter(t: Table, ps: seq<Path>): Table
    requires ps != []
  {
    var id := t.counter;
    Table(t.live + {id}, t.paths[id := ps], t.mainPaths[ps[0] := id], id + 1, t.mounts + PathsOf(ps, id))
  }

  function PathsOf(ps: seq<Path>, id: nat): MountSet {
    set p | p in ps :: (p, id)
  }

  lemma PathsOfStep(m: MountSet, ps: seq<Path>, i: nat, id: nat)
    requires i < |ps|
    ensures m + PathsOf(ps[..i], id) + {(ps[i], id)} == m + PathsOf(ps[..i + 1], id)
  {
    assert ps[..i + 1] == ps[..i] + [ps[i]];
  }

  /** A storage with the same main path is unmounted, or in the way. */
  function Displace(t: Table, mainPath: Path, remount: bool): (Table, Option<FsError>) {
    if mainPath !in t.mainPaths then (t, None)
    else if !remount then (t, Some(WildlandError))
    else Unmount(t, t.mainPaths[mainPath])
  }

  /** _mount_storage. */
  function Mount(t: Table, ps: seq<Path>, remount: bool): (Table, Option<FsError>) {
    if ps == [] then (t, Some(AssertionError))
    else
      var (u, e) := Displace(t, ps[0], remount);
      if e.Some? then (u, e) else (Enter(u, ps), None)
  }

  // ---- what every run keeps ----

  /** The tree holds exactly the table's pairs, main paths and first paths are inverse to each other,
      and ids are below the counter. */
  ghost predicate InStep(t: Table) {
    && t.live == t.paths.Keys
    && (forall p, id :: (p, id) in t.mounts <==> id in t.paths && p in t.paths[id])
    && (forall id :: id in t.paths ==>
          && t.paths[id] != [] && id < t.counter
          && t.paths[id][0] in t.mainPaths && t.mainPaths[t.paths[id][0]] == id)
    && (forall p :: p in t.mainPaths ==> t.mainPaths[p] in t.paths && t.paths[t.mainPaths[p]][0] == p)
  }

  ghost predicate DistinctLists(t: Table) {
    forall id :: id in t.paths ==> Distinct(t.paths[id])
  }

  lemma {:induction false} UnmountPathsSucceeds(m: MountSet, ps: seq<Path>, id: nat)
    requires forall p :: p in ps ==> (p, id) in m
    ensures UnmountPaths(m, ps, id).1 <==> Distinct(ps)
    ensures Distinct(ps) ==> UnmountPaths(m, ps, id).0 == m - PathsOf(ps, id)
  {
    if ps != [] {
      var m', rest := m - {(ps[0], id)}, ps[1..];
      if ps[0] !in rest {
        UnmountPathsSucceeds(m', rest, id);
        assert ps == [ps[0]] + rest;
        assert Distinct(rest) <==> Distinct(ps);
        assert PathsOf(ps, id) == PathsOf(rest, id) + {(ps[0], id)};
      } else {
        assert !Distinct(ps) by {
          var k :| 0 <= k < |rest| && rest[k] == ps[0];
          assert ps[k + 1] == ps[0];
        }
        UnmountPathsFails(m', rest, id, ps[0]);
      }
    }
  }

  lemma {:induction false} UnmountPathsFails(m: MountSet, ps: seq<Path>, id: nat, p: Path)
    requires p in ps && (p, id) !in m
    ensures !UnmountPaths(m, ps, id).1
  {
    if p != ps[0] && (ps[0], id) in m {
      UnmountPathsFails(m - {(ps[0], id)}, ps[1..], id, p);
    }
  }

  /** Unmounting a live storage raises exactly when its path list has a repeat; otherwise the table and
      the tree stay in step and nothing else changes. */
  lemma UnmountKeepsStep(t: Table, id: nat)
    requires InStep(t) && id in t.paths
    ensures var (u, e) := Unmount(t, id);
            && (e.None? <==> Distinct(t.paths[id]))
            && (e.None? ==> InStep(u) && u.paths == t.paths - {id} && u.counter == t.counter
                            && u.mounts == t.mounts - PathsOf(t.paths[id], id)
                            && u.mainPaths == t.mainPaths - {t.paths[id][0]})
  {
    UnmountPathsSucceeds(t.mounts, t.paths[id], id);
  }

  /** A mount raises only for a main path that is taken and not to be remounted; otherwise it leaves one
      live id, a new one, for that main path. */
  lemma MountKeepsStep(t: Table, ps: seq<Path>, remount: bool)
    requires InStep(t) && DistinctLists(t) && ps != [] && Distinct(ps)
    ensures var (u, e) := Mount(t, ps, remount);
            && InStep(u) && DistinctLists(u)
            && e == (if ps[0] in t.mainPaths && !remount then Some(WildlandError) else None)
            && (e.Some? ==> u == t)
            && (e.None? ==> u.counter == t.counter + 1 && t.counter !in t.paths && u.mainPaths[ps[0]] == t.counter
                            && u.paths == (if ps[0] in t.mainPaths then t.paths - {t.mainPaths[ps[0]]} else t.paths)[t.counter := ps]
                            && forall id :: id in u.paths && u.paths[id][0] == ps[0] ==> id == t.counter)
  {
    if ps[0] in t.mainPaths && remount {
      UnmountKeepsStep(t, t.mainPaths[ps[0]]);
    }
  }

  datatype Command = MountCommand(paths: seq<Path>, remount: bool) | UnmountCommand(id: nat)

  /** One item of a control command: unmount checks the id first. */
  function Step(t: Table, c: Command): (Table, Option<FsError>) {
    match c
    case MountCommand(ps, remount) => Mount(t, ps, remount)
    case UnmountCommand(id) => if id !in t.live then (t, Some(WildlandError)) else Unmount(t, id)
  }

  /** An error is reported and the run goes on. */
  function Run(t: Table, cs: seq<Command>): Table {
    if cs == [] then t else Step(Run(t, cs[..|cs| - 1]), cs[|cs| - 1]).0
  }

  /** The schema asks for a path; nothing asks for the paths to be distinct. */
  ghost predicate DistinctCommands(cs: seq<Command>) {
    forall c :: c in cs && c.MountCommand? ==> c.paths != [] && Distinct(c.paths)
  }

  /** In every run of mounts, remounts and unmounts whose path lists have no repeats, table and tree stay
      in step, and no command fails for another reason than a taken main path or an unknown id. */
  lemma {:induction false} RunsKeepStep(cs: seq<Command>)
    requires DistinctCommands(cs)
    ensures InStep(Run(EMPTY, cs)) && DistinctLists(Run(EMPTY, cs))
    ensures cs != [] ==> Step(Run(EMPTY, cs[..|cs| - 1]), cs[|cs| - 1]).1 in {None, Some(WildlandError)}
  {
    if cs != [] {
      var before, c := cs[..|cs| - 1], cs[|cs| - 1];
      assert forall d :: d in before ==> d in cs;
      RunsKeepStep(before);
      assert c in cs;
      var t := Run(EMPTY, before);
      match c {
        case MountCommand(ps, remount) => MountKeepsStep(t, ps, remount);
        case UnmountCommand(id) => if id in t.live { UnmountKeepsStep(t, id); }
      }
    }
  }

  /** The ids given out before a run goes on are below the counter then: what comes later is new. */
  lemma {:induction false} RunsNeverReuseIds(t: Table, cs: seq<Command>, id: nat)
    requires id < t.counter && id !in t.paths
    ensures t.counter <= Run(t, cs).counter && id !in Run(t, cs).paths
  {
    if cs != [] {
      RunsNeverReuseIds(t, cs[..|cs| - 1], id);
    }
  }

  /** A storage mounted under the same path twice is never unmounted cleanly: the pair is taken out of the
      table, the second removal raises, and the later paths stay in the tree under an id that is gone. */
  lemma RepeatedPathLeavesOrphans(p: Path, q: Path)
    requires p != q
    ensures var t := Mount(EMPTY, [p, p, q], false).0;
            var (u, e) := Unmount(t, 1);
            InStep(t) && e == Some(KeyError) && 1 !in u.live && u.mounts == {(q, 1)} && !InStep(u)
  {
    var ps := [p, p, q];
    var t := Mount(EMPTY, ps, false).0;
    assert ps[0] == p && ps[1] == p && ps[2] == q;
    assert t.mounts == {(p, 1), (q, 1)};
    assert t.mounts - {(p, 1)} == {(q, 1)};
    assert ps[1..][0] == p;
    assert UnmountPaths({(q, 1)}, ps[1..], 1) == ({(q, 1)}, false);
    var u := Unmount(t, 1).0;
    assert (q, 1) in u.mounts;
  }
}
