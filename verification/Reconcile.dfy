/** Bringing the mounted storages of one container to those its manifest asks for. */
module Reconcile {
  import opened Prelude
  import opened Watchers
  import T = MountTable

  // ---- paths ----

  datatype Container = Container(owner: string, uuid: string, primaryPath: Path)

  const MANIFEST_NAME := ".manifest.wildland.yaml"
  const PSEUDO := "-pseudomanifest"

  predicate NameChar(c: char) { '0' <= c <= '9' || 'a' <= c <= 'z' || c == '-' }

  predicate EndsWith(s: string, suffix: string) {
    |suffix| <= |s| && s[|s| - |suffix|..] == suffix
  }

  /** The path that identifies a storage of a container, whoever mounts it. */
  function Unique(c: Container, backend: string): Path {
    ["/", ".users", c.owner + ":", ".backends", c.uuid, backend]
  }

  /** Paths of that shape, for any container. */
  predicate BackendPath(p: Path) {
    && |p| == 6 && p[..2] == ["/", ".users"] && EndsWith(p[2], ":") && p[3] == ".backends"
    && p[5] != "" && forall i :: 0 <= i < |p[5]| ==> NameChar(p[5][i])
  }

  predicate Belongs(c: Container, p: Path) {
    BackendPath(p) && p[2] == c.owner + ":" && p[4] == c.uuid
  }

  function ManifestUnder(p: Path): Path { p + [MANIFEST_NAME] }

  /** Where the pseudomanifest of a storage is mounted. */
  function PseudoPath(p: Path): Path {
    if p == [] then [PSEUDO, MANIFEST_NAME] else p[..|p| - 1] + [p[|p| - 1] + PSEUDO, MANIFEST_NAME]
  }

  function Hidden(ps: seq<Path>): (r: seq<Path>)
    requires ps != []
    ensures |r| == |ps| && r[0] == PseudoPath(ps[0])
    ensures forall i :: 1 <= i < |r| ==> r[i] == ManifestUnder(ps[i])
  {
    [PseudoPath(ps[0])] + seq(|ps| - 1, i requires 0 <= i < |ps| - 1 => ManifestUnder(ps[i + 1]))
  }

  // ---- the server, as the client sees it ----

  /** get_storage_tag, an injective hash of paths and parameters. */
  datatype Tag = Tag(paths: seq<Path>, params: nat)

  datatype Server = Server(table: T.Table, tags: map<nat, Tag>)

  datatype Mounted = Mounted(id: nat, paths: seq<Path>, tag: Tag)

  /** Table and tree are in step, and tags tell the truth. */
  ghost predicate Sound(s: Server) {
    && T.InStep(s.table) && T.DistinctLists(s.table)
    && forall id :: id in s.table.paths ==> id in s.tags && s.tags[id].paths == s.table.paths[id]
  }

  /** The storage with a main path. */
  ghost function Held(s: Server, p: Path): Option<Mounted>
    requires Sound(s)
  {
    if p in s.table.mainPaths then
      var id := s.table.mainPaths[p];
      Some(Mounted(id, s.table.paths[id], s.tags[id]))
    else None
  }

  function MountOne(s: Server, ps: seq<Path>, tag: Tag): Server {
    var (t, e) := T.Mount(s.table, ps, true);
    if e.Some? then s.(table := t) else Server(t, s.tags[s.table.counter := tag])
  }

  function UnmountOne(s: Server, id: nat): Server {
    s.(table := T.Step(s.table, T.UnmountCommand(id)).0)
  }

  lemma MountOneHolds(s: Server, ps: seq<Path>, tag: Tag)
    requires Sound(s) && ps != [] && Distinct(ps) && tag.paths == ps
    ensures var u := MountOne(s, ps, tag);
            && Sound(u)
            && forall p :: Held(u, p) == if p == ps[0] then Some(Mounted(s.table.counter, ps, tag)) else Held(s, p)
  {
    hide T.Mount;
    T.MountKeepsStep(s.table, ps, true);
    var t, u := s.table, MountOne(s, ps, tag);
    forall p
      ensures Sound(u) && Held(u, p) == if p == ps[0] then Some(Mounted(t.counter, ps, tag)) else Held(s, p)
    {
      MainsAfterMount(t, ps);
    }
  }

  lemma MainsAfterMount(t: T.Table, ps: seq<Path>)
    requires T.InStep(t) && T.DistinctLists(t) && ps != [] && Distinct(ps)
    ensures T.Mount(t, ps, true).0.mainPaths == t.mainPaths[ps[0] := t.counter]
  {
    if ps[0] in t.mainPaths {
      T.UnmountKeepsStep(t, t.mainPaths[ps[0]]);
    }
  }

  lemma UnmountOneHolds(s: Server, p: Path)
    requires Sound(s) && Held(s, p).Some?
    ensures var u := UnmountOne(s, Held(s, p).value.id);
            Sound(u) && forall q :: Held(u, q) == if q == p then None else Held(s, q)
  {
    T.UnmountKeepsStep(s.table, s.table.mainPaths[p]);
  }

  // ---- what the client looks up ----

  function IdsAt(t: T.Table, p: Path): set<nat> {
    set id | id in t.paths && p in t.paths[id]
  }

  lemma HasLeast(ids: set<nat>)
    requires ids != {}
    ensures exists id :: id in ids && IsLeast(ids, id)
  {
    var id :| id in ids;
    var rest := ids - {id};
    assert forall other :: other in ids ==> other == id || other in rest;
    if rest != {} {
      HasLeast(rest);
      var least :| least in rest && IsLeast(rest, least);
      assert IsLeast(ids, if id <= least then id else least);
    } else {
      assert IsLeast(ids, id);
    }
  }

  predicate IsLeast(ids: set<nat>, id: nat) {
    forall other :: other in ids ==> id <= other
  }

  /** The first id the server lists for a path; ids are listed as they were given out. */
  function FirstAt(t: T.Table, p: Path): Option<nat> {
    var ids := IdsAt(t, p);
    if ids == {} then None
    else
      HasLeast(ids);
      var id :| id in ids && IsLeast(ids, id);
      Some(id)
  }

  /** find_storage_id_by_path. */
  function FindByPath(t: T.Table, p: Path): (Option<nat>, Option<nat>)
  {
    var pseudo := FirstAt(t, PseudoPath(p));
    (FirstAt(t, p), if pseudo.Some? then pseudo else FirstAt(t, ManifestUnder(p)))
  }

  function AllPaths(t: T.Table): set<Path> {
    set id, p | id in t.paths && p in t.paths[id] :: p
  }

  // ---- what a container asks for ----

  /** A storage to be mounted: its paths for this user, and what its two mounts are made of. */
  datatype StorageData = StorageData(backend: string, paths: seq<Path>, params: nat, pseudoParams: nat)

  type Storage = w: StorageData | w.paths != [] witness StorageData("", [[]], 0, 0)

  datatype Item = Item(paths: seq<Path>, tag: Tag)

  function StorageItem(w: Storage): Item { Item(w.paths, Tag(w.paths, w.params)) }

  function PseudoItem(w: Storage): Item
  {
    Item(Hidden(w.paths), Tag(Hidden(w.paths), w.pseudoParams))
  }

  /** The commands of one mount request: the storages, then their pseudomanifests. */
  function Commands(ws: seq<Storage>): (r: seq<Item>)
    ensures |r| == 2 * |ws|
    ensures forall i :: 0 <= i < |ws| ==> r[i] == StorageItem(ws[i]) && r[|ws| + i] == PseudoItem(ws[i])
  {
    seq(|ws|, i requires 0 <= i < |ws| => StorageItem(ws[i])) + seq(|ws|, i requires 0 <= i < |ws| => PseudoItem(ws[i]))
  }

  function Mains(ws: seq<Storage>): set<Path>
  {
    set w | w in ws :: w.paths[0]
  }

  /** Paths of the container's storages that are mounted and not wanted. */
  function Orphans(t: T.Table, c: Container, ws: seq<Storage>): set<Path>
  {
    set p | p in AllPaths(t) && Belongs(c, p) && !EndsWith(p[5], PSEUDO) && p !in Mains(ws)
  }

  predicate ShouldRemount(s: Server, w: Storage)
  {
    var id := FirstAt(s.table, w.paths[0]);
    id.None? || id.value !in s.tags || s.tags[id.value] != Tag(w.paths, w.params)
  }

  function ToRemount(s: Server, ws: seq<Storage>): (r: seq<Storage>)
    ensures forall w :: w in r <==> w in ws && ShouldRemount(s, w)
  {
    if ws == [] then []
    else (if ShouldRemount(s, ws[0]) then [ws[0]] else []) + ToRemount(s, ws[1..])
  }

  function UnmountAll(s: Server, ids: seq<nat>): Server
    decreases |ids|
  {
    if ids == [] then s else UnmountAll(UnmountOne(s, ids[0]), ids[1..])
  }

  function MountAll(s: Server, items: seq<Item>): Server
    decreases |items|
  {
    if items == [] then s else MountAll(MountOne(s, items[0].paths, items[0].tag), items[1..])
  }

  /** The ids queued for orphans, each with its pseudomanifest's; None where one is not found. */
  function IdsOf(t: T.Table, orphans: seq<Path>): Option<seq<nat>>
  {
    if orphans == [] then Some([])
    else
      var (id, pseudo) := FindByPath(t, orphans[0]);
      var rest := IdsOf(t, orphans[1..]);
      if id.None? || pseudo.None? || rest.None? then None else Some([id.value, pseudo.value] + rest.value)
  }

  predicate IsOrder(order: seq<Path>, ps: set<Path>) {
    ToSet(order) == ps && Distinct(order)
  }

  method SomeOrder(ps: set<Path>) returns (order: seq<Path>)
    ensures IsOrder(order, ps)
  {
    order := [];
    var left := ps;
    while left != {}
      invariant ToSet(order) + left == ps && ToSet(order) !! left && Distinct(order)
    {
      var p :| p in left;
      assert forall q :: q in order + [p] <==> q in order || q == p;
      assert p !in ToSet(order);
      order := order + [p];
      left := left - {p};
    }
  }

  // ---- the remounter ----

  /** The queues, and the server they are for. */
  class Remounter {
    var server: Server
    var toMount: seq<Storage>
    var toUnmount: seq<nat>

    constructor (server: Server)
      ensures this.server == server && toMount == [] && toUnmount == []
    {
      this.server, toMount, toUnmount := server, [], [];
    }

    /** handle_changed_container, for the storages to mount and the paths wanted; an assertion fails when an
        orphan is without its pseudomanifest. */
    method HandleChangedContainer(c: Container, ws: seq<Storage>) returns (ghost orphans: seq<Path>, failed: bool)
        modifies this`toMount, this`toUnmount
      ensures FirstAt(server.table, c.primaryPath).None? ==>
                !failed && orphans == [] && toUnmount == old(toUnmount) && toMount == old(toMount) + ws
      ensures FirstAt(server.table, c.primaryPath).Some? ==>
                && IsOrder(orphans, Orphans(server.table, c, ws))
                && failed == IdsOf(server.table, orphans).None?
                && (!failed ==> && toUnmount == old(toUnmount) + IdsOf(server.table, orphans).value
                                && toMount == old(toMount) + ToRemount(server, ws))
    {
      hide FirstAt, Orphans, ToRemount, IsOrder, FindByPath;
      orphans, failed := [], false;
      if FirstAt(server.table, c.primaryPath).None? {
        toMount := toMount + ws;
        return;
      }
      var order := SomeOrder(Orphans(server.table, c, ws));
      orphans := order;
      ghost var before := toUnmount;
      for k := 0 to |order|
        invariant toMount == old(toMount)
        invariant IdsOf(server.table, order).Some? <==> IdsOf(server.table, order[k..]).Some?
        invariant IdsOf(server.table, order).Some? ==>
                    toUnmount + IdsOf(server.table, order[k..]).value == before + IdsOf(server.table, order).value
      {
        assert order[k..][0] == order[k] && order[k..][1..] == order[k + 1..];
        var (id, pseudo) := FindByPath(server.table, order[k]);
        if id.None? || pseudo.None? {
          return order, true;
        }
        toUnmount := toUnmount + [id.value, pseudo.value];
      }
      var remounted := Remounted(ws);
      toMount := toMount + remounted;
    }

    method Remounted(ws: seq<Storage>) returns (r: seq<Storage>)
        ensures r == ToRemount(server, ws)
    {
      hide ShouldRemount, ToRemount;
      r := [];
      RemountNone(server);
      for k := 0 to |ws|
        invariant r == ToRemount(server, ws[..k])
      {
        assert ws[..k + 1] == ws[..k] + [ws[k]];
        RemountOneMore(server, ws[..k], ws[k]);
        if ShouldRemount(server, ws[k]) {
          r := r + [ws[k]];
        }
      }
      assert ws[..|ws|] == ws;
    }

    method UnmountPending()
      modifies this`server, this`toUnmount
      ensures server == UnmountAll(old(server), old(toUnmount)) && toUnmount == []
    {
      for k := 0 to |toUnmount|
        invariant toUnmount == old(toUnmount)
        invariant UnmountAll(server, toUnmount[k..]) == UnmountAll(old(server), toUnmount)
      {
        assert toUnmount[k..][0] == toUnmount[k] && toUnmount[k..][1..] == toUnmount[k + 1..];
        server := UnmountOne(server, toUnmount[k]);
      }
      toUnmount := [];
    }

    method MountPending()
      modifies this`server, this`toMount
      ensures server == MountAll(old(server), Commands(old(toMount))) && toMount == []
    {
      var items := Commands(toMount);
      for k := 0 to |items|
        invariant MountAll(server, items[k..]) == MountAll(old(server), items)
      {
        assert items[k..][0] == items[k] && items[k..][1..] == items[k + 1..];
        server := MountOne(server, items[k].paths, items[k].tag);
      }
      toMount := [];
    }

    /** One event about a container, as the main loop handles it: with the primary path mounted, the server then
        holds exactly the storages asked for, and a second event would queue nothing. A pseudomanifest is then the
        one asked for exactly when its storage was remounted or it was that one before. */
    method Round(c: Container, ws: seq<Storage>) returns (failed: bool)
      requires toMount == [] && toUnmount == []
      requires InOrder(server) && Wanted(ws, c) && FirstAt(server.table, c.primaryPath).Some?
      modifies this
      ensures !failed && toMount == [] && toUnmount == []
      ensures InOrder(server) && Converged(server, c, ws) && OthersUntouched(old(server), server, c)
      ensures forall w :: w in ws && !ShouldRemount(old(server), w) ==>
                Held(server, w.paths[0]) == Held(old(server), w.paths[0])
      ensures PseudosFollow(old(server), server, ws)
      ensures FirstAt(server.table, c.primaryPath).Some?
      ensures Orphans(server.table, c, ws) == {} && ToRemount(server, ws) == []
    {
      hide Sound, Tidy, Paired, Wanted, Converged, OthersUntouched, PseudosFollow, FirstAt, Orphans, ToRemount, ShouldRemount, Held,
        IdsOf, UnmountAll, MountAll, Commands, IsOrder;
      ghost var orphans;
      orphans, failed := HandleChangedContainer(c, ws);
      RoundConverges(server, c, ws, orphans);
      assert [] + IdsOf(server.table, orphans).value == IdsOf(server.table, orphans).value;
      assert [] + ToRemount(server, ws) == ToRemount(server, ws);
      UnmountPending();
      MountPending();
      NothingToDo(server, c, ws);
    }
  }

  lemma RemountNone(s: Server)
    ensures ToRemount(s, []) == []
  {
  }

  lemma {:induction false} RemountOneMore(s: Server, ws: seq<Storage>, w: Storage)
    ensures ToRemount(s, ws + [w]) == ToRemount(s, ws) + if ShouldRemount(s, w) then [w] else []
  {
    hide ShouldRemount;
    if ws == [] {
      assert ws + [w] == [w] && [w][1..] == [];
    } else {
      assert (ws + [w])[0] == ws[0] && (ws + [w])[1..] == ws[1..] + [w];
      RemountOneMore(s, ws[1..], w);
    }
  }

  // ---- what is assumed of the server's paths, and kept ----

  /** The path of a pseudomanifest mounted for a storage. */
  predicate IsPseudoPath(p: Path) {
    && |p| == 7 && p[6] == MANIFEST_NAME && EndsWith(p[5], PSEUDO)
    && BackendPath(p[..5] + [p[5][..|p[5]| - |PSEUDO|]])
  }

  /** Only the first path of a storage identifies it or its pseudomanifest. */
  ghost predicate Neat(ps: seq<Path>) {
    forall i :: 0 <= i < |ps| ==>
      && (BackendPath(ps[i]) ==> i == 0 && !EndsWith(ps[i][5], PSEUDO))
      && (IsPseudoPath(ps[i]) ==> i == 0)
  }

  ghost predicate Tidy(s: Server)
    requires Sound(s)
  {
    forall p :: Held(s, p).Some? ==> Neat(Held(s, p).value.paths)
  }

  /** Storages and pseudomanifests are mounted in pairs. */
  ghost predicate Paired(s: Server)
    requires Sound(s)
  {
    forall u :: BackendPath(u) ==> (Held(s, u).Some? <==> Held(s, PseudoPath(u)).Some?)
  }

  ghost predicate InOrder(s: Server) {
    Sound(s) && Tidy(s) && Paired(s)
  }

  /** A storage as get_storage_mount_paths describes it. */
  ghost predicate IsStorage(w: Storage) {
    BackendPath(w.paths[0]) && Neat(w.paths) && Distinct(w.paths)
  }

  ghost predicate IsFor(w: Storage, c: Container) {
    w.paths[0] == Unique(c, w.backend) && IsStorage(w)
  }

  /** Storages that can be mounted together, of one container or of several. */
  ghost predicate Mountable(ws: seq<Storage>) {
    (forall w :: w in ws ==> IsStorage(w)) && forall i, j :: 0 <= i < j < |ws| ==> ws[i].paths[0] != ws[j].paths[0]
  }

  ghost predicate DifferentBackends(ws: seq<Storage>) {
    forall i, j :: 0 <= i < j < |ws| ==> ws[i].backend != ws[j].backend
  }

  ghost predicate ForContainer(ws: seq<Storage>, c: Container) {
    (forall w :: w in ws ==> IsFor(w, c)) && DifferentBackends(ws)
  }

  lemma AreMountable(ws: seq<Storage>, c: Container)
    requires ForContainer(ws, c)
    ensures Mountable(ws)
  {
    hide IsStorage;
    forall i, j | 0 <= i < j < |ws|
      ensures ws[i].paths[0] != ws[j].paths[0]
    {
      assert ws[i] in ws && ws[j] in ws;
      assert ws[i].paths[0][5] == ws[i].backend && ws[j].paths[0][5] == ws[j].backend;
    }
  }

  /** The first storage is the primary one, which holds the container's paths. */
  ghost predicate Wanted(ws: seq<Storage>, c: Container) {
    && ForContainer(ws, c)
    && ws != [] && c.primaryPath in ws[0].paths
  }

  // ---- paths of pseudomanifests ----

  lemma PseudoPathIs(u: Path)
    requires BackendPath(u)
    ensures var p := PseudoPath(u);
            IsPseudoPath(p) && !BackendPath(p) && p[..5] == u[..5] && p[5] == u[5] + PSEUDO
  {
    var p := PseudoPath(u);
    assert p[5][..|p[5]| - |PSEUDO|] == u[5];
    assert p[..5] + [u[5]] == u;
  }

  lemma PseudoPathsDiffer(u: Path, v: Path)
    requires BackendPath(u) && BackendPath(v) && PseudoPath(u) == PseudoPath(v)
    ensures u == v
  {
    PseudoPathIs(u);
    PseudoPathIs(v);
    var p := PseudoPath(u);
    assert p[5][..|p[5]| - |PSEUDO|] == u[5] && p[5][..|p[5]| - |PSEUDO|] == v[5];
    assert u == u[..5] + [u[5]] && v == v[..5] + [v[5]];
  }

  lemma ManifestUnderIs(p: Path)
    ensures !BackendPath(ManifestUnder(p)) && (IsPseudoPath(ManifestUnder(p)) ==> BackendPath(p))
    ensures forall u :: BackendPath(u) && PseudoPath(u) == ManifestUnder(p) ==> BackendPath(p)
  {
    var q := ManifestUnder(p);
    assert MANIFEST_NAME[0] == '.' && !NameChar('.');
    if IsPseudoPath(q) {
      assert q[..6] == p;
      var name, base := p[5], p[5][..|p[5]| - |PSEUDO|];
      var u := q[..5] + [base];
      assert u[5] == base && u[2] == p[2] && u[3] == p[3] && u[..2] == p[..2];
      assert name == base + PSEUDO;
      forall i | 0 <= i < |name|
        ensures NameChar(name[i])
      {
        assert i < |base| ==> name[i] == base[i] && NameChar(u[5][i]);
        assert i >= |base| ==> name[i] == PSEUDO[i - |base|];
        PseudoIsName();
      }
    }
    forall u | BackendPath(u) && PseudoPath(u) == q
      ensures BackendPath(p)
    {
      PseudoPathIs(u);
    }
  }

  lemma PseudoIsName()
    ensures forall i :: 0 <= i < |PSEUDO| ==> NameChar(PSEUDO[i])
  {
  }

  lemma HiddenIsNeat(ps: seq<Path>)
    requires ps != [] && BackendPath(ps[0]) && Neat(ps) && Distinct(ps)
    ensures Neat(Hidden(ps)) && Distinct(Hidden(ps))
  {
    hide BackendPath, IsPseudoPath, PseudoPath, EndsWith, Hidden;
    var hs := Hidden(ps);
    PseudoPathIs(ps[0]);
    forall i | 1 <= i < |hs|
      ensures !BackendPath(hs[i]) && !IsPseudoPath(hs[i])
    {
      ManifestUnderIs(ps[i]);
    }
    forall i, j | 0 <= i < j < |hs|
      ensures hs[i] != hs[j]
    {
      ManifestUnderIs(ps[j]);
      assert ps[i] != ps[j];
      assert hs[j][..|ps[j]|] == ps[j];
      if i > 0 {
        assert hs[i][..|ps[i]|] == ps[i];
        assert |hs[i]| == |ps[i]| + 1 && |hs[j]| == |ps[j]| + 1;
      }
    }
  }

  // ---- lookups ----

  lemma LookupIsHeld(s: Server, p: Path)
    requires Sound(s) && Tidy(s) && (BackendPath(p) || IsPseudoPath(p))
    ensures FirstAt(s.table, p) == if Held(s, p).Some? then Some(Held(s, p).value.id) else None
  {
    hide BackendPath, IsPseudoPath;
    var t := s.table;
    forall id | id in IdsAt(t, p)
      ensures p in t.mainPaths && t.mainPaths[p] == id
    {
      var ps := t.paths[id];
      assert Held(s, ps[0]).value.paths == ps;
      var i :| 0 <= i < |ps| && ps[i] == p;
    }
    if p in t.mainPaths {
      assert t.mainPaths[p] in IdsAt(t, p);
    }
  }

  lemma OrphansAreHeld(s: Server, c: Container, ws: seq<Storage>, p: Path)
    requires Sound(s) && Tidy(s)
    ensures p in Orphans(s.table, c, ws) <==> Belongs(c, p) && Held(s, p).Some? && p !in Mains(ws)
  {
    hide Mains, EndsWith, IsPseudoPath;
    var t := s.table;
    if p in AllPaths(t) && BackendPath(p) {
      var id :| id in t.paths && p in t.paths[id];
      assert id in IdsAt(t, p);
      LookupIsHeld(s, p);
      assert Held(s, p).Some?;
    }
    if BackendPath(p) && Held(s, p).Some? {
      var id := Held(s, p).value.id;
      assert t.paths[id][0] == p;
      assert id in t.paths && p in t.paths[id];
      assert p in AllPaths(t);
    }
  }

  // ---- queues applied ----

  function WithPseudo(us: seq<Path>): (r: seq<Path>)
    ensures forall p :: p in r <==> p in us || exists u :: u in us && p == PseudoPath(u)
  {
    if us == [] then [] else [us[0], PseudoPath(us[0])] + WithPseudo(us[1..])
  }

  lemma {:induction false} WithPseudoDistinct(us: seq<Path>)
    requires Distinct(us) && forall u :: u in us ==> BackendPath(u)
    ensures Distinct(WithPseudo(us))
  {
    hide BackendPath, PseudoPath, IsPseudoPath;
    if us != [] {
      var u, rest := us[0], us[1..];
      assert u in us && forall v :: v in rest ==> v in us;
      WithPseudoDistinct(rest);
      assert u !in rest;
      PseudoPathIs(u);
      forall v | v in rest
        ensures PseudoPath(v) != u && PseudoPath(u) != v && PseudoPath(v) != PseudoPath(u)
      {
        PseudoPathIs(v);
        if PseudoPath(u) == PseudoPath(v) { PseudoPathsDiffer(u, v); }
      }
      assert u !in WithPseudo(rest) && PseudoPath(u) !in WithPseudo(rest);
    }
  }

  ghost function HeldIds(s: Server, ps: seq<Path>): seq<nat>
    requires Sound(s) && forall p :: p in ps ==> Held(s, p).Some?
  {
    if ps == [] then [] else [Held(s, ps[0]).value.id] + HeldIds(s, ps[1..])
  }

  lemma PairOfIds(s: Server, a: Path, b: Path, rest: seq<Path>)
    requires Sound(s) && Held(s, a).Some? && Held(s, b).Some? && forall p :: p in rest ==> Held(s, p).Some?
    ensures forall p :: p in [a, b] + rest ==> Held(s, p).Some?
    ensures HeldIds(s, [a, b] + rest) == [Held(s, a).value.id, Held(s, b).value.id] + HeldIds(s, rest)
  {
    hide Sound, Held;
    var all := [a, b] + rest;
    assert all[0] == a && all[1..] == [b] + rest && all[1..][0] == b && all[1..][1..] == rest;
    assert [Held(s, a).value.id] + ([Held(s, b).value.id] + HeldIds(s, rest)) == HeldIds(s, all);
  }

  lemma OrphanIds(s: Server, u: Path)
    requires InOrder(s) && BackendPath(u) && Held(s, u).Some?
    ensures Held(s, PseudoPath(u)).Some?
    ensures FindByPath(s.table, u) == (Some(Held(s, u).value.id), Some(Held(s, PseudoPath(u)).value.id))
  {
    hide BackendPath, PseudoPath, IsPseudoPath, FirstAt, Tidy;
    PseudoPathIs(u);
    LookupIsHeld(s, u);
    LookupIsHeld(s, PseudoPath(u));
  }

  lemma {:induction false} IdsOfOrphans(s: Server, us: seq<Path>)
    requires InOrder(s) && forall u :: u in us ==> BackendPath(u) && Held(s, u).Some?
    ensures forall p :: p in WithPseudo(us) ==> Held(s, p).Some?
    ensures IdsOf(s.table, us) == Some(HeldIds(s, WithPseudo(us)))
  {
    hide Sound, Tidy, Paired, BackendPath, PseudoPath, FindByPath, Held;
    if us != [] {
      var u, rest := us[0], us[1..];
      assert u in us && forall v :: v in rest ==> v in us;
      IdsOfOrphans(s, rest);
      OrphanIds(s, u);
      PairOfIds(s, u, PseudoPath(u), WithPseudo(rest));
      assert WithPseudo(us) == [u, PseudoPath(u)] + WithPseudo(rest);
    }
  }

  lemma {:induction false} SameIds(s: Server, u: Server, ps: seq<Path>)
    requires Sound(s) && Sound(u) && forall p :: p in ps ==> Held(s, p).Some? && Held(u, p) == Held(s, p)
    ensures HeldIds(u, ps) == HeldIds(s, ps)
  {
    hide Sound, Held;
    if ps != [] {
      SameIds(s, u, ps[1..]);
    }
  }

  lemma {:induction false} UnmountAllHolds(s: Server, ps: seq<Path>)
    requires Sound(s) && Distinct(ps) && forall p :: p in ps ==> Held(s, p).Some?
    ensures var u := UnmountAll(s, HeldIds(s, ps));
            Sound(u) && forall q :: Held(u, q) == if q in ps then None else Held(s, q)
    decreases |ps|
  {
    hide Sound, Held, UnmountOne;
    if ps != [] {
      var p, rest := ps[0], ps[1..];
      UnmountOneHolds(s, p);
      var s1 := UnmountOne(s, Held(s, p).value.id);
      assert p !in rest && forall q :: q in rest ==> q in ps;
      assert Distinct(rest);
      SameIds(s, s1, rest);
      UnmountAllHolds(s1, rest);
    }
  }

  ghost predicate GoodItems(items: seq<Item>) {
    && (forall item :: item in items ==> item.paths != [] && Distinct(item.paths) && item.tag.paths == item.paths)
    && forall i, j :: 0 <= i < j < |items| ==> items[i].paths[0] != items[j].paths[0]
  }

  ghost predicate HoldsItem(s: Server, item: Item)
    requires Sound(s) && item.paths != []
  {
    var h := Held(s, item.paths[0]);
    h.Some? && h.value.paths == item.paths && h.value.tag == item.tag
  }

  lemma {:induction false} MountAllHolds(s: Server, items: seq<Item>)
    requires Sound(s) && GoodItems(items)
    ensures var u := MountAll(s, items);
            && Sound(u)
            && (forall item :: item in items ==> HoldsItem(u, item))
            && forall q :: (forall item :: item in items ==> q != item.paths[0]) ==> Held(u, q) == Held(s, q)
    decreases |items|
  {
    hide Sound, Held, MountOne;
    if items != [] {
      var item, rest := items[0], items[1..];
      assert item in items && forall other :: other in rest ==> other in items;
      MountOneHolds(s, item.paths, item.tag);
      var s1 := MountOne(s, item.paths, item.tag);
      assert HoldsItem(s1, item);
      assert GoodItems(rest);
      MountAllHolds(s1, rest);
      forall other | other in rest
        ensures item.paths[0] != other.paths[0]
      {
        var k :| 0 <= k < |rest| && rest[k] == other;
        assert items[k + 1] == other;
      }
      assert HoldsItem(MountAll(s, items), item);
    }
  }

  // ---- one round ----

  /** Storages of the container and their pseudomanifests: all that a round may touch. */
  ghost predicate OfContainer(c: Container, p: Path) {
    Belongs(c, p) || exists u :: Belongs(c, u) && p == PseudoPath(u)
  }

  /** Each storage is mounted as asked for now. */
  ghost predicate MountedAs(s: Server, ws: seq<Storage>)
    requires Sound(s)
  {
    forall w :: w in ws ==> HoldsItem(s, StorageItem(w))
  }

  lemma CommandsAreGood(ws: seq<Storage>)
    requires Mountable(ws)
    ensures GoodItems(Commands(ws))
    ensures forall item :: item in Commands(ws) ==> IsCommand(item, ws)
  {
    hide Neat, Distinct, Mountable, Commands, IsCommand;
    var items := Commands(ws);
    forall i | 0 <= i < |items|
      ensures items[i].paths != [] && Distinct(items[i].paths) && items[i].tag.paths == items[i].paths
      ensures IsCommand(items[i], ws)
    {
      CommandIsOne(ws, i);
    }
    forall i, j | 0 <= i < j < |items|
      ensures items[i].paths[0] != items[j].paths[0]
    {
      CommandIsOne(ws, i);
      CommandIsOne(ws, j);
      CommandsDiffer(ws, i, j);
    }
  }

  ghost predicate IsCommand(item: Item, ws: seq<Storage>) {
    Neat(item.paths) && exists w :: w in ws && (item == StorageItem(w) || item == PseudoItem(w))
  }

  lemma CommandIsOne(ws: seq<Storage>, i: nat)
    requires Mountable(ws) && i < |Commands(ws)|
    ensures var item := Commands(ws)[i];
            item.paths != [] && Distinct(item.paths) && item.tag.paths == item.paths && IsCommand(item, ws)
  {
    hide Neat, Distinct, Mountable, Commands, StorageItem, PseudoItem;
    var w := CommandAt(ws, i);
  }

  lemma CommandsDiffer(ws: seq<Storage>, i: nat, j: nat)
    requires Mountable(ws) && i < j < |Commands(ws)|
    requires Commands(ws)[i].paths != [] && Commands(ws)[j].paths != []
    ensures Commands(ws)[i].paths[0] != Commands(ws)[j].paths[0]
  {
    hide Neat, Distinct, IsStorage, Commands, StorageItem, PseudoItem;
    var v := CommandAt(ws, i);
    var w := CommandAt(ws, j);
    MainsDiffer(v, w);
  }

  lemma CommandAt(ws: seq<Storage>, i: nat) returns (w: Storage)
    requires Mountable(ws) && i < |Commands(ws)|
    ensures i < 2 * |ws| && w == ws[if i < |ws| then i else i - |ws|] && w in ws && IsStorage(w)
    ensures var item := Commands(ws)[i];
            && item.paths != [] && Distinct(item.paths) && item.tag.paths == item.paths && Neat(item.paths)
            && item == (if i < |ws| then StorageItem(w) else PseudoItem(w))
            && item.paths[0] == if i < |ws| then w.paths[0] else PseudoPath(w.paths[0])
  {
    hide Neat, Distinct, IsStorage, Commands, StorageItem, PseudoItem, Hidden;
    w := ws[if i < |ws| then i else i - |ws|];
    assert w in ws;
    assert i >= |ws| ==> Commands(ws)[|ws| + (i - |ws|)] == PseudoItem(w);
    ItemsAreGood(w);
  }

  lemma ItemsAreGood(w: Storage)
    requires IsStorage(w)
    ensures var item := StorageItem(w);
            item.paths == w.paths && Distinct(item.paths) && Neat(item.paths) && item.tag.paths == item.paths
    ensures var item := PseudoItem(w);
            && item.paths != [] && Distinct(item.paths) && Neat(item.paths) && item.tag.paths == item.paths
            && item.paths[0] == PseudoPath(w.paths[0])
  {
    hide Hidden, BackendPath, Neat, Distinct, PseudoPath;
    HiddenIsNeat(w.paths);
    HiddenIsSome(w.paths);
  }

  lemma MainsDiffer(v: Storage, w: Storage)
    requires IsStorage(v) && IsStorage(w)
    ensures var p, q := v.paths[0], w.paths[0];
            p != PseudoPath(q) && PseudoPath(p) != q && (p != q ==> PseudoPath(p) != PseudoPath(q))
  {
    hide BackendPath, Neat, Distinct, PseudoPath, IsPseudoPath;
    var p, q := v.paths[0], w.paths[0];
    PseudoPathIs(p);
    PseudoPathIs(q);
    if PseudoPath(p) == PseudoPath(q) { PseudoPathsDiffer(p, q); }
  }

  lemma HiddenIsSome(ps: seq<Path>)
    requires ps != []
    ensures |Hidden(ps)| == |ps| && Hidden(ps)[0] == PseudoPath(ps[0])
  {
  }

  ghost predicate IsMainOf(ws: seq<Storage>, p: Path) {
    exists w :: w in ws && (p == w.paths[0] || p == PseudoPath(w.paths[0]))
  }

  /** What may be unmounted and mounted in a round. */
  ghost predicate Applicable(s: Server, gone: seq<Path>, again: seq<Storage>) {
    && InOrder(s)
    && Distinct(gone) && (forall u :: u in gone ==> BackendPath(u) && Held(s, u).Some? && u !in Mains(again))
    && Mountable(again)
  }

  /** The same for one container. */
  ghost predicate RoundApplicable(s: Server, c: Container, gone: seq<Path>, again: seq<Storage>) {
    Applicable(s, gone, again) && ForContainer(again, c) && forall u :: u in gone ==> Belongs(c, u)
  }

  ghost function Apply(s: Server, gone: seq<Path>, again: seq<Storage>): Server
    requires Sound(s) && forall p :: p in WithPseudo(gone) ==> Held(s, p).Some?
  {
    MountAll(UnmountAll(s, HeldIds(s, WithPseudo(gone))), Commands(again))
  }

  /** What a round leaves under every main path. */
  lemma HeldAfter(s: Server, gone: seq<Path>, again: seq<Storage>)
    requires Applicable(s, gone, again)
    ensures forall p :: p in WithPseudo(gone) ==> Held(s, p).Some?
    ensures var u := Apply(s, gone, again);
            && Sound(u)
            && (forall w :: w in again ==> HoldsItem(u, StorageItem(w)) && HoldsItem(u, PseudoItem(w)))
            && forall p :: !IsMainOf(again, p) ==> Held(u, p) == if p in WithPseudo(gone) then None else Held(s, p)
  {
    hide Sound, Held, Tidy, Paired, BackendPath, PseudoPath, HoldsItem, Hidden, Neat;
    IdsOfOrphans(s, gone);
    WithPseudoDistinct(gone);
    UnmountAllHolds(s, WithPseudo(gone));
    CommandsAreGood(again);
    var s1 := UnmountAll(s, HeldIds(s, WithPseudo(gone)));
    var items := Commands(again);
    MountAllHolds(s1, items);
    forall w | w in again
      ensures StorageItem(w) in items && PseudoItem(w) in items
    {
      var i :| 0 <= i < |again| && again[i] == w;
      assert items[i] == StorageItem(w) && items[|again| + i] == PseudoItem(w);
    }
    forall p | !IsMainOf(again, p)
      ensures forall item :: item in items ==> p != item.paths[0]
    {
      forall item | item in items
        ensures p != item.paths[0]
      {
        assert IsCommand(item, again);
        var w :| w in again && (item == StorageItem(w) || item == PseudoItem(w));
        HiddenIsSome(w.paths);
      }
    }
  }

  lemma StaysInOrder(s: Server, gone: seq<Path>, again: seq<Storage>)
    requires Applicable(s, gone, again)
    ensures forall p :: p in WithPseudo(gone) ==> Held(s, p).Some?
    ensures InOrder(Apply(s, gone, again))
  {
    hide Sound, Held, BackendPath, PseudoPath, Hidden, Neat, Apply;
    HeldAfter(s, gone, again);
    var u := Apply(s, gone, again);
    forall p | Held(u, p).Some?
      ensures Neat(Held(u, p).value.paths)
    {
      if w :| w in again && (p == w.paths[0] || p == PseudoPath(w.paths[0])) {
        HiddenIsNeat(w.paths);
        HiddenIsSome(w.paths);
        assert HoldsItem(u, StorageItem(w)) && HoldsItem(u, PseudoItem(w));
      } else {
        assert !IsMainOf(again, p);
      }
    }
    forall v | BackendPath(v)
      ensures Held(u, v).Some? <==> Held(u, PseudoPath(v)).Some?
    {
      PseudoPathIs(v);
      if w :| w in again && v == w.paths[0] {
        HiddenIsSome(w.paths);
        assert HoldsItem(u, StorageItem(w)) && HoldsItem(u, PseudoItem(w));
      } else {
        MainsApart(again, v);
        GoneApart(gone, v);
        assert Held(s, v).Some? <==> Held(s, PseudoPath(v)).Some?;
      }
    }
  }

  lemma MainsApart(again: seq<Storage>, v: Path)
    requires BackendPath(v) && forall w :: w in again ==> IsStorage(w) && v != w.paths[0]
    ensures !IsMainOf(again, v) && !IsMainOf(again, PseudoPath(v))
  {
    hide BackendPath, PseudoPath;
    PseudoPathIs(v);
    forall w | w in again
      ensures v != PseudoPath(w.paths[0]) && PseudoPath(v) != w.paths[0] && PseudoPath(v) != PseudoPath(w.paths[0])
    {
      PseudoPathIs(w.paths[0]);
      if PseudoPath(v) == PseudoPath(w.paths[0]) { PseudoPathsDiffer(v, w.paths[0]); }
    }
  }

  lemma GoneApart(gone: seq<Path>, v: Path)
    requires BackendPath(v) && forall u :: u in gone ==> BackendPath(u)
    ensures (v in WithPseudo(gone) <==> v in gone) && (PseudoPath(v) in WithPseudo(gone) <==> v in gone)
  {
    hide BackendPath, PseudoPath;
    PseudoPathIs(v);
    forall u | u in gone
      ensures v != PseudoPath(u) && PseudoPath(v) != u && (PseudoPath(v) == PseudoPath(u) ==> u == v)
    {
      PseudoPathIs(u);
      if PseudoPath(v) == PseudoPath(u) { PseudoPathsDiffer(u, v); }
    }
  }

  /** A round keeps the server in order, mounts what it mounts as asked, takes away what it takes away, and
      touches nothing else: no other storage of the container, and nothing of other containers. */
  lemma RoundKeepsOrder(s: Server, c: Container, gone: seq<Path>, again: seq<Storage>)
    requires Applicable(s, gone, again) && ForContainer(again, c) && forall u :: u in gone ==> Belongs(c, u)
    ensures forall p :: p in WithPseudo(gone) ==> Held(s, p).Some?
    ensures var u := Apply(s, gone, again);
            && InOrder(u) && MountedAs(u, again)
            && (forall p :: p in gone ==> Held(u, p).None?)
            && (forall p :: Belongs(c, p) && p !in gone && p !in Mains(again) ==> Held(u, p) == Held(s, p))
            && (forall p :: !OfContainer(c, p) ==> Held(u, p) == Held(s, p))
  {
    hide Sound, Held, Tidy, Paired, BackendPath, PseudoPath, Hidden, Neat, Apply, Unique;
    StaysInOrder(s, gone, again);
    HeldAfter(s, gone, again);
    var u := Apply(s, gone, again);
    forall p | Belongs(c, p) && p !in Mains(again)
      ensures Held(u, p) == if p in gone then None else Held(s, p)
    {
      MainsApart(again, p);
      GoneApart(gone, p);
    }
    forall p | !OfContainer(c, p)
      ensures Held(u, p) == Held(s, p)
    {
      forall w | w in again
        ensures Belongs(c, w.paths[0])
      {
        UniqueBelongs(w, c);
      }
      assert !IsMainOf(again, p);
      assert p !in WithPseudo(gone);
    }
  }

  lemma UniqueBelongs(w: Storage, c: Container)
    requires IsFor(w, c)
    ensures Belongs(c, w.paths[0])
  {
  }

  // ---- convergence ----

  /** Of the container's storages exactly those asked for are mounted, as asked for now, each with its
      pseudomanifest. */
  ghost predicate Converged(s: Server, c: Container, ws: seq<Storage>)
    requires Sound(s)
  {
    && (forall p :: Belongs(c, p) ==> (Held(s, p).Some? <==> p in Mains(ws)))
    && MountedAs(s, ws)
    && forall w :: w in ws ==> Held(s, PseudoPath(w.paths[0])).Some?
  }

  /** A wanted storage's pseudomanifest is the one asked for when the storage has been remounted, or as before. */
  ghost predicate PseudosFollow(s: Server, u: Server, ws: seq<Storage>)
    requires Sound(s) && Sound(u)
  {
    forall w :: w in ws ==> (HoldsItem(u, PseudoItem(w)) <==> ShouldRemount(s, w) || HoldsItem(s, PseudoItem(w)))
  }

  /** Nothing that does not belong to the container has changed. */
  ghost predicate OthersUntouched(s: Server, u: Server, c: Container)
    requires Sound(s) && Sound(u)
  {
    forall p :: !OfContainer(c, p) ==> Held(u, p) == Held(s, p)
  }

  lemma RemountedHeld(s: Server, c: Container, w: Storage)
    requires Sound(s) && Tidy(s) && IsFor(w, c)
    ensures ShouldRemount(s, w) <==> !HoldsItem(s, StorageItem(w))
  {
    hide BackendPath, Neat, Tidy, FirstAt;
    LookupIsHeld(s, w.paths[0]);
  }

  lemma {:induction false} RemountsAreDistinct(s: Server, ws: seq<Storage>)
    requires DifferentBackends(ws)
    ensures DifferentBackends(ToRemount(s, ws))
  {
    hide ShouldRemount;
    if ws != [] {
      var rest := ToRemount(s, ws[1..]);
      RemountsAreDistinct(s, ws[1..]);
      forall w | w in rest
        ensures w.backend != ws[0].backend
      {
        var k :| 0 <= k < |ws[1..]| && ws[1..][k] == w;
        assert ws[k + 1] == w;
      }
      OneMoreBackend(ws[0], rest);
    }
  }

  lemma OneMoreBackend(w: Storage, rest: seq<Storage>)
    requires DifferentBackends(rest) && forall v :: v in rest ==> v.backend != w.backend
    ensures DifferentBackends([w] + rest)
  {
    var r := [w] + rest;
    forall i, j | 0 <= i < j < |r|
      ensures r[i].backend != r[j].backend
    {
      assert r[j] == rest[j - 1] && r[j] in rest;
      assert i > 0 ==> r[i] == rest[i - 1];
    }
  }

  /** What one round queues when the container's primary path is mounted, it can apply. */
  lemma RoundIsApplicable(s: Server, c: Container, ws: seq<Storage>, orphans: seq<Path>)
    requires InOrder(s) && Wanted(ws, c) && IsOrder(orphans, Orphans(s.table, c, ws))
    ensures RoundApplicable(s, c, orphans, ToRemount(s, ws))
    ensures IdsOf(s.table, orphans) == Some(HeldIds(s, WithPseudo(orphans)))
  {
    hide Sound, Tidy, Paired, Held, ShouldRemount, Belongs, Orphans;
    RemountsAreDistinct(s, ws);
    forall u | u in orphans
      ensures Belongs(c, u) && BackendPath(u) && Held(s, u).Some? && u !in Mains(ws)
    {
      assert u in ToSet(orphans);
      OrphansAreHeld(s, c, ws, u);
      BelongsIsBackend(c, u);
    }
    assert ForContainer(ToRemount(s, ws), c);
    AreMountable(ToRemount(s, ws), c);
    hide ForContainer, Mountable, DifferentBackends, IsFor, BackendPath;
    assert Mains(ToRemount(s, ws)) <= Mains(ws);
    IdsOfOrphans(s, orphans);
  }

  lemma BelongsIsBackend(c: Container, u: Path)
    ensures Belongs(c, u) ==> BackendPath(u)
  {
  }

  /** The storage held under a path the container's storages share is the first wanted one. */
  lemma PrimaryIsFound(s: Server, c: Container, ws: seq<Storage>)
    requires Sound(s) && Wanted(ws, c) && MountedAs(s, ws)
    ensures FirstAt(s.table, c.primaryPath).Some?
  {
    hide BackendPath, Neat;
    assert ws[0] in ws && HoldsItem(s, StorageItem(ws[0]));
    var id := Held(s, ws[0].paths[0]).value.id;
    assert s.table.paths[id] == ws[0].paths;
    assert id in IdsAt(s.table, c.primaryPath);
  }

  lemma SomeIn(ws: seq<Storage>)
    requires ws != []
    ensures exists w :: w in ws
  {
    assert ws[0] in ws;
  }

  /** Once converged, nothing is left to queue. */
  lemma NothingToDo(s: Server, c: Container, ws: seq<Storage>)
    requires InOrder(s) && Wanted(ws, c) && Converged(s, c, ws)
    ensures FirstAt(s.table, c.primaryPath).Some?
    ensures Orphans(s.table, c, ws) == {} && ToRemount(s, ws) == []
  {
    hide Sound, Held, Belongs, ShouldRemount, FirstAt, Orphans, HoldsItem, IsFor, Paired, Tidy, BackendPath, PseudoPath;
    PrimaryIsFound(s, c, ws);
    forall p
      ensures p !in Orphans(s.table, c, ws)
    {
      OrphansAreHeld(s, c, ws, p);
    }
    forall w | w in ws
      ensures !ShouldRemount(s, w)
    {
      RemountedHeld(s, c, w);
    }
    if ToRemount(s, ws) != [] { SomeIn(ToRemount(s, ws)); }
  }

  /** With the primary path mounted, one round of queueing, unmounting and mounting converges, whatever the order
      of the orphans; storages that are current stay under their ids, and so do their pseudomanifests, even those
      that are out of date. */
  lemma RoundConverges(s: Server, c: Container, ws: seq<Storage>, orphans: seq<Path>)
    requires InOrder(s) && Wanted(ws, c) && IsOrder(orphans, Orphans(s.table, c, ws))
    ensures IdsOf(s.table, orphans).Some?
    ensures var u := MountAll(UnmountAll(s, IdsOf(s.table, orphans).value), Commands(ToRemount(s, ws)));
            && InOrder(u) && Converged(u, c, ws) && OthersUntouched(s, u, c) && PseudosFollow(s, u, ws)
            && forall w :: w in ws && !ShouldRemount(s, w) ==> Held(u, w.paths[0]) == Held(s, w.paths[0])
  {
    hide Sound, Held, Belongs, ShouldRemount, FirstAt, Orphans, Paired, Tidy, BackendPath, PseudoPath, OfContainer, Neat,
      Converged, OthersUntouched, PseudosFollow, IsOrder, Wanted;
    RoundIsApplicable(s, c, ws, orphans);
    AppliedConverges(s, c, ws, orphans);
    PseudosAreLeft(s, c, ws, orphans);
  }

  lemma AppliedConverges(s: Server, c: Container, ws: seq<Storage>, orphans: seq<Path>)
    requires InOrder(s) && Wanted(ws, c) && IsOrder(orphans, Orphans(s.table, c, ws))
    requires RoundApplicable(s, c, orphans, ToRemount(s, ws))
    ensures forall p :: p in WithPseudo(orphans) ==> Held(s, p).Some?
    ensures var u := Apply(s, orphans, ToRemount(s, ws));
            && InOrder(u) && Converged(u, c, ws) && OthersUntouched(s, u, c)
            && forall w :: w in ws && !ShouldRemount(s, w) ==> Held(u, w.paths[0]) == Held(s, w.paths[0])
  {
    hide Sound, Held, Belongs, ShouldRemount, FirstAt, Orphans, Paired, Tidy, BackendPath, PseudoPath, OfContainer, Neat,
      Apply;
    var again := ToRemount(s, ws);
    RoundKeepsOrder(s, c, orphans, again);
    var u := Apply(s, orphans, again);
    forall w | w in ws
      ensures HoldsItem(u, StorageItem(w)) && (!ShouldRemount(s, w) ==> Held(u, w.paths[0]) == Held(s, w.paths[0]))
      ensures Held(u, PseudoPath(w.paths[0])).Some?
    {
      WantedStays(s, c, ws, orphans, w);
      PairOf(u, w, c);
    }
    forall p | Belongs(c, p)
      ensures Held(u, p).Some? <==> p in Mains(ws)
    {
      OrphansAreHeld(s, c, ws, p);
      assert p in orphans <==> p in ToSet(orphans);
      assert Mains(again) <= Mains(ws);
      if p in Mains(ws) {
        var w :| w in ws && w.paths[0] == p;
      }
    }
  }

  lemma PairOf(u: Server, w: Storage, c: Container)
    requires InOrder(u) && IsFor(w, c) && HoldsItem(u, StorageItem(w))
    ensures Held(u, PseudoPath(w.paths[0])).Some?
  {
  }

  lemma WantedStays(s: Server, c: Container, ws: seq<Storage>, orphans: seq<Path>, w: Storage)
    requires InOrder(s) && Wanted(ws, c) && IsOrder(orphans, Orphans(s.table, c, ws)) && w in ws
    requires RoundApplicable(s, c, orphans, ToRemount(s, ws))
    ensures forall p :: p in WithPseudo(orphans) ==> Held(s, p).Some?
    ensures var u := Apply(s, orphans, ToRemount(s, ws));
            && Sound(u) && HoldsItem(u, StorageItem(w))
            && (!ShouldRemount(s, w) ==> Held(u, w.paths[0]) == Held(s, w.paths[0]))
  {
    hide Sound, Held, Belongs, ShouldRemount, FirstAt, Orphans, Paired, Tidy, BackendPath, PseudoPath, Neat, Apply;
    var again := ToRemount(s, ws);
    RoundKeepsOrder(s, c, orphans, again);
    RemountedHeld(s, c, w);
    UniqueBelongs(w, c);
    OrphansAreHeld(s, c, ws, w.paths[0]);
    assert w.paths[0] in orphans <==> w.paths[0] in ToSet(orphans);
    if !ShouldRemount(s, w) {
      forall v | v in again
        ensures v.paths[0] != w.paths[0]
      {
        if v.paths[0] == w.paths[0] { SameBackend(ws, v, w, c); }
      }
    }
  }

  /** What a round does to the pseudomanifest of a wanted storage. */
  lemma PseudoStays(s: Server, c: Container, ws: seq<Storage>, orphans: seq<Path>, w: Storage)
    requires InOrder(s) && Wanted(ws, c) && IsOrder(orphans, Orphans(s.table, c, ws)) && w in ws
    requires RoundApplicable(s, c, orphans, ToRemount(s, ws))
    ensures forall p :: p in WithPseudo(orphans) ==> Held(s, p).Some?
    ensures var u := Apply(s, orphans, ToRemount(s, ws));
            Sound(u) && (HoldsItem(u, PseudoItem(w)) <==> ShouldRemount(s, w) || HoldsItem(s, PseudoItem(w)))
  {
    hide Sound, Held, Belongs, ShouldRemount, FirstAt, Orphans, Paired, Tidy, BackendPath, PseudoPath, Neat, Apply, Hidden,
      IsMainOf, OfContainer;
    var again := ToRemount(s, ws);
    HeldAfter(s, orphans, again);
    if !ShouldRemount(s, w) {
      var v := w.paths[0];
      HiddenIsSome(w.paths);
      UniqueBelongs(w, c);
      BelongsIsBackend(c, v);
      OrphansAreHeld(s, c, ws, v);
      forall other | other in again
        ensures IsFor(other, c) && v != other.paths[0]
      {
        if v == other.paths[0] { SameBackend(ws, other, w, c); }
      }
      MainsApart(again, v);
      GoneApart(orphans, v);
      assert v in orphans <==> v in ToSet(orphans);
    }
  }

  lemma PseudosAreLeft(s: Server, c: Container, ws: seq<Storage>, orphans: seq<Path>)
    requires InOrder(s) && Wanted(ws, c) && IsOrder(orphans, Orphans(s.table, c, ws))
    requires RoundApplicable(s, c, orphans, ToRemount(s, ws))
    ensures forall p :: p in WithPseudo(orphans) ==> Held(s, p).Some?
    ensures Sound(Apply(s, orphans, ToRemount(s, ws))) && PseudosFollow(s, Apply(s, orphans, ToRemount(s, ws)), ws)
  {
    hide Sound, Held, Belongs, ShouldRemount, FirstAt, Orphans, Paired, Tidy, Apply, Hidden;
    RoundKeepsOrder(s, c, orphans, ToRemount(s, ws));
    forall w | w in ws
      ensures HoldsItem(Apply(s, orphans, ToRemount(s, ws)), PseudoItem(w)) <==> ShouldRemount(s, w) || HoldsItem(s, PseudoItem(w))
    {
      PseudoStays(s, c, ws, orphans, w);
    }
  }

  lemma SameBackend(ws: seq<Storage>, v: Storage, w: Storage, c: Container)
    requires Wanted(ws, c) && v in ws && w in ws && v.paths[0] == w.paths[0]
    ensures v == w
  {
    hide BackendPath, Neat;
    assert v.paths[0][5] == v.backend && w.paths[0][5] == w.backend;
  }

  /** Without the primary path mounted, a round mounts everything wanted and forgets the orphans, so that it converges
      exactly when there are none; the next round then finds the primary path. */
  lemma FirstRound(s: Server, c: Container, ws: seq<Storage>)
    requires InOrder(s) && Wanted(ws, c)
    ensures var u := MountAll(s, Commands(ws));
            && InOrder(u) && MountedAs(u, ws) && OthersUntouched(s, u, c)
            && (forall w :: w in ws ==> HoldsItem(u, PseudoItem(w)))
            && FirstAt(u.table, c.primaryPath).Some?
            && Orphans(u.table, c, ws) == Orphans(s.table, c, ws)
            && (Converged(u, c, ws) <==> Orphans(s.table, c, ws) == {})
  {
    hide Sound, Held, Belongs, ShouldRemount, FirstAt, Orphans, Paired, Tidy, BackendPath, PseudoPath, Neat, OfContainer,
      PseudoItem;
    AreMountable(ws, c);
    RoundKeepsOrder(s, c, [], ws);
    HeldAfter(s, [], ws);
    var u := MountAll(s, Commands(ws));
    assert Apply(s, [], ws) == u;
    PrimaryIsFound(u, c, ws);
    forall p
      ensures p in Orphans(u.table, c, ws) <==> p in Orphans(s.table, c, ws)
    {
      OrphansAreHeld(s, c, ws, p);
      OrphansAreHeld(u, c, ws, p);
    }
    if Orphans(s.table, c, ws) == {} { NoOrphansLeft(u, c, ws); }
    if Converged(u, c, ws) { NothingToDo(u, c, ws); }
  }

  lemma NoOrphansLeft(u: Server, c: Container, ws: seq<Storage>)
    requires InOrder(u) && Wanted(ws, c) && MountedAs(u, ws) && Orphans(u.table, c, ws) == {}
    ensures Converged(u, c, ws)
  {
    hide Sound, Held, Belongs, Orphans, Paired, Tidy, BackendPath, PseudoPath, Neat, Unique;
    forall p | Belongs(c, p)
      ensures Held(u, p).Some? <==> p in Mains(ws)
    {
      OrphansAreHeld(u, c, ws, p);
      if p in Mains(ws) {
        var w :| w in ws && w.paths[0] == p;
        assert HoldsItem(u, StorageItem(w));
      }
    }
    forall w | w in ws
      ensures Held(u, PseudoPath(w.paths[0])).Some?
    {
      assert HoldsItem(u, StorageItem(w));
      PairOf(u, w, c);
    }
  }

  // ---- a change that is missed ----

  const NOTHING_MOUNTED: Server := Server(T.EMPTY, map[])

  /** The same storages under the same paths, with other pseudomanifests: a title without categories, categories
      without a title, or for a storage that is not the primary one any of the container's titles and paths. */
  ghost predicate Retitled(ws: seq<Storage>, vs: seq<Storage>) {
    |vs| == |ws| && forall i :: 0 <= i < |ws| ==> vs[i] == ws[i].(pseudoParams := vs[i].pseudoParams)
  }

  /** A container is mounted on an empty server, and then only what its pseudomanifests say changes: the second event
      queues nothing, and the pseudomanifests are out of date wherever they have changed. */
  lemma TitleChangeIsMissed(c: Container, ws: seq<Storage>, vs: seq<Storage>)
    requires Wanted(ws, c) && Retitled(ws, vs)
    ensures var s := MountAll(NOTHING_MOUNTED, Commands(ws));
            && InOrder(s) && Wanted(vs, c) && Converged(s, c, vs)
            && Orphans(s.table, c, vs) == {} && ToRemount(s, vs) == []
            && forall i :: 0 <= i < |ws| ==> (HoldsItem(s, PseudoItem(vs[i])) <==> vs[i].pseudoParams == ws[i].pseudoParams)
  {
    hide Belongs, ShouldRemount, FirstAt, BackendPath, PseudoPath, Neat, OfContainer, Hidden, MountAll, Commands, HoldsItem, IsFor;
    EmptyIsInOrder(c, ws);
    FirstRound(NOTHING_MOUNTED, c, ws);
    var s := MountAll(NOTHING_MOUNTED, Commands(ws));
    RetitledWanted(c, ws, vs);
    RetitledHeld(s, ws, vs);
    NoOrphansLeft(s, c, vs);
    NothingToDo(s, c, vs);
    forall i | 0 <= i < |ws|
      ensures HoldsItem(s, PseudoItem(vs[i])) <==> vs[i].pseudoParams == ws[i].pseudoParams
    {
      assert ws[i] in ws;
      OnePseudoHeld(s, ws[i], vs[i]);
    }
  }

  lemma EmptyIsInOrder(c: Container, ws: seq<Storage>)
    ensures InOrder(NOTHING_MOUNTED) && Orphans(T.EMPTY, c, ws) == {}
  {
  }

  lemma RetitledWanted(c: Container, ws: seq<Storage>, vs: seq<Storage>)
    requires Wanted(ws, c) && Retitled(ws, vs)
    ensures Wanted(vs, c) && Mains(vs) == Mains(ws)
  {
    hide BackendPath, Neat;
    forall i | 0 <= i < |vs|
      ensures IsFor(vs[i], c) && vs[i].paths[0] in Mains(ws) && ws[i].paths[0] in Mains(vs)
    {
      assert ws[i] in ws && vs[i] in vs;
    }
  }

  lemma RetitledHeld(s: Server, ws: seq<Storage>, vs: seq<Storage>)
    requires Sound(s) && MountedAs(s, ws) && Retitled(ws, vs)
    ensures MountedAs(s, vs)
  {
    forall i | 0 <= i < |vs|
      ensures HoldsItem(s, StorageItem(vs[i]))
    {
      assert ws[i] in ws && StorageItem(ws[i]) == StorageItem(vs[i]);
    }
  }

  lemma OnePseudoHeld(s: Server, w: Storage, v: Storage)
    requires Sound(s) && v == w.(pseudoParams := v.pseudoParams) && HoldsItem(s, PseudoItem(w))
    ensures HoldsItem(s, PseudoItem(v)) <==> v.pseudoParams == w.pseudoParams
  {
  }
}
