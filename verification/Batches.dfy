/** A batch of events about several containers: all are handled on one server, and then the queues are applied. */
module Batches {
  import opened Prelude
  import opened Reconcile
  import T = MountTable

  /** An event about a container, with the storages to mount. */
  datatype Event = Event(c: Container, ws: seq<Storage>)

  ghost predicate Different(c: Container, d: Container) { c.owner != d.owner || c.uuid != d.uuid }

  /** What a batch is about: containers as they are to be mounted, none twice. */
  ghost predicate IsBatch(es: seq<Event>) {
    && (forall i :: 0 <= i < |es| ==> Wanted(es[i].ws, es[i].c))
    && forall i, j :: 0 <= i < j < |es| ==> Different(es[i].c, es[j].c)
  }

  /** The container's primary path is mounted. */
  predicate IsKnown(s: Server, e: Event) { FirstAt(s.table, e.c.primaryPath).Some? }

  /** What an event queues to mount: what is new or changed, or everything. */
  function Queued(s: Server, e: Event): seq<Storage> {
    if IsKnown(s, e) then ToRemount(s, e.ws) else e.ws
  }

  function QueuedAll(s: Server, es: seq<Event>): seq<Storage> {
    if es == [] then [] else QueuedAll(s, es[..|es| - 1]) + Queued(s, es[|es| - 1])
  }

  /** The orphans of an event's container, in some order; none are looked for when it is not known. */
  ghost predicate IsOrphans(s: Server, e: Event, order: seq<Path>) {
    if IsKnown(s, e) then IsOrder(order, Orphans(s.table, e.c, e.ws)) else order == []
  }

  ghost predicate AreOrphans(s: Server, es: seq<Event>, orders: seq<seq<Path>>) {
    |orders| == |es| && forall i :: 0 <= i < |es| ==> IsOrphans(s, es[i], orders[i])
  }

  function Flat(orders: seq<seq<Path>>): seq<Path> {
    if orders == [] then [] else Flat(orders[..|orders| - 1]) + orders[|orders| - 1]
  }

  // ---- the queues ----

  lemma {:induction false} FlatHas(orders: seq<seq<Path>>, p: Path)
    ensures p in Flat(orders) <==> exists i :: 0 <= i < |orders| && p in orders[i]
  {
    if orders != [] {
      var before := orders[..|orders| - 1];
      FlatHas(before, p);
      if i :| 0 <= i < |before| && p in before[i] { assert p in orders[i]; }
      if i :| 0 <= i < |orders| && p in orders[i] && i < |before| { assert p in before[i]; }
    }
  }

  lemma {:induction false} QueuedAllHas(s: Server, es: seq<Event>, w: Storage)
    ensures w in QueuedAll(s, es) <==> exists i :: 0 <= i < |es| && w in Queued(s, es[i])
  {
    hide Queued;
    if es != [] {
      var before := es[..|es| - 1];
      QueuedAllHas(s, before, w);
      if i :| 0 <= i < |before| && w in Queued(s, before[i]) { assert w in Queued(s, es[i]); }
      if i :| 0 <= i < |es| && w in Queued(s, es[i]) && i < |before| { assert w in Queued(s, before[i]); }
    }
  }

  lemma BelongsToOne(c: Container, d: Container, p: Path)
    requires Belongs(c, p) && Belongs(d, p)
    ensures !Different(c, d)
  {
    assert (c.owner + ":")[..|c.owner|] == c.owner && (d.owner + ":")[..|d.owner|] == d.owner;
  }

  /** What one event queues. */
  lemma QueuedIsOf(s: Server, e: Event, order: seq<Path>)
    requires InOrder(s) && Wanted(e.ws, e.c) && IsOrphans(s, e, order)
    ensures RoundApplicable(s, e.c, order, Queued(s, e))
    ensures IdsOf(s.table, order) == Some(HeldIds(s, WithPseudo(order)))
    ensures forall w :: w in Queued(s, e) ==> w in e.ws && IsFor(w, e.c) && Belongs(e.c, w.paths[0])
    ensures forall p :: p in order ==> Belongs(e.c, p) && p !in Mains(e.ws)
  {
    hide Sound, Tidy, Paired, FirstAt, Orphans, BackendPath, Neat, ShouldRemount, Belongs, Held;
    if IsKnown(s, e) {
      RoundIsApplicable(s, e.c, e.ws, order);
      forall p | p in order
        ensures Belongs(e.c, p) && p !in Mains(e.ws)
      {
        assert p in ToSet(order);
        OrphansAreHeld(s, e.c, e.ws, p);
      }
    } else {
      AreMountable(e.ws, e.c);
    }
    forall w | w in Queued(s, e)
      ensures Belongs(e.c, w.paths[0])
    {
      UniqueBelongs(w, e.c);
    }
  }

  lemma JoinApplicable(s: Server, g: seq<Path>, a: seq<Storage>, g': seq<Path>, a': seq<Storage>)
    requires Applicable(s, g, a) && Applicable(s, g', a')
    requires forall p :: p in g ==> p !in g' && p !in Mains(a')
    requires forall p :: p in g' ==> p !in Mains(a)
    requires forall v, w :: v in a && w in a' ==> v.paths[0] != w.paths[0]
    ensures Applicable(s, g + g', a + a')
  {
    hide InOrder, BackendPath, IsStorage, Held;
    var all, mounts := g + g', a + a';
    forall i, j | 0 <= i < j < |all|
      ensures all[i] != all[j]
    {
      if i < |g| <= j { assert all[i] == g[i] && g[i] in g && all[j] == g'[j - |g|] && g'[j - |g|] in g'; }
    }
    forall i, j | 0 <= i < j < |mounts|
      ensures mounts[i].paths[0] != mounts[j].paths[0]
    {
      if i < |a| <= j { assert mounts[i] == a[i] && a[i] in a && mounts[j] == a'[j - |a|] && a'[j - |a|] in a'; }
    }
    MainsOfBoth(a, a');
  }

  lemma MainsOfBoth(a: seq<Storage>, a': seq<Storage>)
    ensures Mains(a + a') == Mains(a) + Mains(a')
  {
    forall p
      ensures p in Mains(a + a') <==> p in Mains(a) || p in Mains(a')
    {
      if p in Mains(a) { var w :| w in a && w.paths[0] == p; assert w in a + a'; }
      if p in Mains(a') { var w :| w in a' && w.paths[0] == p; assert w in a + a'; }
    }
  }

  /** What the last event of a batch queues, and what those before it queue, is of different containers. */
  lemma QueuesAreApart(s: Server, es: seq<Event>, orders: seq<seq<Path>>)
    requires InOrder(s) && IsBatch(es) && AreOrphans(s, es, orders) && es != []
    ensures var e, order := es[|es| - 1], orders[|es| - 1];
            var g, a := Flat(orders[..|es| - 1]), QueuedAll(s, es[..|es| - 1]);
            && (forall p :: p in g ==> p !in order && p !in Mains(Queued(s, e)))
            && (forall p :: p in order ==> p !in Mains(a))
            && forall v, w :: v in a && w in Queued(s, e) ==> v.paths[0] != w.paths[0]
  {
    hide InOrder, IsOrphans, Queued, Wanted, Different, Belongs, RoundApplicable, IsFor;
    var e, order := es[|es| - 1], orders[|es| - 1];
    QueuedIsOf(s, e, order);
    forall p | p in Flat(orders[..|es| - 1])
      ensures !Belongs(e.c, p)
    {
      FlatHas(orders[..|es| - 1], p);
      var i :| 0 <= i < |es| - 1 && p in orders[..|es| - 1][i];
      QueuedIsOf(s, es[i], orders[i]);
      NotOfBoth(es, i, p);
    }
    forall v | v in QueuedAll(s, es[..|es| - 1])
      ensures !Belongs(e.c, v.paths[0])
    {
      QueuedAllHas(s, es[..|es| - 1], v);
      var i :| 0 <= i < |es| - 1 && v in Queued(s, es[..|es| - 1][i]);
      QueuedIsOf(s, es[i], orders[i]);
      NotOfBoth(es, i, v.paths[0]);
    }
  }

  lemma NotOfBoth(es: seq<Event>, i: nat, p: Path)
    requires IsBatch(es) && i < |es| - 1 && Belongs(es[i].c, p)
    ensures !Belongs(es[|es| - 1].c, p)
  {
    hide Wanted, Belongs, Different;
    if Belongs(es[|es| - 1].c, p) { BelongsToOne(es[i].c, es[|es| - 1].c, p); }
  }

  /** The queues of one event and those before it can be applied together. */
  lemma {:induction false} QueuesAreApplicable(s: Server, es: seq<Event>, orders: seq<seq<Path>>)
    requires InOrder(s) && IsBatch(es) && AreOrphans(s, es, orders)
    ensures Applicable(s, Flat(orders), QueuedAll(s, es))
  {
    hide InOrder, IsOrphans, Queued, Wanted, Different, Belongs;
    if es == [] {
      NothingIsApplicable(s);
    } else {
      var es', orders', e, order := es[..|es| - 1], orders[..|es| - 1], es[|es| - 1], orders[|es| - 1];
      QueuesAreApplicable(s, es', orders');
      QueuedIsOf(s, e, order);
      QueuesAreApart(s, es, orders);
      hide Applicable, RoundApplicable, AreOrphans, IsBatch, Flat, QueuedAll;
      JoinApplicable(s, Flat(orders'), QueuedAll(s, es'), order, Queued(s, e));
    }
  }

  lemma NothingIsApplicable(s: Server)
    requires InOrder(s)
    ensures Applicable(s, [], [])
  {
  }

  lemma {:induction false} IdsOfBoth(t: T.Table, us: seq<Path>, vs: seq<Path>)
    ensures var (a, b) := (IdsOf(t, us), IdsOf(t, vs));
            IdsOf(t, us + vs) == if a.Some? && b.Some? then Some(a.value + b.value) else None
  {
    hide FindByPath;
    if us == [] {
      assert us + vs == vs;
      if IdsOf(t, vs).Some? { assert [] + IdsOf(t, vs).value == IdsOf(t, vs).value; }
    } else {
      assert (us + vs)[0] == us[0] && (us + vs)[1..] == us[1..] + vs;
      IdsOfBoth(t, us[1..], vs);
      var (id, pseudo) := FindByPath(t, us[0]);
      var a, b := IdsOf(t, us[1..]), IdsOf(t, vs);
      if id.Some? && pseudo.Some? && a.Some? && b.Some? {
        assert [id.value, pseudo.value] + (a.value + b.value) == [id.value, pseudo.value] + a.value + b.value;
      }
    }
  }

  // ---- what a batch comes to for each container ----

  /** Servers that hold the same for a container, ids apart. */
  ghost predicate Alike(u: Server, v: Server, c: Container)
    requires Sound(u) && Sound(v)
  {
    forall p :: OfContainer(c, p) ==> HeldAlike(Held(u, p), Held(v, p))
  }

  ghost predicate HeldAlike(a: Option<Mounted>, b: Option<Mounted>) {
    (a.Some? <==> b.Some?) && (a.Some? ==> a.value.paths == b.value.paths && a.value.tag == b.value.tag)
  }

  /** Where a container is concerned, a batch is as good as its own event alone. */
  lemma BatchIsAlike(s: Server, es: seq<Event>, orders: seq<seq<Path>>, k: nat)
    requires InOrder(s) && IsBatch(es) && AreOrphans(s, es, orders) && k < |es|
    ensures forall p :: p in WithPseudo(Flat(orders)) ==> Held(s, p).Some?
    ensures forall p :: p in WithPseudo(orders[k]) ==> Held(s, p).Some?
    ensures var u, v := Apply(s, Flat(orders), QueuedAll(s, es)), Apply(s, orders[k], Queued(s, es[k]));
            Sound(u) && Sound(v) && Alike(u, v, es[k].c)
  {
    assert |orders| == |es|;
    hide InOrder, IsOrphans, Queued, Wanted, Held, Belongs, Apply, IsStorage, OfContainer, IsMainOf, WithPseudo, Sound,
      HoldsItem, HeldAlike, IsBatch, AreOrphans, Applicable, RoundApplicable, QueuedAll, Flat;
    var e, gone, again := es[k], Flat(orders), QueuedAll(s, es);
    AreQueued(s, es, orders, k);
    SoundAfter(s, gone, again);
    SoundAfter(s, orders[k], Queued(s, e));
    hide LeftAs;
    forall p | OfContainer(e.c, p)
      ensures HeldAlike(Held(Apply(s, gone, again), p), Held(Apply(s, orders[k], Queued(s, e)), p))
    {
      MountsMatter(s, es, orders, k, p);
      GoneMatters(s, es, orders, k, p);
      LeavesAs(s, gone, again, p);
      LeavesAs(s, orders[k], Queued(s, e), p);
      PathIsAlike(s, Apply(s, gone, again), Apply(s, orders[k], Queued(s, e)), gone, again, orders[k], Queued(s, e), p);
    }
  }

  lemma SoundAfter(s: Server, gone: seq<Path>, again: seq<Storage>)
    requires Applicable(s, gone, again)
    ensures forall p :: p in WithPseudo(gone) ==> Held(s, p).Some?
    ensures Sound(s) && Sound(Apply(s, gone, again))
  {
    HeldAfter(s, gone, again);
  }

  lemma LeavesAs(s: Server, gone: seq<Path>, again: seq<Storage>, p: Path)
    requires Applicable(s, gone, again)
    ensures forall p :: p in WithPseudo(gone) ==> Held(s, p).Some?
    ensures Sound(s) && Sound(Apply(s, gone, again)) && LeftAs(s, Apply(s, gone, again), gone, again, p)
  {
    hide Sound, Held, HoldsItem, IsMainOf, Apply, WithPseudo;
    HeldAfter(s, gone, again);
  }

  lemma AreQueued(s: Server, es: seq<Event>, orders: seq<seq<Path>>, k: nat)
    requires InOrder(s) && IsBatch(es) && AreOrphans(s, es, orders) && k < |es|
    ensures Sound(s) && Applicable(s, Flat(orders), QueuedAll(s, es)) && Applicable(s, orders[k], Queued(s, es[k]))
    ensures forall w :: w in Queued(s, es[k]) ==> w in QueuedAll(s, es)
  {
    hide IsOrphans, Queued, Wanted;
    QueuesAreApplicable(s, es, orders);
    QueuedIsOf(s, es[k], orders[k]);
    forall w | w in Queued(s, es[k]) ensures w in QueuedAll(s, es) { QueuedAllHas(s, es, w); }
  }

  /** What is left of a container on one server. */
  ghost predicate LeftAs(s: Server, u: Server, gone: seq<Path>, again: seq<Storage>, p: Path)
    requires Sound(s) && Sound(u)
  {
    && (forall w :: w in again ==> HoldsItem(u, StorageItem(w)) && HoldsItem(u, PseudoItem(w)))
    && (!IsMainOf(again, p) ==> Held(u, p) == if p in WithPseudo(gone) then None else Held(s, p))
  }

  lemma PathIsAlike(s: Server, u: Server, v: Server, gone: seq<Path>, again: seq<Storage>, gone': seq<Path>, again': seq<Storage>, p: Path)
    requires Sound(s) && Sound(u) && Sound(v) && LeftAs(s, u, gone, again, p) && LeftAs(s, v, gone', again', p)
    requires forall w :: w in again' ==> w in again
    requires IsMainOf(again, p) <==> IsMainOf(again', p)
    requires p in WithPseudo(gone) <==> p in WithPseudo(gone')
    ensures HeldAlike(Held(u, p), Held(v, p))
  {
    hide Sound, Held, IsMainOf, WithPseudo, HoldsItem, PseudoItem, StorageItem;
    if IsMainOf(again', p) { MountedAlike(u, v, again', p); }
  }

  lemma MountedAlike(u: Server, v: Server, ws: seq<Storage>, p: Path)
    requires Sound(u) && Sound(v) && IsMainOf(ws, p)
    requires forall w :: w in ws ==> HoldsItem(u, StorageItem(w)) && HoldsItem(u, PseudoItem(w))
    requires forall w :: w in ws ==> HoldsItem(v, StorageItem(w)) && HoldsItem(v, PseudoItem(w))
    ensures HeldAlike(Held(u, p), Held(v, p))
  {
    hide Sound, Held, PseudoPath;
    var w :| w in ws && (p == w.paths[0] || p == PseudoPath(w.paths[0]));
    HiddenIsSome(w.paths);
  }

  /** Of the queues, only what is of a container touches its paths. */
  lemma MountsMatter(s: Server, es: seq<Event>, orders: seq<seq<Path>>, k: nat, p: Path)
    requires InOrder(s) && IsBatch(es) && AreOrphans(s, es, orders) && k < |es| && OfContainer(es[k].c, p)
    ensures IsMainOf(QueuedAll(s, es), p) <==> IsMainOf(Queued(s, es[k]), p)
  {
    hide InOrder, IsOrphans, Queued, Wanted, Belongs, PseudoPath, OfContainer, Different, IsFor, RoundApplicable;
    if w :| w in QueuedAll(s, es) && (p == w.paths[0] || p == PseudoPath(w.paths[0])) {
      QueuedAllHas(s, es, w);
      var i :| 0 <= i < |es| && w in Queued(s, es[i]);
      QueuedIsOf(s, es[i], orders[i]);
      OwnEvent(es, k, i, p, w.paths[0]);
    }
    if w :| w in Queued(s, es[k]) && (p == w.paths[0] || p == PseudoPath(w.paths[0])) {
      QueuedAllHas(s, es, w);
    }
  }

  lemma GoneMatters(s: Server, es: seq<Event>, orders: seq<seq<Path>>, k: nat, p: Path)
    requires InOrder(s) && IsBatch(es) && AreOrphans(s, es, orders) && k < |es| && OfContainer(es[k].c, p)
    ensures p in WithPseudo(Flat(orders)) <==> p in WithPseudo(orders[k])
  {
    hide InOrder, IsOrphans, Queued, Wanted, Belongs, PseudoPath, OfContainer, Different, IsFor, RoundApplicable;
    if x :| x in Flat(orders) && (p == x || p == PseudoPath(x)) {
      FlatHas(orders, x);
      var i :| 0 <= i < |orders| && x in orders[i];
      QueuedIsOf(s, es[i], orders[i]);
      OwnEvent(es, k, i, p, x);
    }
    if x :| x in orders[k] && (p == x || p == PseudoPath(x)) {
      FlatHas(orders, x);
    }
  }

  lemma OwnEvent(es: seq<Event>, k: nat, i: nat, p: Path, x: Path)
    requires IsBatch(es) && k < |es| && i < |es| && OfContainer(es[k].c, p)
    requires Belongs(es[i].c, x) && (p == x || p == PseudoPath(x))
    ensures i == k
  {
    hide Wanted, Belongs, PseudoPath, OfContainer;
    OwnPath(es[k].c, es[i].c, p, x);
    assert i < k ==> Different(es[i].c, es[k].c);
    assert k < i ==> Different(es[k].c, es[i].c);
  }

  /** A path of a container that is of another's storage too: they are the same container. */
  lemma OwnPath(c: Container, d: Container, p: Path, x: Path)
    requires OfContainer(c, p) && Belongs(d, x) && (p == x || p == PseudoPath(x))
    ensures c.owner == d.owner && c.uuid == d.uuid
  {
    hide PseudoPath;
    PseudoPathIs(x);
    if Belongs(c, p) {
      BelongsToOne(c, d, x);
    } else {
      var y :| Belongs(c, y) && p == PseudoPath(y);
      PseudoPathIs(y);
      if p == PseudoPath(x) { PseudoPathsDiffer(x, y); }
      BelongsToOne(c, d, x);
    }
  }

  lemma ItemAlike(u: Server, v: Server, c: Container, w: Storage)
    requires Sound(u) && Sound(v) && Alike(u, v, c) && IsFor(w, c)
    ensures HoldsItem(u, StorageItem(w)) <==> HoldsItem(v, StorageItem(w))
    ensures HoldsItem(u, PseudoItem(w)) <==> HoldsItem(v, PseudoItem(w))
    ensures Held(u, PseudoPath(w.paths[0])).Some? <==> Held(v, PseudoPath(w.paths[0])).Some?
  {
    hide Sound, Held, PseudoPath, Belongs, Hidden, IsFor;
    UniqueBelongs(w, c);
    HiddenIsSome(w.paths);
    assert OfContainer(c, w.paths[0]) && OfContainer(c, PseudoPath(w.paths[0]));
  }

  lemma ConvergedAlike(u: Server, v: Server, c: Container, ws: seq<Storage>)
    requires Sound(u) && Sound(v) && Alike(u, v, c) && Wanted(ws, c)
    ensures (Converged(u, c, ws) <==> Converged(v, c, ws)) && (MountedAs(u, ws) <==> MountedAs(v, ws))
  {
    hide Sound, Held, PseudoPath, Belongs, IsFor, HoldsItem;
    forall w | w in ws
      ensures HoldsItem(u, StorageItem(w)) <==> HoldsItem(v, StorageItem(w))
      ensures Held(u, PseudoPath(w.paths[0])).Some? <==> Held(v, PseudoPath(w.paths[0])).Some?
    {
      ItemAlike(u, v, c, w);
    }
    forall p | Belongs(c, p)
      ensures Held(u, p).Some? <==> Held(v, p).Some?
    {
      assert OfContainer(c, p);
    }
  }

  // ---- the batch ----

  /** What a batch does for one of its containers. */
  ghost predicate Served(s: Server, u: Server, e: Event)
    requires Sound(s) && Sound(u)
  {
    && MountedAs(u, e.ws) && FirstAt(u.table, e.c.primaryPath).Some?
    && (Converged(u, e.c, e.ws) <==> IsKnown(s, e) || Orphans(s.table, e.c, e.ws) == {})
    && forall w :: w in e.ws ==>
         (HoldsItem(u, PseudoItem(w)) <==> !IsKnown(s, e) || ShouldRemount(s, w) || HoldsItem(s, PseudoItem(w)))
  }

  /** One event alone. */
  lemma AloneIsServed(s: Server, e: Event, order: seq<Path>)
    requires InOrder(s) && Wanted(e.ws, e.c) && IsOrphans(s, e, order)
    ensures forall p :: p in WithPseudo(order) ==> Held(s, p).Some?
    ensures Sound(Apply(s, order, Queued(s, e))) && InOrder(Apply(s, order, Queued(s, e)))
    ensures Served(s, Apply(s, order, Queued(s, e)), e)
  {
    hide Sound, Held, Belongs, ShouldRemount, FirstAt, Orphans, Paired, Tidy, PseudoItem, StorageItem, Wanted, IsOrder,
      HoldsItem, MountAll, UnmountAll, Commands;
    QueuedIsOf(s, e, order);
    SoundAfter(s, order, Queued(s, e));
    if IsKnown(s, e) {
      RoundConverges(s, e.c, e.ws, order);
      NothingToDo(Apply(s, order, Queued(s, e)), e.c, e.ws);
    } else {
      FirstRound(s, e.c, e.ws);
      NothingUnmounted(s, e.ws);
    }
  }

  lemma NothingUnmounted(s: Server, ws: seq<Storage>)
    requires Sound(s)
    ensures Apply(s, [], ws) == MountAll(s, Commands(ws))
  {
  }

  /** Each container of a batch is served as by its own event, and nothing of other containers is touched. */
  lemma BatchServesAll(s: Server, es: seq<Event>, orders: seq<seq<Path>>)
    requires InOrder(s) && IsBatch(es) && AreOrphans(s, es, orders)
    ensures IdsOf(s.table, Flat(orders)).Some?
    ensures var u := MountAll(UnmountAll(s, IdsOf(s.table, Flat(orders)).value), Commands(QueuedAll(s, es)));
            && InOrder(u)
            && (forall i :: 0 <= i < |es| ==> Served(s, u, es[i]))
            && forall p :: (forall i :: 0 <= i < |es| ==> !OfContainer(es[i].c, p)) ==> Held(u, p) == Held(s, p)
  {
    hide Sound, Held, Belongs, FirstAt, Orphans, Paired, Tidy, Served, OfContainer, MountAll, UnmountAll, Commands,
      Queued, QueuedAll, Flat, IsOrphans, Wanted, PseudoPath, BackendPath;
    var gone, again := Flat(orders), QueuedAll(s, es);
    QueuesAreApplicable(s, es, orders);
    IdsOfOrphans(s, gone);
    HeldAfter(s, gone, again);
    StaysInOrder(s, gone, again);
    var u := Apply(s, gone, again);
    forall i | 0 <= i < |es|
      ensures Served(s, u, es[i])
    {
      ServedInBatch(s, es, orders, i);
    }
    forall p | forall i :: 0 <= i < |es| ==> !OfContainer(es[i].c, p)
      ensures Held(u, p) == Held(s, p)
    {
      OthersOutside(s, es, orders, p);
    }
  }

  lemma ServedInBatch(s: Server, es: seq<Event>, orders: seq<seq<Path>>, k: nat)
    requires InOrder(s) && IsBatch(es) && AreOrphans(s, es, orders) && k < |es|
    ensures forall p :: p in WithPseudo(Flat(orders)) ==> Held(s, p).Some?
    ensures var u := Apply(s, Flat(orders), QueuedAll(s, es)); Sound(u) && InOrder(u) && Served(s, u, es[k])
  {
    hide Held, Belongs, FirstAt, Orphans, Paired, Tidy, Sound, OfContainer, Apply, Queued, QueuedAll, Flat, IsOrphans, HoldsItem,
      ShouldRemount, Converged, MountedAs, Alike, WithPseudo;
    var e := es[k];
    QueuesAreApplicable(s, es, orders);
    StaysInOrder(s, Flat(orders), QueuedAll(s, es));
    BatchIsAlike(s, es, orders, k);
    AloneIsServed(s, e, orders[k]);
    var u, v := Apply(s, Flat(orders), QueuedAll(s, es)), Apply(s, orders[k], Queued(s, e));
    ConvergedAlike(u, v, e.c, e.ws);
    PrimaryIsFound(u, e.c, e.ws);
    forall w | w in e.ws
      ensures HoldsItem(u, PseudoItem(w)) <==> HoldsItem(v, PseudoItem(w))
    {
      ItemAlike(u, v, e.c, w);
    }
  }

  lemma IsOfContainer(c: Container, x: Path, p: Path)
    requires Belongs(c, x) && (p == x || p == PseudoPath(x))
    ensures OfContainer(c, p)
  {
  }

  /** A path of none of the containers is in no queue. */
  lemma OthersOutside(s: Server, es: seq<Event>, orders: seq<seq<Path>>, p: Path)
    requires InOrder(s) && IsBatch(es) && AreOrphans(s, es, orders)
    requires forall i :: 0 <= i < |es| ==> !OfContainer(es[i].c, p)
    ensures !IsMainOf(QueuedAll(s, es), p) && p !in WithPseudo(Flat(orders))
  {
    hide InOrder, IsOrphans, Queued, Wanted, Belongs, PseudoPath, IsFor, RoundApplicable, OfContainer;
    if w :| w in QueuedAll(s, es) && (p == w.paths[0] || p == PseudoPath(w.paths[0])) {
      QueuedAllHas(s, es, w);
      var i :| 0 <= i < |es| && w in Queued(s, es[i]);
      QueuedIsOf(s, es[i], orders[i]);
      IsOfContainer(es[i].c, w.paths[0], p);
    }
    if x :| x in Flat(orders) && (p == x || p == PseudoPath(x)) {
      FlatHas(orders, x);
      var i :| 0 <= i < |orders| && x in orders[i];
      QueuedIsOf(s, es[i], orders[i]);
      IsOfContainer(es[i].c, x, p);
    }
  }

  /** A batch of events, as the main loop handles it: everything is queued, and then the queues are applied. No event
      fails, and each container is served. */
  method HandleBatch(r: Remounter, es: seq<Event>) returns (failed: bool)
    requires r.toMount == [] && r.toUnmount == [] && InOrder(r.server) && IsBatch(es)
    modifies r
    ensures !failed && r.toMount == [] && r.toUnmount == [] && InOrder(r.server)
    ensures forall i :: 0 <= i < |es| ==> Served(old(r.server), r.server, es[i])
    ensures forall p :: (forall i :: 0 <= i < |es| ==> !OfContainer(es[i].c, p)) ==> Held(r.server, p) == Held(old(r.server), p)
  {
    hide InOrder, Wanted, Served, Held, IsOrder, Orphans, FirstAt, OfContainer, ToRemount, IdsOf, UnmountAll, MountAll, Commands,
      IsBatch, Different;
    ghost var s, orders := r.server, [];
    failed := false;
    NothingQueued(s);
    for k := 0 to |es|
      invariant !failed && r.server == s && AreOrphans(s, es[..k], orders)
      invariant IdsOf(s.table, Flat(orders)) == Some(r.toUnmount) && r.toMount == QueuedAll(s, es[..k])
    {
      ghost var order;
      assert r.toUnmount + [] == r.toUnmount;
      order, failed := r.HandleChangedContainer(es[k].c, es[k].ws);
      EventFits(s, es, k, order);
      OneMoreEvent(s, es, k, orders, order);
      orders := orders + [order];
    }
    assert es[..|es|] == es;
    BatchServesAll(s, es, orders);
    r.UnmountPending();
    r.MountPending();
  }

  lemma NothingQueued(s: Server)
    ensures IdsOf(s.table, []) == Some([]) && Flat([]) == [] && QueuedAll(s, []) == []
  {
  }

  lemma EventFits(s: Server, es: seq<Event>, k: nat, order: seq<Path>)
    requires InOrder(s) && IsBatch(es) && k < |es| && IsOrphans(s, es[k], order)
    ensures IdsOf(s.table, order).Some?
  {
    QueuedIsOf(s, es[k], order);
  }

  lemma OneMoreEvent(s: Server, es: seq<Event>, k: nat, orders: seq<seq<Path>>, order: seq<Path>)
    requires k < |es| && AreOrphans(s, es[..k], orders) && IsOrphans(s, es[k], order)
    requires IdsOf(s.table, Flat(orders)).Some? && IdsOf(s.table, order).Some?
    ensures AreOrphans(s, es[..k + 1], orders + [order])
    ensures QueuedAll(s, es[..k + 1]) == QueuedAll(s, es[..k]) + Queued(s, es[k])
    ensures IdsOf(s.table, Flat(orders + [order])) == Some(IdsOf(s.table, Flat(orders)).value + IdsOf(s.table, order).value)
  {
    hide IsOrphans, Queued, IdsOf;
    var longer, all := es[..k + 1], orders + [order];
    assert longer[..k] == es[..k] && longer[k] == es[k] && all[..k] == orders;
    IdsOfBoth(s.table, Flat(orders), order);
  }
}
