/** The flat view of the mount tree: a set of (path, storage id) pairs, and what the tree must
    answer in terms of it. */
module Mounts {
  import opened Prelude

  type MountSet = set<(Path, nat)>

  /** The tree's contents: the storage ids of each node, by path. */
  type Trie = map<Path, set<nat>>

  datatype Resolved = Resolved(ident: nat, relpath: Path)

  // ---- answers over the flat set ----

  ghost predicate IsNode(m: MountSet, p: Path) {
    p == [] || exists x :: x in m && p <= x.0
  }

  function IdsAt(m: MountSet, p: Path): set<nat> {
    set x | x in m && x.0 == p :: x.1
  }

  function ChildrenAt(m: MountSet, p: Path): set<string> {
    set x | x in m && p < x.0 :: x.0[|p|]
  }

  /** More than one storage, none, or something mounted deeper. */
  ghost predicate IsSynthetic(m: MountSet, p: Path) {
    IsNode(m, p) && (ChildrenAt(m, p) != {} || |IdsAt(m, p)| != 1)
  }

  /** The storages that could be responsible for p, with the path left inside each. */
  function Responsible(m: MountSet, p: Path): set<Resolved> {
    set x | x in m && x.0 <= p :: Resolved(x.1, p[|x.0|..])
  }

  /** The order in which the tree lists them: outer mounts first, no repeats. */
  ghost predicate IsResolution(m: MountSet, p: Path, rs: seq<Resolved>) {
    && ToSet(rs) == Responsible(m, p)
    && Distinct(rs)
    && OuterFirst(rs)
  }

  ghost predicate OuterFirst(rs: seq<Resolved>) {
    forall i, j :: 0 <= i < j < |rs| ==> |rs[i].relpath| >= |rs[j].relpath|
  }

  /** The ids mounted at p or below. */
  function IdsBelow(m: MountSet, p: Path): set<nat> {
    set x | x in m && p <= x.0 :: x.1
  }

  // ---- the tree's contents ----

  function Child(p: Path, name: string): (q: Path)
    ensures |q| == |p| + 1 && q[..|p|] == p && q[|p|] == name
  {
    p + [name]
  }

  ghost predicate PrefixClosed(v: Trie) {
    [] in v && forall p, n {:trigger Child(p, n)} :: Child(p, n) in v ==> p in v
  }

  ghost predicate HasChild(v: Trie, p: Path) {
    exists n :: Child(p, n) in v
  }

  /** No node but the root is without storages and children. */
  ghost predicate Pruned(v: Trie) {
    forall p :: p in v && p != [] ==> v[p] != {} || HasChild(v, p)
  }

  ghost function Pairs(v: Trie): MountSet {
    set p, id | p in v && id in v[p] :: (p, id)
  }

  lemma {:induction false} PrefixInTrie(v: Trie, p: Path, q: Path)
    requires PrefixClosed(v) && q in v && p <= q
    ensures p in v
    decreases |q|
  {
    if p != q {
      assert q == Child(q[..|q| - 1], q[|q| - 1]);
      PrefixInTrie(v, p, q[..|q| - 1]);
    }
  }

  lemma MaxDepth(s: set<Path>) returns (d: nat)
    ensures forall p :: p in s ==> |p| <= d
  {
    d := 0;
    if s != {} {
      var p :| p in s;
      d := MaxDepth(s - {p});
      if |p| > d { d := |p|; }
      assert forall q :: q in s ==> q == p || q in s - {p};
    }
  }

  lemma {:induction false} NodeHasMount(v: Trie, p: Path, depth: nat) returns (q: Path)
    requires PrefixClosed(v) && Pruned(v) && p in v && p != []
    requires forall x :: x in v ==> |x| <= depth
    ensures q in v && p <= q && v[q] != {}
    decreases depth - |p|
  {
    if v[p] != {} {
      q := p;
    } else {
      assert HasChild(v, p);
      var n :| Child(p, n) in v;
      q := NodeHasMount(v, Child(p, n), depth);
    }
  }

  /** A pruned tree has exactly the nodes its mounts call for: its shape is a function of its pairs. */
  lemma {:induction false} TrieIsCanonical(v: Trie, p: Path)
    requires PrefixClosed(v) && Pruned(v)
    ensures p in v <==> IsNode(Pairs(v), p)
    ensures p in v ==> v[p] == IdsAt(Pairs(v), p)
  {
    var m := Pairs(v);
    if p in v {
      if p != [] {
        var depth := MaxDepth(v.Keys);
        var q := NodeHasMount(v, p, depth);
        var id :| id in v[q];
        assert (q, id) in m;
      }
      forall id ensures id in v[p] <==> id in IdsAt(m, p) {
        assert id in v[p] <==> (p, id) in m;
      }
    }
    if p != [] && IsNode(m, p) {
      var x :| x in m && p <= x.0;
      PrefixInTrie(v, p, x.0);
    }
  }

  lemma ChildrenFollowMounts(v: Trie, p: Path, n: string)
    requires PrefixClosed(v) && Pruned(v)
    ensures Child(p, n) in v <==> n in ChildrenAt(Pairs(v), p)
  {
    var m := Pairs(v);
    TrieIsCanonical(v, Child(p, n));
    if n in ChildrenAt(m, p) {
      var x :| x in m && p < x.0 && x.0[|p|] == n;
      assert Child(p, n) == x.0[..|p| + 1];
    }
    if Child(p, n) in v {
      var x :| x in m && Child(p, n) <= x.0;
      assert p == x.0[..|p|] && x.0[|p|] == n;
    }
  }

  /** Equal mount sets, equal trees. */
  lemma EqualMountsEqualTries(v: Trie, w: Trie)
    requires PrefixClosed(v) && Pruned(v) && PrefixClosed(w) && Pruned(w)
    ensures v == w <==> Pairs(v) == Pairs(w)
  {
    forall p ensures Pairs(v) == Pairs(w) ==> (p in v <==> p in w) && (p in v ==> v[p] == w[p]) {
      TrieIsCanonical(v, p);
      TrieIsCanonical(w, p);
    }
  }

  // ---- mounting and unmounting ----

  ghost function WithNode(v: Trie, p: Path): Trie {
    if p in v then v else v[p := {}]
  }

  ghost function WithPath(v: Trie, p: Path): Trie {
    if p == [] then v else WithNode(WithPath(v, p[..|p| - 1]), p)
  }

  /** The contents after a mount. */
  ghost function Mounted(v: Trie, p: Path, storageId: nat): Trie
    requires [] in v
  {
    var w := WithPath(v, p);
    assert p in w;
    w[p := w[p] + {storageId}]
  }

  predicate Leads(q: Path, p: Path) { q <= p }

  lemma LeadsToParent(q: Path, p: Path)
    requires p != []
    ensures Leads(q, p) <==> Leads(q, p[..|p| - 1]) || q == p
  {
    if Leads(q, p) && q != p { assert q == p[..|q|] == p[..|p| - 1][..|q|]; }
  }

  lemma {:induction false} WithPathNodes(v: Trie, p: Path)
    requires PrefixClosed(v)
    ensures PrefixClosed(WithPath(v, p))
    ensures forall q :: q in WithPath(v, p) <==> q in v || Leads(q, p)
    ensures forall q :: q in WithPath(v, p) ==> WithPath(v, p)[q] == if q in v then v[q] else {}
  {
    if p != [] {
      WithPathNodes(v, p[..|p| - 1]);
      forall q ensures Leads(q, p) <==> Leads(q, p[..|p| - 1]) || q == p {
        LeadsToParent(q, p);
      }
    } else {
      assert forall q :: Leads(q, p) <==> q == [];
    }
  }

  lemma MountedPruned(v: Trie, p: Path, id: nat)
    requires PrefixClosed(v) && Pruned(v)
    ensures PrefixClosed(Mounted(v, p, id)) && Pruned(Mounted(v, p, id))
  {
    WithPathNodes(v, p);
    var w := Mounted(v, p, id);
    forall q | q in w && q != []
      ensures w[q] != {} || HasChild(w, q)
    {
      if q in v && v[q] == {} {
        var n :| Child(q, n) in v;
        assert Child(q, n) in w;
      } else if q !in v && q != p {
        assert Leads(Child(q, p[|q|]), p);
      }
    }
  }

  /** Mounting adds one pair, keeps the tree pruned and keeps every other pair. */
  lemma MountedPairs(v: Trie, p: Path, id: nat)
    requires PrefixClosed(v) && Pruned(v)
    ensures PrefixClosed(Mounted(v, p, id)) && Pruned(Mounted(v, p, id))
    ensures Pairs(Mounted(v, p, id)) == Pairs(v) + {(p, id)}
  {
    MountedPruned(v, p, id);
    WithPathNodes(v, p);
  }

  /** Removes an empty leaf. */
  ghost function DropIfEmpty(v: Trie, p: Path): Trie {
    if p in v && v[p] == {} && !HasChild(v, p) then v - {p} else v
  }

  /** Removes, from the bottom up, the nodes below `here` on the way to here + rest that have become empty. */
  ghost function PrunedBelow(v: Trie, here: Path, rest: Path): Trie
    decreases |rest|
  {
    if rest == [] then v
    else
      var c := Child(here, rest[0]);
      DropIfEmpty(PrunedBelow(v, c, rest[1..]), c)
  }

  /** The contents, below `here`, after an unmount. */
  ghost function Unmounted(v: Trie, here: Path, p: Path, id: nat): Trie
    requires here <= p && p in v
  {
    PrunedBelow(v[p := v[p] - {id}], here, p[|here|..])
  }

  /** Only nodes on the way to p may be empty. */
  ghost predicate PrunedOffPath(v: Trie, p: Path) {
    forall q :: q in v && q != [] && !Leads(q, p) ==> v[q] != {} || HasChild(v, q)
  }

  lemma DropKeeps(v: Trie, here: Path, name: string)
    requires PrefixClosed(v) && PrunedOffPath(v, Child(here, name))
    ensures var w := DropIfEmpty(v, Child(here, name));
            PrefixClosed(w) && PrunedOffPath(w, here) && Pairs(w) == Pairs(v)
  {
    var c := Child(here, name);
    var w := DropIfEmpty(v, c);
    forall q, n | Child(q, n) in w
      ensures q in w
    {
      assert q in v;
    }
    forall q | q in w && q != [] && !Leads(q, here)
      ensures w[q] != {} || HasChild(w, q)
    {
      LeadsToParent(q, c);
      if v[q] == {} {
        assert HasChild(v, q);
        var n :| Child(q, n) in v;
        assert |q| <= |here| ==> Child(q, n) != c || q == here;
        assert Child(q, n) in w;
      }
    }
  }

  lemma {:induction false} PrunedBelowKeeps(v: Trie, here: Path, rest: Path)
    requires PrefixClosed(v) && PrunedOffPath(v, here + rest)
    ensures var w := PrunedBelow(v, here, rest);
            PrefixClosed(w) && PrunedOffPath(w, here) && Pairs(w) == Pairs(v)
    decreases |rest|
  {
    if rest == [] {
      assert here + rest == here;
    } else {
      var c := Child(here, rest[0]);
      assert c + rest[1..] == here + rest;
      PrunedBelowKeeps(v, c, rest[1..]);
      DropKeeps(PrunedBelow(v, c, rest[1..]), here, rest[0]);
    }
  }

  /** Unmounting removes one pair, keeps the tree pruned and keeps every other pair. */
  lemma UnmountedPairs(v: Trie, p: Path, id: nat)
    requires PrefixClosed(v) && Pruned(v) && p in v && id in v[p]
    ensures var w := Unmounted(v, [], p, id);
            PrefixClosed(w) && Pruned(w) && Pairs(w) == Pairs(v) - {(p, id)}
  {
    assert [] + p == p;
    var u := v[p := v[p] - {id}];
    forall q | q in u && q != [] && !Leads(q, p)
      ensures u[q] != {} || HasChild(u, q)
    {
      if v[q] == {} {
        assert HasChild(v, q);
        var n :| Child(q, n) in v;
        assert Child(q, n) in u;
      }
    }
    PrunedBelowKeeps(u, [], p);
    assert forall q :: Leads(q, []) ==> q == [];
  }

  /** Mounting a new pair and unmounting it gives back the very same tree. */
  lemma UnmountUndoesMount(v: Trie, p: Path, id: nat)
    requires PrefixClosed(v) && Pruned(v) && (p, id) !in Pairs(v)
    ensures Unmounted(Mounted(v, p, id), [], p, id) == v
  {
    MountedPairs(v, p, id);
    assert (p, id) in Pairs(Mounted(v, p, id));
    UnmountedPairs(Mounted(v, p, id), p, id);
    EqualMountsEqualTries(Unmounted(Mounted(v, p, id), [], p, id), v);
  }

  // ---- resolutions ----

  /** Responsible storages mounted at `here` or below, for a path that goes through `here`. */
  function ResponsibleBelow(m: MountSet, here: Path, p: Path): set<Resolved> {
    set x | x in m && here <= x.0 <= p :: Resolved(x.1, p[|x.0|..])
  }

  /** The tree resolves a path node by node: the storages here, then those of the child on the way. */
  lemma ResponsibleStep(m: MountSet, here: Path, p: Path)
    requires here <= p
    ensures ResponsibleBelow(m, here, p) ==
            (set id | id in IdsAt(m, here) :: Resolved(id, p[|here|..])) +
            (if here == p then {} else ResponsibleBelow(m, p[..|here| + 1], p))
  {
    forall x | x in m && here <= x.0 <= p && x.0 != here
      ensures p[..|here| + 1] <= x.0
    {
      assert |x.0| > |here|;
    }
  }

  /** A node's own storages, then what its child resolves. */
  lemma OuterThenInner(m: MountSet, here: Path, p: Path, own: seq<Resolved>, inner: seq<Resolved>)
    requires here < p
    requires ToSet(own) == set id | id in IdsAt(m, here) :: Resolved(id, p[|here|..])
    requires ToSet(inner) == ResponsibleBelow(m, p[..|here| + 1], p)
    requires Distinct(own) && Distinct(inner) && OuterFirst(inner)
    ensures ToSet(own + inner) == ResponsibleBelow(m, here, p)
    ensures Distinct(own + inner) && OuterFirst(own + inner)
  {
    ResponsibleStep(m, here, p);
    assert ToSet(own + inner) == ToSet(own) + ToSet(inner);
    forall r | r in inner
      ensures |r.relpath| < |p| - |here|
    {
      assert r in ToSet(inner);
    }
    forall r | r in own
      ensures |r.relpath| == |p| - |here|
    {
      assert r in ToSet(own);
    }
    assert forall i :: |own| <= i < |own + inner| ==> (own + inner)[i] in inner;
    assert forall i :: 0 <= i < |own| ==> (own + inner)[i] in own;
  }

  /** The ids mounted below p through one of the given names. */
  function IdsVia(m: MountSet, p: Path, names: set<string>): set<nat> {
    set x | x in m && p < x.0 && x.0[|p|] in names :: x.1
  }

  lemma IdsViaStep(m: MountSet, p: Path, names: set<string>, n: string)
    ensures IdsVia(m, p, names + {n}) == IdsVia(m, p, names) + IdsBelow(m, Child(p, n))
  {
    forall x: (Path, nat) | p < x.0
      ensures Child(p, n) <= x.0 <==> x.0[|p|] == n
    {
      assert p == x.0[..|p|];
      assert Child(p, n) == p + [n];
    }
    assert forall x: (Path, nat) :: Child(p, n) <= x.0 ==> p < x.0;
  }

  lemma IdsJoin(m: MountSet, p: Path, names: seq<string>, i: nat, own: set<nat>, ids: seq<nat>, below: seq<nat>)
    requires i < |names|
    requires ToSet(ids) == own + IdsVia(m, p, ToSet(names[..i])) && ToSet(below) == IdsBelow(m, Child(p, names[i]))
    ensures ToSet(ids + below) == own + IdsVia(m, p, ToSet(names[..i + 1]))
  {
    assert ToSet(names[..i + 1]) == ToSet(names[..i]) + {names[i]};
    IdsViaStep(m, p, ToSet(names[..i]), names[i]);
    assert ToSet(ids + below) == ToSet(ids) + ToSet(below);
  }

  lemma IdsBelowSplit(m: MountSet, p: Path)
    ensures IdsBelow(m, p) == IdsAt(m, p) + IdsVia(m, p, ChildrenAt(m, p))
  {
  }
}
