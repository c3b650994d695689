/** The client's own prefix tree, built from the server's answer to the `paths` command. */
module ClientTree {
  import opened Prelude
  import opened Mounts
  import T = MountTable

  /** Storage ids by path, as the server reports them. */
  type Paths = map<Path, seq<nat>>

  datatype PathTree = PathTree(storageIds: seq<nat>, children: map<string, PathTree>)

  /** The tree after entering ids at a path, with the nodes that lead to it. */
  function Insert(t: PathTree, p: Path, ids: seq<nat>): PathTree
    decreases |p|
  {
    if p == [] then t.(storageIds := t.storageIds + ids)
    else
      var child := if p[0] in t.children then t.children[p[0]] else PathTree([], map[]);
      t.(children := t.children[p[0] := Insert(child, p[1..], ids)])
  }

  /** The ids at the node of a path; none when there is no node. */
  function IdsIn(t: PathTree, p: Path): seq<nat>
    decreases |p|
  {
    if p == [] then t.storageIds
    else if p[0] in t.children then IdsIn(t.children[p[0]], p[1..])
    else []
  }

  lemma {:induction false} InsertAdds(t: PathTree, p: Path, ids: seq<nat>, q: Path)
    ensures IdsIn(Insert(t, p, ids), q) == IdsIn(t, q) + if q == p then ids else []
    decreases |p|
  {
    if p != [] && q != [] && p[0] == q[0] {
      var child := if p[0] in t.children then t.children[p[0]] else PathTree([], map[]);
      InsertAdds(child, p[1..], ids, q[1..]);
      EmptyHasNone(q[1..]);
      assert q == p <==> q[1..] == p[1..] by {
        assert q == [q[0]] + q[1..] && p == [p[0]] + p[1..];
      }
    }
  }

  lemma EmptyHasNone(q: Path)
    ensures IdsIn(PathTree([], map[]), q) == []
  {
  }

  /** get_path_tree: the order of the paths is immaterial. */
  method GetPathTree(paths: Paths) returns (tree: PathTree)
    ensures forall q :: IdsIn(tree, q) == if q in paths then paths[q] else []
  {
    tree := PathTree([], map[]);
    forall q { EmptyHasNone(q); }
    var rest := paths.Keys;
    while rest != {}
      invariant rest <= paths.Keys
      invariant forall q :: IdsIn(tree, q) == if q in paths.Keys - rest then paths[q] else []
      decreases rest
    {
      var p :| p in rest;
      forall q { InsertAdds(tree, p, paths[p], q); }
      tree := Insert(tree, p, paths[p]);
      rest := rest - {p};
    }
  }

  /** One storage a path is inside: its id, where it is mounted, and the path inside it. */
  datatype Inside = Inside(ident: nat, storagePath: Path, relpath: Path)

  function InsidesAt(ids: seq<nat>, path: Path, i: nat): seq<Inside>
    requires i <= |path|
  {
    seq(|ids|, k requires 0 <= k < |ids| => Inside(ids[k], path[..i], path[i..]))
  }

  /** All storages on the prefixes of a path of length 1 to n, in that order. */
  function InsidesUpTo(paths: Paths, path: Path, n: nat): seq<Inside>
    requires n <= |path|
  {
    if n == 0 then []
    else InsidesUpTo(paths, path, n - 1)
         + InsidesAt(if path[..n] in paths then paths[path[..n]] else [], path, n)
  }

  lemma {:induction false} NothingDeeper(paths: Paths, path: Path, i: nat, n: nat)
    requires i <= n <= |path|
    requires forall k :: i < k <= n ==> path[..k] !in paths || paths[path[..k]] == []
    ensures InsidesUpTo(paths, path, n) == InsidesUpTo(paths, path, i)
  {
    if i < n { NothingDeeper(paths, path, i, n - 1); }
  }

  lemma {:induction false} IdsInStep(t: PathTree, p: Path, q: Path)
    requires |p| < |q| && p < q
    ensures Node(t, p).Some? && q[|p|] in Node(t, p).value.children <==> Node(t, q[..|p| + 1]).Some?
    ensures Node(t, q[..|p| + 1]).Some? ==> Node(t, q[..|p| + 1]).value == Node(t, p).value.children[q[|p|]]
    decreases |p|
  {
    var r := q[..|p| + 1];
    if p != [] && p[0] in t.children {
      assert q[0] == p[0] && q[1..][..|p[1..]|] == p[1..];
      IdsInStep(t.children[p[0]], p[1..], q[1..]);
      assert r[1..] == q[1..][..|p[1..]| + 1];
      assert q[1..][|p[1..]|] == q[|p|];
    }
  }

  function Node(t: PathTree, p: Path): Option<PathTree>
    decreases |p|
  {
    if p == [] then Some(t)
    else if p[0] in t.children then Node(t.children[p[0]], p[1..])
    else None
  }

  lemma {:induction false} NodeIds(t: PathTree, p: Path)
    ensures IdsIn(t, p) == if Node(t, p).Some? then Node(t, p).value.storageIds else []
    decreases |p|
  {
    if p != [] && p[0] in t.children { NodeIds(t.children[p[0]], p[1..]); }
  }

  lemma {:induction false} NoNodeNoIds(t: PathTree, p: Path, q: Path)
    requires p <= q && Node(t, p).None?
    ensures IdsIn(t, q) == []
    decreases |p|
  {
    if p[0] in t.children {
      assert p[1..] <= q[1..];
      NoNodeNoIds(t.children[p[0]], p[1..], q[1..]);
    }
  }

  /** find_all_storage_ids_for_path. It asserts that the root has no storages, which fails exactly when one
      is mounted at the empty path. */
  method FindAll(tree: PathTree, path: Path, ghost paths: Paths) returns (r: Option<seq<Inside>>)
    requires forall q :: IdsIn(tree, q) == if q in paths then paths[q] else []
    ensures r.None? <==> [] in paths && paths[[]] != []
    ensures r.Some? ==> r.value == InsidesUpTo(paths, path, |path|)
  {
    assert IdsIn(tree, []) == tree.storageIds;
    if tree.storageIds != [] {
      return None;
    }
    var found: seq<Inside> := [];
    var node := tree;
    for i := 0 to |path|
      invariant Node(tree, path[..i]) == Some(node)
      invariant found == InsidesUpTo(paths, path, i)
    {
      IdsInStep(tree, path[..i], path);
      if path[i] !in node.children {
        forall k | i < k <= |path|
          ensures path[..k] !in paths || paths[path[..k]] == []
        {
          assert path[..i + 1] <= path[..k];
          NoNodeNoIds(tree, path[..i + 1], path[..k]);
          assert IdsIn(tree, path[..k]) == [];
        }
        NothingDeeper(paths, path, i, |path|);
        return Some(found);
      }
      node := node.children[path[i]];
      NodeIds(tree, path[..i + 1]);
      found := found + InsidesAt(node.storageIds, path, i + 1);
    }
    return Some(found);
  }

  // ---- agreement with the server's tree ----

  /** The server's answer reports exactly its mounts, each once. */
  ghost predicate Reports(paths: Paths, m: MountSet) {
    && (forall p, id :: p in paths && id in paths[p] <==> (p, id) in m)
    && (forall p :: p in paths ==> Distinct(paths[p]))
  }

  function AsResolved(s: seq<Inside>): seq<Resolved> {
    seq(|s|, i requires 0 <= i < |s| => Resolved(s[i].ident, s[i].relpath))
  }

  lemma {:induction false} InsidesAreResponsible(paths: Paths, m: MountSet, path: Path, n: nat)
    requires Reports(paths, m) && n <= |path|
    ensures var s := InsidesUpTo(paths, path, n);
            && (forall x :: x in s <==> 0 < |x.storagePath| <= n && x.storagePath <= path
                                        && x.relpath == path[|x.storagePath|..] && (x.storagePath, x.ident) in m)
            && Distinct(s)
            && forall i, j :: 0 <= i < j < |s| ==> |s[i].relpath| >= |s[j].relpath|
  {
    if n > 0 {
      InsidesAreResponsible(paths, m, path, n - 1);
      var before := InsidesUpTo(paths, path, n - 1);
      var ids := if path[..n] in paths then paths[path[..n]] else [];
      var last := InsidesAt(ids, path, n);
      forall x
        ensures x in last <==> x.storagePath == path[..n] && x.relpath == path[n..] && (path[..n], x.ident) in m
      {
        if x.storagePath == path[..n] && x.relpath == path[n..] && (path[..n], x.ident) in m {
          var k :| 0 <= k < |ids| && ids[k] == x.ident;
          assert last[k] == x;
        }
      }
      forall x | x in before ensures |x.storagePath| < n { }
      assert forall i :: 0 <= i < |before| ==> before[i] in before;
      assert forall x: Inside :: x.storagePath <= path && |x.storagePath| == n <==> x.storagePath == path[..n];
    }
  }

  /** The path inside a storage says where the storage is mounted, so dropping the latter loses nothing. */
  lemma AsResolvedDistinct(s: seq<Inside>, path: Path)
    requires Distinct(s)
    requires forall x :: x in s ==> x.storagePath <= path && x.relpath == path[|x.storagePath|..]
    ensures Distinct(AsResolved(s))
  {
    var rs := AsResolved(s);
    forall i, j | 0 <= i < j < |rs|
      ensures rs[i] != rs[j]
    {
      var x, y := s[i], s[j];
      assert x in s && y in s;
      if x.relpath == y.relpath {
        assert |x.storagePath| == |y.storagePath|;
        assert x.storagePath == path[..|x.storagePath|] == y.storagePath;
      }
    }
  }

  lemma AsResolvedMembers(s: seq<Inside>, r: Resolved)
    ensures r in AsResolved(s) <==> exists x :: x in s && Resolved(x.ident, x.relpath) == r
  {
    var rs := AsResolved(s);
    if r in rs {
      var i :| 0 <= i < |rs| && rs[i] == r;
      assert s[i] in s;
    }
    if x :| x in s && Resolved(x.ident, x.relpath) == r {
      var i :| 0 <= i < |s| && s[i] == x;
      assert rs[i] == r;
    }
  }

  /** Two separately written tries agree: for any path, what the client finds is, storage by storage and in
      the same order of depth, what the server resolves. */
  lemma TriesAgree(paths: Paths, m: MountSet, path: Path)
    requires Reports(paths, m) && forall x :: x in m ==> x.0 != []
    ensures IsResolution(m, path, AsResolved(InsidesUpTo(paths, path, |path|)))
  {
    var s := InsidesUpTo(paths, path, |path|);
    InsidesAreResponsible(paths, m, path, |path|);
    AsResolvedDistinct(s, path);
    forall r
      ensures r in AsResolved(s) <==> r in Responsible(m, path)
    {
      AsResolvedMembers(s, r);
      if r in Responsible(m, path) {
        var x :| x in m && x.0 <= path && r == Resolved(x.1, path[|x.0|..]);
        assert Inside(x.1, x.0, path[|x.0|..]) in s;
      }
    }
  }

  /** The schema only admits absolute paths, which have a part at least. */
  ghost predicate RootedCommands(cs: seq<T.Command>) {
    forall c, p :: c in cs && c.MountCommand? && p in c.paths ==> p != []
  }

  lemma {:induction false} RunsStayRooted(cs: seq<T.Command>)
    requires RootedCommands(cs)
    ensures forall id, p :: id in T.Run(T.EMPTY, cs).paths && p in T.Run(T.EMPTY, cs).paths[id] ==> p != []
  {
    if cs != [] {
      var before, c := cs[..|cs| - 1], cs[|cs| - 1];
      assert c in cs && forall d :: d in before ==> d in cs;
      RunsStayRooted(before);
    }
  }

  /** What `paths` answers for a table. */
  ghost predicate Answers(paths: Paths, t: T.Table) {
    && (forall p, id :: p in paths && id in paths[p] <==> id in t.paths && p in t.paths[id])
    && (forall p :: p in paths ==> Distinct(paths[p]))
  }

  lemma AnswerReports(paths: Paths, t: T.Table)
    requires T.InStep(t) && Answers(paths, t)
    requires forall id, p :: id in t.paths && p in t.paths[id] ==> p != []
    ensures Reports(paths, t.mounts) && (forall x :: x in t.mounts ==> x.0 != [])
    ensures [] in paths ==> paths[[]] == []
  {
    forall x | x in t.mounts ensures x.0 != [] {
      assert (x.0, x.1) in t.mounts;
    }
    if [] in paths {
      assert forall id :: id in paths[[]] ==> id in t.paths && [] in t.paths[id];
      HasMember(paths[[]]);
    }
  }

  lemma HasMember<T(!new)>(s: seq<T>)
    ensures s != [] ==> exists x :: x in s
  {
    if s != [] { assert s[0] in s; }
  }

  /** After any run of commands with absolute paths and no repeats in their lists, a client that rebuilds
      its tree from the answer to `paths` finds for every path what the server resolves. */
  lemma ClientFollowsServer(cs: seq<T.Command>, paths: Paths, path: Path)
    requires T.DistinctCommands(cs) && RootedCommands(cs) && Answers(paths, T.Run(T.EMPTY, cs))
    ensures [] in paths ==> paths[[]] == []
    ensures IsResolution(T.Run(T.EMPTY, cs).mounts, path, AsResolved(InsidesUpTo(paths, path, |path|)))
  {
    hide T.Run, T.InStep, Answers, Reports, IsResolution;
    T.RunsKeepStep(cs);
    RunsStayRooted(cs);
    AnswerReports(paths, T.Run(T.EMPTY, cs));
    TriesAgree(paths, T.Run(T.EMPTY, cs).mounts, path);
  }
}
