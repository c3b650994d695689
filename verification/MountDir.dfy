/** The prefix tree of mounted storages: nodes linked by name and updated in place. */
module MountTree {
  import opened Prelude
  import opened Mounts

  /** All the nodes of a tree, by path. The methods take it to say which tree they work in. */
  type Nodes = map<Path, MountDir>

  /** The links of the nodes are exactly their paths: a tree, with no node shared. */
  ghost predicate Linked(nodes: Nodes)
    reads nodes.Values
  {
    && [] in nodes
    && (forall p, n {:trigger Child(p, n)} ::
          Child(p, n) in nodes <==> p in nodes && n in nodes[p].children)
    && (forall p, n {:trigger Child(p, n)} ::
          p in nodes && n in nodes[p].children ==> nodes[p].children[n] == nodes[Child(p, n)])
    && (forall p, q :: p in nodes && q in nodes && nodes[p] == nodes[q] ==> p == q)
  }

  ghost function View(nodes: Nodes): Trie
    reads nodes.Values
  {
    map p | p in nodes :: nodes[p].storageIds
  }

  lemma LinkedIsPrefixClosed(nodes: Nodes)
    requires Linked(nodes)
    ensures PrefixClosed(View(nodes))
  {
  }

  lemma NoNodeBelowNone(nodes: Nodes, p: Path, q: Path)
    requires Linked(nodes) && p !in nodes && p <= q
    ensures q !in nodes
  {
    LinkedIsPrefixClosed(nodes);
    if q in nodes { PrefixInTrie(View(nodes), p, q); }
  }

  /** A pruned tree of nodes stands for a set of mounts: its nodes and children are those the mounts call for. */
  lemma NodesFollowMounts(nodes: Nodes, p: Path)
    requires Linked(nodes) && Pruned(View(nodes))
    ensures p in nodes <==> IsNode(Pairs(View(nodes)), p)
    ensures p in nodes ==> nodes[p].storageIds == IdsAt(Pairs(View(nodes)), p)
    ensures p in nodes ==> nodes[p].children.Keys == ChildrenAt(Pairs(View(nodes)), p)
  {
    var v := View(nodes);
    LinkedIsPrefixClosed(nodes);
    TrieIsCanonical(v, p);
    if p in nodes {
      forall n
        ensures n in nodes[p].children.Keys <==> n in ChildrenAt(Pairs(v), p)
      {
        ChildrenFollowMounts(v, p, n);
        assert n in nodes[p].children <==> Child(p, n) in v;
      }
    }
  }

  /** The elements of a set, in some order. */
  method Listed<T(!new)>(s: set<T>) returns (r: seq<T>)
    ensures ToSet(r) == s && Distinct(r)
  {
    r := [];
    var rest := s;
    while rest != {}
      invariant rest <= s && ToSet(r) == s - rest && Distinct(r)
      decreases rest
    {
      var x :| x in rest;
      r, rest := r + [x], rest - {x};
    }
  }

  class MountDir {
    var storageIds: set<nat>
    var children: map<string, MountDir>

    constructor ()
      ensures storageIds == {} && children == map[]
    {
      storageIds, children := {}, map[];
    }

    predicate IsEmpty()
      reads this
    {
      children == map[] && storageIds == {}
    }

    /** The child of this node under a name, made when there is none. */
    method ChildFor(ghost nodes: Nodes, ghost here: Path, name: string) returns (child: MountDir, ghost after: Nodes)
      requires Linked(nodes) && here in nodes && nodes[here] == this
      modifies this
      ensures Linked(after)
      ensures after.Keys == nodes.Keys + {Child(here, name)} && child == after[Child(here, name)]
      ensures fresh(after.Values - nodes.Values) && after[[]] == nodes[[]]
      ensures View(after) == WithNode(old(View(nodes)), Child(here, name))
    {
      after := nodes;
      if name !in children {
        child := new MountDir();
        children := children[name := child];
        after := after[Child(here, name) := child];
      }
      child := children[name];
    }

    method AddHere(ghost nodes: Nodes, ghost here: Path, storageId: nat)
      requires Linked(nodes) && here in nodes && nodes[here] == this
      modifies this
      ensures Linked(nodes)
      ensures View(nodes) == var v := old(View(nodes)); v[here := v[here] + {storageId}]
    {
      storageIds := storageIds + {storageId};
    }

    /** Adds a storage under a path, with the nodes that lead to it. */
    method Mount(ghost nodes: Nodes, path: Path, storageId: nat) returns (ghost after: Nodes)
      requires Linked(nodes) && nodes[[]] == this
      modifies nodes.Values
      ensures Linked(after) && after[[]] == this
      ensures fresh(after.Values - nodes.Values)
      ensures View(after) == Mounted(old(View(nodes)), path, storageId)
    {
      var mountDir := this;
      var rest := path;
      after := nodes;
      ghost var here: Path := [];
      ghost var start := View(nodes);
      while rest != []
        invariant here + rest == path
        invariant Linked(after) && after[[]] == this
        invariant here in after && after[here] == mountDir
        invariant fresh(after.Values - nodes.Values)
        invariant View(after) == WithPath(start, here)
        decreases |rest|
      {
        var first := rest[0];
        mountDir, after := mountDir.ChildFor(after, here, first);
        rest, here := rest[1..], Child(here, first);
      }
      assert here == path;
      mountDir.AddHere(after, path, storageId);
    }

    /** Removes a storage from a path below this node, and the nodes this leaves empty. False stands for
        the exceptions: a name with no child, or a storage that is not there; nothing changes then. */
    method Unmount(ghost nodes: Nodes, ghost here: Path, path: Path, storageId: nat)
      returns (ok: bool, ghost after: Nodes)
      requires Linked(nodes) && here in nodes && nodes[here] == this
      modifies nodes.Values
      ensures ok <==> here + path in nodes && storageId in old(nodes[here + path].storageIds)
      ensures Linked(after) && after.Keys <= nodes.Keys && after[[]] == nodes[[]]
      ensures forall p :: p in after ==> after[p] == nodes[p]
      ensures forall p :: p in nodes && p !in after ==> |p| > |here|
      ensures !ok ==> after == nodes && View(after) == old(View(nodes))
      ensures ok ==> View(after) == Unmounted(old(View(nodes)), here, here + path, storageId)
      decreases |path|
    {
      after := nodes;
      if path == [] {
        assert here + path == here;
        if storageId !in storageIds {
          return false, after;
        }
        storageIds := storageIds - {storageId};
        return true, after;
      }
      var first := path[0];
      ghost var c := Child(here, first);
      assert c + path[1..] == here + path;
      if first !in children {
        assert here + path !in nodes by { NoNodeBelowNone(nodes, c, here + path); }
        return false, after;
      }
      ok, after := children[first].Unmount(nodes, c, path[1..], storageId);
      if !ok {
        return;
      }
      after := DropChild(after, here, first);
    }

    /** Removes a child that has become empty. */
    method DropChild(ghost nodes: Nodes, ghost here: Path, name: string) returns (ghost after: Nodes)
      requires Linked(nodes) && here in nodes && nodes[here] == this && name in children
      modifies this
      ensures Linked(after) && after.Keys <= nodes.Keys && nodes.Keys <= after.Keys + {Child(here, name)}
      ensures forall p :: p in after ==> after[p] == nodes[p]
      ensures View(after) == DropIfEmpty(old(View(nodes)), Child(here, name))
    {
      ghost var c := Child(here, name);
      after := nodes;
      assert children[name] == nodes[c];
      assert nodes[c].children == map[] <==> !HasChild(View(nodes), c) by {
        if nodes[c].children != map[] {
          var n :| n in nodes[c].children;
          assert Child(c, n) in View(nodes);
        }
      }
      if children[name].IsEmpty() {
        children := children - {name};
        after := after - {c};
      }
    }

    /** Is a path of the tree a synthetic directory? */
    method IsSynthetic(ghost nodes: Nodes, path: Path) returns (r: bool)
      requires Linked(nodes) && nodes[[]] == this && Pruned(View(nodes))
      ensures r == Mounts.IsSynthetic(Pairs(View(nodes)), path)
    {
      var node := Find(nodes, path);
      NodesFollowMounts(nodes, path);
      if node.None? {
        return false;
      }
      return |node.value.children| != 0 || |node.value.storageIds| != 1;
    }

    /** The names below a path of the tree; None when the path is not in it. */
    method Readdir(ghost nodes: Nodes, path: Path) returns (r: Option<set<string>>)
      requires Linked(nodes) && nodes[[]] == this && Pruned(View(nodes))
      ensures var m := Pairs(View(nodes));
              r == if IsNode(m, path) then Some(ChildrenAt(m, path)) else None
    {
      var node := Find(nodes, path);
      NodesFollowMounts(nodes, path);
      if node.None? {
        return None;
      }
      return Some(node.value.children.Keys);
    }

    /** The walk from the root that the two methods above start with. */
    method Find(ghost nodes: Nodes, path: Path) returns (r: Option<MountDir>)
      requires Linked(nodes) && nodes[[]] == this
      ensures r == if path in nodes then Some(nodes[path]) else None
    {
      var mountDir := this;
      var rest := path;
      ghost var here: Path := [];
      while rest != []
        invariant here + rest == path
        invariant here in nodes && nodes[here] == mountDir
        decreases |rest|
      {
        var first := rest[0];
        ghost var next := Child(here, first);
        assert next + rest[1..] == path;
        if first !in mountDir.children {
          NoNodeBelowNone(nodes, next, path);
          return None;
        }
        mountDir := mountDir.children[first];
        rest, here := rest[1..], next;
      }
      assert here == path;
      return Some(mountDir);
    }

    /** The storages of this node, all for the same relative path. */
    method Own(ghost nodes: Nodes, ghost here: Path, path: Path) returns (rs: seq<Resolved>)
      requires Linked(nodes) && here in nodes && nodes[here] == this && Pruned(View(nodes))
      ensures ToSet(rs) == set id | id in IdsAt(Pairs(View(nodes)), here) :: Resolved(id, path)
      ensures Distinct(rs) && forall r :: r in rs ==> r.relpath == path
    {
      NodesFollowMounts(nodes, here);
      var ids := Listed(storageIds);
      rs := seq(|ids|, i requires 0 <= i < |ids| => Resolved(ids[i], path));
      forall r
        ensures r in rs <==> r.ident in ToSet(ids) && r.relpath == path
      {
        if r.ident in ids && r.relpath == path {
          var i :| 0 <= i < |ids| && ids[i] == r.ident;
          assert rs[i] == r;
        }
      }
    }

    /** Every storage on the way to a path below this node, outer mounts first. */
    method Resolve(ghost nodes: Nodes, ghost here: Path, path: Path) returns (rs: seq<Resolved>)
      requires Linked(nodes) && here in nodes && nodes[here] == this && Pruned(View(nodes))
      ensures ToSet(rs) == ResponsibleBelow(Pairs(View(nodes)), here, here + path)
      ensures Distinct(rs) && OuterFirst(rs)
      decreases |path|
    {
      ghost var m := Pairs(View(nodes));
      ghost var whole := here + path;
      assert whole[|here|..] == path;
      rs := Own(nodes, here, path);
      if path == [] {
        assert whole == here;
        ResponsibleStep(m, here, whole);
        return;
      }
      var first := path[0];
      ghost var c := Child(here, first);
      assert c + path[1..] == whole && whole[..|here| + 1] == c;
      var deeper: seq<Resolved> := [];
      if first in children {
        deeper := children[first].Resolve(nodes, c, path[1..]);
      } else {
        NodesFollowMounts(nodes, c);
        assert ResponsibleBelow(m, c, whole) == {};
      }
      OuterThenInner(m, here, whole, rs, deeper);
      rs := rs + deeper;
    }

    /** The ids of this node and of all below it. */
    method RelativeStorageIds(ghost nodes: Nodes, ghost m: MountSet, ghost here: Path, ghost depth: nat)
      returns (ids: seq<nat>)
      requires Linked(nodes) && here in nodes && nodes[here] == this
      requires Pruned(View(nodes)) && m == Pairs(View(nodes))
      requires forall p :: p in nodes ==> |p| <= depth
      ensures ToSet(ids) == IdsBelow(m, here)
      decreases depth - |here|
    {
      NodesFollowMounts(nodes, here);
      ids := Listed(storageIds);
      var names := Listed(children.Keys);
      for i := 0 to |names|
        invariant ToSet(ids) == storageIds + IdsVia(m, here, ToSet(names[..i]))
      {
        ghost var c := Child(here, names[i]);
        assert names[i] in ToSet(names);
        var below := children[names[i]].RelativeStorageIds(nodes, m, c, depth);
        IdsJoin(m, here, names, i, storageIds, ids, below);
        ids := ids + below;
      }
      assert names[..|names|] == names;
      IdsBelowSplit(m, here);
    }
  }
}
