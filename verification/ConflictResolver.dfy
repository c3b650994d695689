/** The conflict resolver: the mount tree, a cache of resolutions, and the loops of readdir and getattr. */
module Resolver {
  import opened Prelude
  import opened ConflictNames
  import opened Mounts
  import opened MountTree
  import opened Resolution
  import opened Agreement

  const CACHE_SIZE := 500

  lemma MountedHere(nodes: Nodes, path: Path, id: nat)
    ensures (path, id) in Pairs(View(nodes)) <==> path in nodes && id in nodes[path].storageIds
    ensures path in View(nodes) <==> path in nodes
    ensures path in nodes ==> View(nodes)[path] == nodes[path].storageIds
  {
  }

  class ConflictResolver {
    var root: MountDir
    var cache: map<Path, seq<Resolved>>
    ghost var nodes: Nodes

    /** The (path, storage id) pairs mounted now. */
    ghost function Mounts(): MountSet
      reads this, nodes.Values
    {
      Pairs(View(nodes))
    }

    /** The tree is pruned, and no cached resolution is out of date. */
    ghost predicate Valid()
      reads this, nodes.Values
    {
      && Linked(nodes) && [] in nodes && nodes[[]] == root
      && Pruned(View(nodes))
      && forall p :: p in cache ==> IsResolution(Mounts(), p, cache[p])
    }

    constructor ()
      ensures Valid() && fresh(nodes.Values)
      ensures Mounts() == {}
    {
      var dir := new MountDir();
      root, cache, nodes := dir, map[], map[[] := dir];
    }

    method Mount(path: Path, storageId: nat)
      requires Valid()
      modifies this, nodes.Values
      ensures Valid() && fresh(nodes.Values - old(nodes.Values))
      ensures Mounts() == old(Mounts()) + {(path, storageId)}
    {
      hide IsResolution, Linked, Pruned, PrefixClosed, Pairs, View, Mounted;
      ghost var before := View(nodes);
      LinkedIsPrefixClosed(nodes);
      nodes := root.Mount(nodes, path, storageId);
      MountedPairs(before, path, storageId);
      cache := map[];
    }

    /** False stands for the exception raised when the pair is not mounted; nothing changes then. */
    method Unmount(path: Path, storageId: nat) returns (ok: bool)
      requires Valid()
      modifies this, nodes.Values
      ensures Valid() && nodes.Values <= old(nodes.Values)
      ensures ok <==> (path, storageId) in old(Mounts())
      ensures Mounts() == old(Mounts()) - {(path, storageId)}
    {
      hide IsResolution, Linked, Pruned, PrefixClosed, Pairs, View, Unmounted;
      ghost var before := View(nodes);
      LinkedIsPrefixClosed(nodes);
      MountedHere(nodes, path, storageId);
      assert [] + path == path;
      ok, nodes := root.Unmount(nodes, [], path, storageId);
      if !ok {
        return;
      }
      UnmountedPairs(before, path, storageId);
      cache := map[];
    }

    /** The cached resolution of a path, computed when it is not there; a full cache drops some entry. */
    method Resolve(path: Path) returns (rs: seq<Resolved>)
      requires Valid()
      modifies this`cache
      ensures Mounts() == old(Mounts())
      ensures Valid() && IsResolution(Mounts(), path, rs)
    {
      hide Linked, Pruned, Pairs, View;
      if path in cache {
        return cache[path];
      }
      rs := root.Resolve(nodes, [], path);
      assert [] + path == path;
      assert ResponsibleBelow(Mounts(), [], path) == Responsible(Mounts(), path);
      if |cache| >= CACHE_SIZE {
        var oldest :| oldest in cache;
        cache := cache - {oldest};
      }
      cache := cache[path := rs];
    }

    /** Splits the storages that have a path into directories and files. */
    method Classify(w: World, rs: seq<Resolved>) returns (dirs: seq<Hit>, files: seq<Hit>)
      ensures dirs == Found(w, rs, true) && files == Found(w, rs, false)
    {
      dirs, files := [], [];
      for i := 0 to |rs|
        invariant dirs == Found(w, rs[..i], true) && files == Found(w, rs[..i], false)
      {
        assert rs[..i + 1][..i] == rs[..i];
        match w.getattr(rs[i].ident, rs[i].relpath) {
          case Err(_) =>
          case Ok(st) =>
            if st.isDir {
              dirs := dirs + [(st, rs[i])];
            } else {
              files := files + [(st, rs[i])];
            }
        }
      }
      assert rs[..|rs|] == rs;
    }

    /** Gathers, for every name, the directories that hold it. */
    method Gather(w: World, dirs: seq<Hit>) returns (seen: Seen)
      ensures seen == SeeAll(w, dirs)
    {
      seen := Seen([], map[]);
      for i := 0 to |dirs|
        invariant seen == SeeAll(w, dirs[..i])
      {
        var res := dirs[i].1;
        assert dirs[..i + 1][..i] == dirs[..i];
        var names := Names(w, res);
        ghost var start := seen;
        for j := 0 to |names|
          invariant seen == SeeNames(start, names[..j], res)
        {
          assert names[..j + 1][..j] == names[..j];
          seen := AddSeen(seen, names[j], res);
        }
        assert names[..|names|] == names;
      }
      assert dirs[..|dirs|] == dirs;
    }

    /** Adds every name, renaming the files that clash. */
    method MergeSeen(w: World, dirs: seq<Hit>, seen: Seen, start: set<string>) returns (result: set<string>)
      requires seen == SeeAll(w, dirs)
      ensures result == Merge(w, dirs, start)
    {
      hide SeeAll, AllShown, Shown;
      SeeAllOk(w, dirs);
      assert forall n :: n in seen.order ==> n in ToSet(seen.order);
      result := start;
      for i := 0 to |seen.order|
        invariant result == MergeNames(w, seen, seen.order[..i], start)
      {
        var name := seen.order[i];
        assert seen.order[..i + 1][..i] == seen.order[..i];
        var holders := seen.holders[name];
        if |holders| == 1 && name !in result {
          result := result + {name};
          continue;
        }
        result := ShowAll(w, name, holders, result);
      }
      assert seen.order[..|seen.order|] == seen.order;
    }

    /** Adds a clashing name as each of its holders shows it. */
    method ShowAll(w: World, name: string, holders: seq<Resolved>, start: set<string>) returns (result: set<string>)
      ensures result == start + AllShown(w, name, holders)
    {
      result := start;
      for j := 0 to |holders|
        invariant result == start + AllShown(w, name, holders[..j])
      {
        assert holders[..j + 1] == holders[..j] + [holders[j]];
        result := result + {Shown(w, name, holders[j])};
      }
      assert holders[..|holders|] == holders;
    }

    method Readdir(w: World, path: Path) returns (r: Result<set<string>, Errno>)
      requires Valid()
      modifies this`cache
      ensures Mounts() == old(Mounts())
      ensures Valid() && ListsDir(w, Mounts(), path, r)
    {
      hide IsResolution, Merge, SeeAll, Linked, Pairs, View;
      var resolved := Resolve(path);
      var synthetic := root.Readdir(nodes, path);
      ghost var answer := Resolution.Readdir(w, path, resolved, MountChildren(Mounts(), path));
      assert ListsDir(w, Mounts(), path, answer);
      if |resolved| == 0 && synthetic.None? {
        if path == ["/"] {
          return Ok({});
        }
        return Err(ENOENT);
      }
      var result: set<string> := {};
      if synthetic.Some? {
        result := result + synthetic.value;
      }
      ghost var c := if synthetic.Some? then synthetic.value else {};
      assert result == c;
      if |resolved| == 1 && result == {} {
        var names :- w.readdir(resolved[0].ident, resolved[0].relpath);
        assert result + ToSet(names) == ToSet(names);
        return Ok(result + ToSet(names));
      }
      var dirs, files := Classify(w, resolved);
      if |dirs| == 0 && result == {} {
        if |files| == 1 {
          return Err(ENOTDIR);
        }
        return Err(ENOENT);
      }
      if |dirs| == 1 {
        return Ok(result + ToSet(Names(w, dirs[0].1)));
      }
      var seen := Gather(w, dirs);
      result := MergeSeen(w, dirs, seen, result);
      assert answer == Ok(Merge(w, dirs, c));
      return Ok(result);
    }

    method GetattrExtended(w: World, path: Path) returns (r: Result<(Attr, Option<Resolved>), Errno>)
      requires Valid()
      modifies this`cache
      ensures Mounts() == old(Mounts())
      ensures Valid() && LooksUp(w, Mounts(), path, r)
    {
      var target, ident := path, None;
      match Decode(Name(path)) {
        case None =>
        case Some((name, id)) =>
          if name == "" || name == "." {
            return Err(InvalidName);
          }
          target, ident := path[..|path| - 1] + [name], Some(id);
      }
      var resolved := Resolve(target);
      var dirs, files := Classify(w, resolved);
      var synthetic := root.IsSynthetic(nodes, target);
      ghost var answer := Getattr(w, path, ident, resolved, synthetic);
      assert LooksUp(w, Mounts(), path, answer);
      if synthetic {
        r := Ok(MergedDir(dirs));
        return;
      }
      if |resolved| == 0 {
        if path == ["/"] {
          return Ok((SYNTHETIC, None));
        }
        return Err(ENOENT);
      }
      if |resolved| == 1 {
        if ident.Some? {
          return Err(ENOENT);
        }
        var st :- w.getattr(resolved[0].ident, resolved[0].relpath);
        return Ok((st, Some(resolved[0])));
      }
      if |dirs| == 1 {
        if ident.Some? {
          return Err(ENOENT);
        }
        return Ok((dirs[0].0, Some(dirs[0].1)));
      }
      if |dirs| > 1 {
        if ident.Some? {
          return Err(ENOENT);
        }
        return Ok(MergedDir(dirs));
      }
      if |files| == 1 {
        if ident.Some? {
          return Err(ENOENT);
        }
        return Ok((files[0].0, Some(files[0].1)));
      }
      if |files| > 1 {
        if ident.None? {
          return Err(ENOENT);
        }
        for i := 0 to |files|
          invariant FirstWithId(files, ident.value) == FirstWithId(files[i..], ident.value)
        {
          if files[i].1.ident == ident.value {
            return Ok((files[i].0, Some(files[i].1)));
          }
          assert files[i..][1..] == files[i + 1..];
        }
      }
      return Err(ENOENT);
    }

    /** The storages that claim a directory: those that have it, and those mounted at it or below. */
    method FindStorageIds(w: World, path: Path) returns (ids: seq<nat>)
      requires Valid()
      modifies this`cache
      ensures Mounts() == old(Mounts())
      ensures Valid()
      ensures forall id :: id in ids <==>
                || id in IdsBelow(Mounts(), path)
                || exists r :: r in Responsible(Mounts(), path) && r.ident == id && IsDirAt(w, r)
    {
      var resolved := Resolve(path);
      ids := [];
      for i := 0 to |resolved|
        invariant forall id :: id in ids <==> exists r :: r in resolved[..i] && r.ident == id && IsDirAt(w, r)
      {
        assert resolved[..i + 1] == resolved[..i] + [resolved[i]];
        var st := Stat(w, resolved[i]);
        if st.Some? && st.value.isDir {
          ids := ids + [resolved[i].ident];
        }
      }
      assert resolved[..|resolved|] == resolved;
      assert forall r :: r in resolved <==> r in Responsible(Mounts(), path);
      var node := root.Find(nodes, path);
      NodesFollowMounts(nodes, path);
      if node.None? {
        return;
      }
      ghost var depth := MaxDepth(nodes.Keys);
      var below := node.value.RelativeStorageIds(nodes, Mounts(), path, depth);
      assert forall id :: id in below <==> id in ToSet(below);
      ids := ids + below;
    }
  }
}
