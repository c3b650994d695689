/** Pseudomanifests among the mounts: inputs on which listing and lookup disagree. */
module Pseudomanifests {
  import opened Prelude
  import opened ConflictNames
  import opened Mounts
  import opened Resolution
  import opened Listing
  import opened Agreement

  // ---- every path is resolved ----

  lemma {:induction false} HasInnermost(rs: set<Resolved>)
    requires rs != {}
    ensures exists r :: r in rs && Innermost(rs, r)
  {
    var r :| r in rs;
    var rest := rs - {r};
    if rest == {} {
      assert forall other :: other in rs ==> other == r || other in rest;
      assert Innermost(rs, r);
    } else {
      HasInnermost(rest);
      var s :| s in rest && Innermost(rest, s);
      assert forall other :: other in rs ==> other == r || other in rest;
      assert Innermost(rs, if |r.relpath| <= |s.relpath| then r else s);
    }
  }

  ghost predicate Innermost(rs: set<Resolved>, r: Resolved) {
    forall other :: other in rs ==> |r.relpath| <= |other.relpath|
  }

  lemma {:induction false} OuterFirstOrder(rs: set<Resolved>) returns (order: seq<Resolved>)
    ensures ToSet(order) == rs && Distinct(order) && OuterFirst(order)
  {
    order := [];
    if rs != {} {
      HasInnermost(rs);
      var last :| last in rs && Innermost(rs, last);
      var before := OuterFirstOrder(rs - {last});
      order := before + [last];
      assert forall r :: r in before ==> r in ToSet(before);
    }
  }

  /** Listing and lookup of any path have an answer. */
  lemma Answered(w: World, m: MountSet, p: Path)
    ensures exists listing :: ListsDir(w, m, p, listing)
    ensures exists answer :: LooksUp(w, m, p, answer)
  {
    var rs := OuterFirstOrder(Responsible(m, p));
    assert ListsDir(w, m, p, Readdir(w, p, rs, MountChildren(m, p)));
    match RealPath(p) {
      case Err(e) => assert LooksUp(w, m, p, Err(e));
      case Ok((target, id)) =>
        var qs := OuterFirstOrder(Responsible(m, target));
        assert LooksUp(w, m, p, Getattr(w, p, id, qs, IsSynthetic(m, target)));
    }
  }

  // ---- the storages ----

  /** Storage 1 has a file n at its root; every other storage is a pseudomanifest. */
  function FlatWorld(n: string): World {
    World(
      (id: nat, rel: Path) =>
        if id != 1 || rel == [n] then Ok(Attr(false, true)) else if rel == [] then Ok(Attr(true, true)) else Err(ENOENT),
      (id: nat, rel: Path) => if id == 1 && rel == [] then Ok([n]) else Err(ENOTDIR))
  }

  lemma FlatWorldIsTame(n: string, id: nat)
    requires PlainName(n)
    ensures Tame(FlatWorld(n), id) && (id != 1 ==> FlatFile(FlatWorld(n), id))
  {
    hide PlainName;
    var w := FlatWorld(n);
    forall rel: Path, k: string
      ensures rel + [k] == [n] <==> rel == [] && k == n
    {
      assert (rel + [k])[|rel|] == k;
      assert rel + [k] == [n] ==> |rel| == 0;
    }
    if id == 1 { assert TreeLike(w, 1) && PlainNamesIn(w, 1); }
  }

  /** The storage at the root, and pseudomanifests at /n. */
  function FlatMounts(n: string, flat: set<nat>): MountSet {
    {(["/"], 1)} + set id | id in flat :: (["/", n], id)
  }

  lemma FlatMountsAre(n: string, flat: set<nat>)
    requires PlainName(n) && flat != {}
    ensures var m, root: Path, q: Path := FlatMounts(n, flat), ["/"], ["/", n];
            && PlainMounts(m) && root + [n] == q && !InConflictForm(Name(q))
            && IdsAt(m, q) == flat && ChildrenAt(m, q) == {} && ChildrenAt(m, root) == {n}
            && Responsible(m, root) == {Resolved(1, [])}
            && Responsible(m, q) == {Resolved(1, [n])} + set id | id in flat :: Resolved(id, [])
  {
    hide InConflictForm;
    var m, root: Path, q: Path := FlatMounts(n, flat), ["/"], ["/", n];
    assert q[1..] == [n] && q[2..] == [] && root[1..] == [] && root < q;
    assert (root, 1) in m;
    assert !(q <= root);
    NameOfChild(root, n);
    assert Resolved(1, root[1..]) in Responsible(m, root) by { assert (root, 1).0 <= root; }
    forall r ensures r in Responsible(m, root) <==> r == Resolved(1, []) {
      if r in Responsible(m, root) {
        var x :| x in m && x.0 <= root && r == Resolved(x.1, root[|x.0|..]);
      }
    }
    forall r ensures r in Responsible(m, q) <==> r == Resolved(1, [n]) || (r.ident in flat && r.relpath == []) {
      if r == Resolved(1, [n]) { assert r == Resolved((root, 1).1, q[|root|..]); }
      if r.ident in flat && r.relpath == [] { assert (q, r.ident) in m && r == Resolved(r.ident, q[|q|..]); }
    }
  }

  lemma FlatIsClean(n: string, flat: set<nat>)
    requires PlainName(n) && flat != {} && 1 !in flat
    ensures Clean(FlatWorld(n), FlatMounts(n, flat))
  {
    hide PlainName, Tame, PlainMounts;
    FlatMountsAre(n, flat);
    forall id { FlatWorldIsTame(n, id); }
  }

  // ---- where they disagree ----

  /** Name n of directory p is always listed and never found. */
  ghost predicate ListedNotFound(w: World, m: MountSet, p: Path, n: string) {
    && Clean(w, m) && (exists listing :: ListsDir(w, m, p, listing)) && (exists answer :: LooksUp(w, m, p + [n], answer))
    && forall listing, answer :: ListsDir(w, m, p, listing) && LooksUp(w, m, p + [n], answer) ==>
                                   n in ListedBy(listing) && answer.Err?
  }

  /** Name n of directory p is always found and never listed. */
  ghost predicate FoundNotListed(w: World, m: MountSet, p: Path, n: string) {
    && Clean(w, m) && (exists listing :: ListsDir(w, m, p, listing)) && (exists answer :: LooksUp(w, m, p + [n], answer))
    && forall listing, answer :: ListsDir(w, m, p, listing) && LooksUp(w, m, p + [n], answer) ==>
                                   n !in ListedBy(listing) && answer.Ok?
  }

  /** Path p is always a directory and can never be listed. */
  ghost predicate DirNotListable(w: World, m: MountSet, p: Path) {
    && Clean(w, m) && (exists listing :: ListsDir(w, m, p, listing)) && (exists answer :: LooksUp(w, m, p, answer))
    && forall listing, answer :: ListsDir(w, m, p, listing) && LooksUp(w, m, p, answer) ==>
                                   listing.Err? && answer.Ok? && answer.value.0.isDir
  }

  /** A pseudomanifest over a file of the storage at the root. */
  lemma HiddenFile(n: string)
    requires PlainName(n)
    ensures ListedNotFound(FlatWorld(n), FlatMounts(n, {2}), ["/"], n)
  {
    hide PlainName, Clean, ListsDir, LooksUp, Responsible, ChildrenAt, IdsAt, ListedBy;
    var w, m, p: Path := FlatWorld(n), FlatMounts(n, {2}), ["/"];
    FlatMountsAre(n, {2});
    FlatIsClean(n, {2});
    FlatWorldIsTame(n, 2);
    Answered(w, m, p);
    Answered(w, m, p + [n]);
    var r := Resolved(1, []);
    assert Under(r, n).relpath == [n];
    assert r in Holding(w, Responsible(m, p), n) && !SomeDirNamed(w, Responsible(m, p), n);
    forall listing, answer | ListsDir(w, m, p, listing) && LooksUp(w, m, p + [n], answer)
      ensures n in ListedBy(listing) && answer.Err?
    {
      PseudomanifestHidesFile(w, m, p, n, 2, listing, answer);
    }
  }

  /** Any name below it. */
  lemma NameBelow(n: string, k: string)
    requires PlainName(n) && PlainName(k)
    ensures FoundNotListed(FlatWorld(n), FlatMounts(n, {2}), ["/", n], k)
  {
    hide PlainName, Clean, ListsDir, LooksUp, Responsible, ChildrenAt, IdsAt, ListedBy;
    var w, m, p: Path := FlatWorld(n), FlatMounts(n, {2}), ["/", n];
    FlatMountsAre(n, {2});
    FlatIsClean(n, {2});
    FlatWorldIsTame(n, 2);
    Answered(w, m, p);
    Answered(w, m, p + [k]);
    var r := Resolved(2, []);
    assert Responsible(m, p) == {Resolved(1, [n]), r};
    assert !FlatFile(w, 1) by { assert w.getattr(1, []).value.isDir; }
    assert Flat(w, Responsible(m, p)) == {r} && Holding(w, Responsible(m, p), k) == {};
    forall listing, answer | ListsDir(w, m, p, listing) && LooksUp(w, m, p + [k], answer)
      ensures k !in ListedBy(listing) && answer.Ok?
    {
      PseudomanifestHasEverything(w, m, p, k, r, listing, answer);
    }
  }

  /** Two of them under one name. */
  lemma TwoAtOnce(n: string)
    requires PlainName(n)
    ensures DirNotListable(FlatWorld(n), FlatMounts(n, {2, 3}), ["/", n])
  {
    hide PlainName, Clean, ListsDir, LooksUp, Responsible, ChildrenAt, IdsAt;
    var w, m, p: Path := FlatWorld(n), FlatMounts(n, {2, 3}), ["/", n];
    FlatMountsAre(n, {2, 3});
    FlatIsClean(n, {2, 3});
    Answered(w, m, p);
    assert !SomeDir(w, Responsible(m, p));
    forall listing, answer | ListsDir(w, m, p, listing) && LooksUp(w, m, p, answer)
      ensures listing.Err? && answer.Ok? && answer.value.0.isDir
    {
      ListableIffDirectory(w, m, p, listing, answer);
      DirLookup(w, m, p, answer);
    }
  }
}
