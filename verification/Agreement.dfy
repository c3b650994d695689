/** readdir and getattr, two separately written algorithms, agree on the mounted tree. */
module Agreement {
  import opened Prelude
  import opened ConflictNames
  import opened Mounts
  import opened Resolution
  import opened Listing

  /** The mount tree's own answer for a directory. */
  ghost function MountChildren(m: MountSet, p: Path): Option<set<string>> {
    if IsNode(m, p) then Some(ChildrenAt(m, p)) else None
  }

  /** What readdir(p) may answer: the order of storages mounted at one path is not specified. */
  ghost predicate ListsDir(w: World, m: MountSet, p: Path, answer: Result<set<string>, Errno>) {
    exists rs :: IsResolution(m, p, rs) && answer == Readdir(w, p, rs, MountChildren(m, p))
  }

  /** What getattr_extended(p) may answer. */
  ghost predicate LooksUp(w: World, m: MountSet, p: Path, answer: Result<(Attr, Option<Resolved>), Errno>) {
    match RealPath(p)
    case Err(e) => answer == Err(e)
    case Ok((target, id)) =>
      exists rs :: IsResolution(m, target, rs) && answer == Getattr(w, p, id, rs, IsSynthetic(m, target))
  }

  // ---- one name deeper ----

  function Inside(rs: set<Resolved>, n: string): set<Resolved> {
    set r | r in rs :: Under(r, n)
  }

  /** A name is a child in the mount tree when something is mounted at it or deeper. */
  lemma ChildIsNode(m: MountSet, p: Path, n: string)
    ensures n in ChildrenAt(m, p) <==> IsNode(m, p + [n])
    ensures n in ChildrenAt(m, p) ==> IsNode(m, p)
    ensures n !in ChildrenAt(m, p) ==> IdsAt(m, p + [n]) == {}
  {
    forall x: (Path, nat)
      ensures p + [n] <= x.0 <==> p < x.0 && x.0[|p|] == n
    {
      if p + [n] <= x.0 { assert x.0[..|p|] == p && x.0[|p|] == n; }
      if p < x.0 && x.0[|p|] == n { assert x.0[..|p| + 1] == p + [n]; }
    }
    if IdsAt(m, p + [n]) != {} {
      var x :| x in m && x.0 == p + [n];
    }
  }

  lemma DeeperResponsible(m: MountSet, p: Path, n: string)
    ensures Responsible(m, p + [n]) ==
            Inside(Responsible(m, p), n) + set id | id in IdsAt(m, p + [n]) :: Resolved(id, [])
  {
    var q := p + [n];
    assert q[|q|..] == [];
    forall x | x in m && x.0 <= p
      ensures Under(Resolved(x.1, p[|x.0|..]), n) == Resolved(x.1, q[|x.0|..])
    {
    }
    forall r | r in Responsible(m, q)
      ensures r in Inside(Responsible(m, p), n) || r in set id | id in IdsAt(m, q) :: Resolved(id, [])
    {
      var x :| x in m && x.0 <= q && r == Resolved(x.1, q[|x.0|..]);
      if |x.0| <= |p| {
        assert x.0 == q[..|x.0|] == p[..|x.0|];
        assert Resolved(x.1, p[|x.0|..]) in Responsible(m, p);
      } else {
        assert x.0 == q;
      }
    }
    forall r | r in Inside(Responsible(m, p), n)
      ensures r in Responsible(m, q)
    {
      var s :| s in Responsible(m, p) && r == Under(s, n);
      var x :| x in m && x.0 <= p && s == Resolved(x.1, p[|x.0|..]);
      assert x.0 <= q;
    }
  }

  lemma {:induction false} InsideSize(rs: set<Resolved>, n: string)
    ensures |Inside(rs, n)| == |rs|
  {
    if r :| r in rs {
      InsideSize(rs - {r}, n);
      assert Inside(rs, n) == Inside(rs - {r}, n) + {Under(r, n)};
      forall s | s in rs - {r} ensures Under(s, n) != Under(r, n) {
        assert Outer(Under(s, n)) == s;
      }
    }
  }

  lemma InsideCount(w: World, rs: set<Resolved>, n: string)
    ensures Having(w, Inside(rs, n)) == Inside(HavingName(w, rs, n), n)
    ensures |Having(w, Inside(rs, n))| == |HavingName(w, rs, n)|
    ensures SomeDir(w, Inside(rs, n)) <==> SomeDirNamed(w, rs, n)
  {
    assert Having(w, Inside(rs, n)) == Inside(HavingName(w, rs, n), n);
    InsideSize(HavingName(w, rs, n), n);
    if SomeDirNamed(w, rs, n) {
      var r :| r in rs && IsDirAt(w, Under(r, n));
      assert Under(r, n) in Inside(rs, n);
    }
  }

  /** The storages mounted at a path itself. */
  function Roots(m: MountSet, q: Path): set<Resolved> {
    set id | id in IdsAt(m, q) :: Resolved(id, [])
  }

  /** What is at p/n: what the directories of p hold, and the roots of what is mounted there. */
  lemma AtName(w: World, m: MountSet, p: Path, n: string)
    ensures var rs, qs := Responsible(m, p), Responsible(m, p + [n]);
            && qs == Inside(rs, n) + Roots(m, p + [n])
            && Having(w, qs) == Inside(HavingName(w, rs, n), n) + Having(w, Roots(m, p + [n]))
            && |Having(w, qs)| == |HavingName(w, rs, n)| + |Having(w, Roots(m, p + [n]))|
            && (SomeDir(w, qs) <==> SomeDirNamed(w, rs, n) || SomeDir(w, Roots(m, p + [n])))
  {
    hide Responsible;
    var rs, roots := Responsible(m, p), Roots(m, p + [n]);
    DeeperResponsible(m, p, n);
    InsideCount(w, rs, n);
    assert Having(w, Inside(rs, n) + roots) == Having(w, Inside(rs, n)) + Having(w, roots);
    assert Having(w, Inside(rs, n)) !! Having(w, roots);
    assert SomeDir(w, Inside(rs, n) + roots) <==> SomeDir(w, Inside(rs, n)) || SomeDir(w, roots);
  }

  /** Who answers for n in p: those that list it there, and the files that answer everywhere. */
  lemma AnswerersOf(w: World, m: MountSet, p: Path, n: string)
    requires Clean(w, m)
    ensures var rs := Responsible(m, p);
            && HavingName(w, rs, n) == Holding(w, rs, n) + Flat(w, rs) && Holding(w, rs, n) !! Flat(w, rs)
            && |HavingName(w, rs, n)| == |Holding(w, rs, n)| + |Flat(w, rs)|
            && (SomeDirNamed(w, rs, n) ==> Holding(w, rs, n) != {})
            && (forall r :: r in Flat(w, rs) ==> !IsDirAt(w, Under(r, n)))
            && (Holding(w, rs, n) != {} ==> PlainName(n))
  {
    hide Tame, FlatFile, Holds, PlainName;
    var rs := Responsible(m, p);
    forall r | r in rs
      ensures Present(w, Under(r, n)) <==> Holds(w, r, n) || FlatFile(w, r.ident)
      ensures FlatFile(w, r.ident) ==> !Holds(w, r, n) && !IsDirAt(w, Under(r, n))
      ensures Holds(w, r, n) ==> PlainName(n)
    {
      TameAt(w, m, p, r);
      TreePresent(w, r, n);
      HeldIsPlain(w, r, n);
    }
    assert HavingName(w, rs, n) == Holding(w, rs, n) + Flat(w, rs);
    if SomeDirNamed(w, rs, n) {
      var r :| r in rs && IsDirAt(w, Under(r, n));
      assert r in Holding(w, rs, n);
    }
  }

  lemma HeldIsPlain(w: World, r: Resolved, n: string)
    requires Tame(w, r.ident)
    ensures Holds(w, r, n) ==> PlainName(n)
    ensures FlatFile(w, r.ident) ==> !Holds(w, r, n)
  {
  }

  lemma TameAt(w: World, m: MountSet, p: Path, r: Resolved)
    requires Clean(w, m) && r in Responsible(m, p)
    ensures Tame(w, r.ident)
  {
  }

  lemma CleanTrees(w: World, m: MountSet, p: Path, rs: seq<Resolved>)
    requires Clean(w, m) && ToSet(rs) == Responsible(m, p)
    ensures AllTame(w, rs)
  {
    hide Tame;
    forall r | r in rs
      ensures Tame(w, r.ident)
    {
      assert r in Responsible(m, p);
      TameAt(w, m, p, r);
    }
  }

  lemma NameOfChild(p: Path, n: string)
    requires '/' !in n
    ensures Name(p + [n]) == n && p + [n] != ["/"]
  {
    assert (p + [n])[|p + [n]| - 1] == n;
    assert "/"[0] == '/';
  }

  // ---- plain names ----

  lemma PlainIsNotRenamed(w: World, rs: seq<Resolved>, c: set<string>, x: string)
    requires AllTame(w, rs) && Distinct(rs) && !InConflictForm(x)
    ensures forall n, r :: Clashes(w, ToSet(rs), c, n, r) ==> x != Decorate(n, r.ident)
  {
    hide Tame, Decorate;
    forall n, r | Clashes(w, ToSet(rs), c, n, r)
      ensures x != Decorate(n, r.ident)
    {
      assert r in Holding(w, ToSet(rs), n);
      HeldNamesArePlain(w, rs, n);
      PlainNamesRoundTrip(n, r.ident);
    }
  }

  lemma PlainListed(w: World, m: MountSet, p: Path, n: string, listing: Result<set<string>, Errno>)
    requires Clean(w, m) && PlainName(n) && ListsDir(w, m, p, listing)
    ensures n in ListedBy(listing) <==>
              || n in ChildrenAt(m, p)
              || SomeDirNamed(w, Responsible(m, p), n)
              || |Holding(w, Responsible(m, p), n)| == 1
  {
    hide Tame, Readdir;
    var rs :| IsResolution(m, p, rs) && listing == Readdir(w, p, rs, MountChildren(m, p));
    CleanTrees(w, m, p, rs);
    TameIsOrderly(w, rs);
    ReaddirLists(w, p, rs, MountChildren(m, p), n);
    PlainIsNotRenamed(w, rs, NamesOf(MountChildren(m, p)), n);
    MountNames(m, p);
  }

  lemma PlainFound(w: World, m: MountSet, p: Path, n: string, answer: Result<(Attr, Option<Resolved>), Errno>)
    requires PlainName(n) && LooksUp(w, m, p + [n], answer)
    ensures var q := p + [n];
            answer.Ok? <==> IsSynthetic(m, q) || SomeDir(w, Responsible(m, q)) || |Having(w, Responsible(m, q))| == 1
  {
    NameOfChild(p, n);
    var q := p + [n];
    var qs :| IsResolution(m, q, qs) && answer == Getattr(w, q, None, qs, IsSynthetic(m, q));
    if !IsSynthetic(m, q) { PlainLookup(w, q, qs); }
  }

  /** A name that readdir and getattr disagree on. Where something is mounted at p/n: a single storage whose root is
      no directory, while not exactly one thing answers there. Elsewhere: files that answer at every path, one of
      them alone, or next to the only storage that lists the name. In neither case a directory of that name. */
  ghost predicate Shadowed(w: World, m: MountSet, p: Path, n: string) {
    var rs, q := Responsible(m, p), p + [n];
    && !SomeDirNamed(w, rs, n)
    && if n in ChildrenAt(m, p) then
         && !IsSynthetic(m, q) && !SomeDir(w, Roots(m, q))
         && |Holding(w, rs, n)| + |Flat(w, rs)| + |Having(w, Roots(m, q))| != 1
       else
         || (Flat(w, rs) != {} && |Holding(w, rs, n)| == 1)
         || (|Flat(w, rs)| == 1 && Holding(w, rs, n) == {})
  }

  /** For every table and storages of both kinds: a plain name is in the listing of a directory exactly when looking
      it up there succeeds, unless the name is shadowed, and then never. */
  lemma PlainNamesAgree(w: World, m: MountSet, p: Path, n: string,
                        listing: Result<set<string>, Errno>, answer: Result<(Attr, Option<Resolved>), Errno>)
    requires Clean(w, m) && PlainName(n)
    requires ListsDir(w, m, p, listing) && LooksUp(w, m, p + [n], answer)
    ensures (n in ListedBy(listing) <==> answer.Ok?) <==> !Shadowed(w, m, p, n)
  {
    hide Clean, PlainName, ListsDir, LooksUp, Responsible, IsSynthetic, SomeDirNamed, SomeDir, Having, HavingName,
      Holding, Flat, IdsAt, ChildrenAt, ListedBy;
    PlainListed(w, m, p, n, listing);
    PlainFound(w, m, p, n, answer);
    AtName(w, m, p, n);
    AnswerersOf(w, m, p, n);
    ChildIsNode(m, p, n);
    if n !in ChildrenAt(m, p) {
      NothingMounted(w, m, p, n);
    }
  }

  lemma NothingMounted(w: World, m: MountSet, p: Path, n: string)
    requires n !in ChildrenAt(m, p)
    ensures var q := p + [n];
            !IsSynthetic(m, q) && Roots(m, q) == {} && Having(w, Roots(m, q)) == {} && !SomeDir(w, Roots(m, q))
  {
    ChildIsNode(m, p, n);
  }

  /** Storages that are trees, with directories for roots. */
  ghost predicate RootedTrees(w: World, m: MountSet) {
    forall x :: x in m ==> TreeLike(w, x.1) && IsDirAt(w, Resolved(x.1, []))
  }

  /** Where only such storages are mounted, a plain name is listed exactly when looking it up succeeds. */
  lemma RootedTreesAgree(w: World, m: MountSet, p: Path, n: string,
                         listing: Result<set<string>, Errno>, answer: Result<(Attr, Option<Resolved>), Errno>)
    requires Clean(w, m) && PlainName(n) && RootedTrees(w, m)
    requires ListsDir(w, m, p, listing) && LooksUp(w, m, p + [n], answer)
    ensures n in ListedBy(listing) <==> answer.Ok?
  {
    hide Clean, PlainName, ListsDir, LooksUp, RootedTrees, Shadowed, ListedBy;
    RootedIsNotShadowed(w, m, p, n);
    PlainNamesAgree(w, m, p, n, listing, answer);
  }

  lemma RootedIsNotShadowed(w: World, m: MountSet, p: Path, n: string)
    requires RootedTrees(w, m)
    ensures !Shadowed(w, m, p, n)
  {
    hide TreeLike, IsDirAt, SomeDirNamed, Holding, Having, IsSynthetic;
    var rs, q := Responsible(m, p), p + [n];
    forall r | r in rs
      ensures !FlatFile(w, r.ident)
    {
      var x :| x in m && x.0 <= p && r == Resolved(x.1, p[|x.0|..]);
      DirIsNotFlat(w, x.1);
    }
    assert Flat(w, rs) == {};
    if n in ChildrenAt(m, p) && !IsSynthetic(m, q) {
      MountedHasIds(m, p, n);
      var id :| id in IdsAt(m, q);
      var x :| x in m && x.0 == q && x.1 == id;
      assert Resolved(id, []) in Roots(m, q);
    }
  }

  lemma DirIsNotFlat(w: World, id: nat)
    requires IsDirAt(w, Resolved(id, []))
    ensures !FlatFile(w, id)
  {
    assert w.getattr(id, []).Ok? && w.getattr(id, []).value.isDir;
  }

  lemma MountedHasIds(m: MountSet, p: Path, n: string)
    requires n in ChildrenAt(m, p) && !IsSynthetic(m, p + [n])
    ensures |IdsAt(m, p + [n])| == 1 && ChildrenAt(m, p + [n]) == {}
  {
    ChildIsNode(m, p, n);
  }

  /** A pseudomanifest mounted over a file of that name: both are listed as one name, and it cannot be looked up. */
  lemma PseudomanifestHidesFile(w: World, m: MountSet, p: Path, n: string, id: nat,
                                listing: Result<set<string>, Errno>, answer: Result<(Attr, Option<Resolved>), Errno>)
    requires Clean(w, m) && PlainName(n) && ListsDir(w, m, p, listing) && LooksUp(w, m, p + [n], answer)
    requires n in ChildrenAt(m, p) && IdsAt(m, p + [n]) == {id} && ChildrenAt(m, p + [n]) == {} && FlatFile(w, id)
    requires Holding(w, Responsible(m, p), n) != {} && !SomeDirNamed(w, Responsible(m, p), n)
    ensures n in ListedBy(listing) && answer.Err?
  {
    hide Clean, PlainName, ListsDir, LooksUp, Responsible, SomeDirNamed, HavingName, Holding, Flat, ChildrenAt, ListedBy;
    var q := p + [n];
    assert Roots(m, q) == {Resolved(id, [])};
    assert Having(w, Roots(m, q)) == {Resolved(id, [])} && !SomeDir(w, Roots(m, q));
    assert |IdsAt(m, q)| == 1;
    PlainNamesAgree(w, m, p, n, listing, answer);
    PlainListed(w, m, p, n, listing);
  }

  /** Below a pseudomanifest every name that the storages it is mounted over do not have can be looked up, and is
      not listed. */
  lemma PseudomanifestHasEverything(w: World, m: MountSet, p: Path, n: string, r: Resolved,
                                    listing: Result<set<string>, Errno>, answer: Result<(Attr, Option<Resolved>), Errno>)
    requires Clean(w, m) && PlainName(n) && ListsDir(w, m, p, listing) && LooksUp(w, m, p + [n], answer)
    requires Flat(w, Responsible(m, p)) == {r} && Holding(w, Responsible(m, p), n) == {} && n !in ChildrenAt(m, p)
    ensures n !in ListedBy(listing) && answer.Ok?
  {
    hide Clean, PlainName, ListsDir, LooksUp, Responsible, ChildrenAt, ListedBy, Flat, Holding, SomeDirNamed;
    AnswerersOf(w, m, p, n);
    PlainNamesAgree(w, m, p, n, listing, answer);
    PlainListed(w, m, p, n, listing);
  }

  // ---- renamed files ----

  /** The answer is file n, in directory p, of storage id. */
  ghost predicate AnswersFile(w: World, m: MountSet, p: Path, n: string, id: nat,
                              answer: Result<(Attr, Option<Resolved>), Errno>) {
    && answer.Ok? && !answer.value.0.isDir && answer.value.1.Some?
    && var r := answer.value.1.value;
       r in Responsible(m, p + [n]) && r.ident == id && Stat(w, r) == Some(answer.value.0)
  }

  lemma DecoratedIsRenamed(w: World, rs: seq<Resolved>, c: set<string>, n: string, id: nat)
    requires AllTame(w, rs) && Distinct(rs) && PlainName(n) && Decorate(n, id) !in c
    ensures Lists(w, ToSet(rs), c, Decorate(n, id)) <==> ClashesIn(w, ToSet(rs), c, n, id)
  {
    hide Tame, PlainName, Decorate;
    var d := Decorate(n, id);
    DecoratedNames(n, id);
    assert Holding(w, ToSet(rs), d) == {} by {
      if Holding(w, ToSet(rs), d) != {} { HeldNamesArePlain(w, rs, d); }
    }
    TameDirsAreHeld(w, rs);
    assert forall r :: r in ToSet(rs) && IsDirAt(w, Under(r, d)) ==> r in Holding(w, ToSet(rs), d);
    forall k, r | Clashes(w, ToSet(rs), c, k, r)
      ensures d == Decorate(k, r.ident) ==> k == n && r.ident == id
    {
      assert r in Holding(w, ToSet(rs), k);
      HeldNamesArePlain(w, rs, k);
      DecoratedNames(k, r.ident);
    }
  }

  lemma DecoratedNames(n: string, id: nat)
    requires PlainName(n)
    ensures Decode(Decorate(n, id)) == Some((n, id)) && !PlainName(Decorate(n, id)) && Decorate(n, id) != n
  {
    PlainNamesRoundTrip(n, id);
  }

  ghost predicate ClashesIn(w: World, rs: set<Resolved>, c: set<string>, n: string, id: nat) {
    exists r :: Clashes(w, rs, c, n, r) && r.ident == id
  }

  /** The decorated name of file n of storage id is listed just when that file clashes. */
  lemma RenamedListed(w: World, m: MountSet, p: Path, n: string, id: nat, listing: Result<set<string>, Errno>)
    requires Clean(w, m) && PlainName(n) && ListsDir(w, m, p, listing)
    ensures Decorate(n, id) in ListedBy(listing) <==>
              ClashesIn(w, Responsible(m, p), ChildrenAt(m, p), n, id)
  {
    hide Tame, Readdir, PlainName, Decorate, Lists;
    var rs :| IsResolution(m, p, rs) && listing == Readdir(w, p, rs, MountChildren(m, p));
    var d := Decorate(n, id);
    CleanTrees(w, m, p, rs);
    TameIsOrderly(w, rs);
    ReaddirLists(w, p, rs, MountChildren(m, p), d);
    MountNames(m, p);
    DecoratedIsNoChild(m, p, n, id);
    DecoratedIsRenamed(w, rs, ChildrenAt(m, p), n, id);
  }

  lemma MountNames(m: MountSet, p: Path)
    ensures NamesOf(MountChildren(m, p)) == ChildrenAt(m, p)
  {
    forall x { ChildIsNode(m, p, x); }
  }

  lemma DecoratedIsNoChild(m: MountSet, p: Path, n: string, id: nat)
    requires PlainMounts(m) && PlainName(n)
    ensures Decorate(n, id) !in ChildrenAt(m, p)
  {
    PlainNamesRoundTrip(n, id);
    DecoratedIsFileName(n, id);
    NotPlain(Decorate(n, id));
  }

  lemma NotPlain(d: string)
    requires Decode(d).Some?
    ensures !PlainName(d)
  {
  }

  lemma DecoratedIsFileName(n: string, id: nat)
    requires FileName(n)
    ensures FileName(Decorate(n, id)) && Decorate(n, id) != "/"
  {
    assert Stem(n) + Suffix(n) == n;
    assert |Decorate(n, id)| > 4;
    assert forall c :: c in Decorate(n, id) ==> c in n || c in MARK || IsDigit(c);
  }

  lemma RealPathOfRenamed(p: Path, d: string, n: string, id: nat)
    requires Decode(d) == Some((n, id)) && FileName(d) && FileName(n)
    ensures RealPath(p + [d]) == Ok((p + [n], Some(id)))
  {
    NameOfChild(p, d);
    assert (p + [d])[..|p|] == p;
  }

  /** Several storages have a file at p/n, none has a directory there, and it is no directory of the mount tree. */
  ghost predicate SeveralFiles(w: World, m: MountSet, p: Path, n: string) {
    NoDirectory(w, m, p, n) && Answerers(w, m, p, n) > 1
  }

  ghost predicate NoDirectory(w: World, m: MountSet, p: Path, n: string) {
    && !IsSynthetic(m, p + [n])
    && !SomeDirNamed(w, Responsible(m, p), n) && !SomeDir(w, Roots(m, p + [n]))
  }

  /** How many storages answer for p/n: those holding it, the files that answer everywhere, the roots mounted there. */
  ghost function Answerers(w: World, m: MountSet, p: Path, n: string): nat {
    |Holding(w, Responsible(m, p), n)| + |Flat(w, Responsible(m, p))| + |Having(w, Roots(m, p + [n]))|
  }

  lemma CountsAtName(w: World, m: MountSet, p: Path, n: string)
    requires Clean(w, m)
    ensures var qs := Responsible(m, p + [n]);
            && |Having(w, qs)| == Answerers(w, m, p, n)
            && (NoDirectory(w, m, p, n) <==> !IsSynthetic(m, p + [n]) && !SomeDir(w, qs))
  {
    hide Clean, Having, HavingName, Holding, Flat, SomeDir, SomeDirNamed, IsSynthetic, Responsible;
    AtName(w, m, p, n);
    AnswerersOf(w, m, p, n);
  }

  /** A lookup of a decorated name answers with a file of the storage exactly when several storages have a file there
      and this one does; otherwise it fails, or answers with a directory of the mount tree. */
  lemma RenamedFound(w: World, m: MountSet, p: Path, n: string, id: nat,
                     answer: Result<(Attr, Option<Resolved>), Errno>)
    requires Clean(w, m) && PlainName(n)
    ensures LooksUp(w, m, p + [Decorate(n, id)], answer) ==>
              && (AnswersFile(w, m, p, n, id, answer) <==>
                    SeveralFiles(w, m, p, n) && HeldBy(w, Responsible(m, p + [n]), id))
              && (answer.Ok? <==> IsSynthetic(m, p + [n]) || AnswersFile(w, m, p, n, id, answer))
  {
    hide Clean, Getattr, Answerers, NoDirectory, Having, SomeDir, IsSynthetic, Responsible;
    var d, q := Decorate(n, id), p + [n];
    PlainNamesRoundTrip(n, id);
    DecoratedIsFileName(n, id);
    RealPathOfRenamed(p, d, n, id);
    NameOfChild(p, d);
    CountsAtName(w, m, p, n);
    if LooksUp(w, m, p + [d], answer) {
      var qs :| IsResolution(m, q, qs) && answer == Getattr(w, p + [d], Some(id), qs, IsSynthetic(m, q));
      DecoratedLookup(w, p + [d], id, qs);
      if IsSynthetic(m, q) {
        SyntheticAnswer(w, p + [d], Some(id), qs);
      } else {
        assert forall r :: r in qs <==> r in Responsible(m, q);
      }
    }
  }

  lemma SyntheticAnswer(w: World, p: Path, id: Option<nat>, rs: seq<Resolved>)
    ensures var g := Getattr(w, p, id, rs, true); g == Ok(MergedDir(Found(w, rs, true))) && g.value.0.isDir
  {
    MergedIsDir(w, rs);
  }

  lemma MergedIsDir(w: World, rs: seq<Resolved>)
    ensures MergedDir(Found(w, rs, true)).0.isDir
  {
    var ds := WritableDirs(Found(w, rs, true));
    WritableMembers(Found(w, rs, true));
    FoundMembers(w, rs, true);
    if |ds| == 1 { assert ds[0] in ds; }
  }

  lemma {:induction false} WritableMembers(dirs: seq<Hit>)
    ensures forall h :: h in WritableDirs(dirs) <==> h in dirs && h.0.writable
    ensures Distinct(dirs) ==> Distinct(WritableDirs(dirs))
  {
    if dirs != [] {
      WritableMembers(dirs[..|dirs| - 1]);
      assert dirs == dirs[..|dirs| - 1] + [dirs[|dirs| - 1]];
    }
  }

  /** A renamed file that is listed can be looked up exactly when several storages have a file there and nothing is a
      directory there. A file answered under a decorated name is listed exactly when a directory that lists it has that
      storage's id, and there are several, or a mount of that name in a merged directory. */
  lemma RenamedFilesAgree(w: World, m: MountSet, p: Path, n: string, id: nat,
                          listing: Result<set<string>, Errno>, answer: Result<(Attr, Option<Resolved>), Errno>)
    requires Clean(w, m) && PlainName(n)
    requires ListsDir(w, m, p, listing)
    ensures LooksUp(w, m, p + [Decorate(n, id)], answer) ==>
              && (Decorate(n, id) in ListedBy(listing) ==>
                    (AnswersFile(w, m, p, n, id, answer) <==> SeveralFiles(w, m, p, n)))
              && (AnswersFile(w, m, p, n, id, answer) ==>
                    (Decorate(n, id) in ListedBy(listing) <==> HeldApart(w, m, p, n, id)))
  {
    hide Clean, PlainName, ListsDir, LooksUp, Decorate, AnswersFile, ListedBy, Holds, Responsible;
    RenamedListed(w, m, p, n, id, listing);
    RenamedFound(w, m, p, n, id, answer);
    if ClashesIn(w, Responsible(m, p), ChildrenAt(m, p), n, id) {
      HeldAnswers(w, m, p, n, id);
    }
    if SeveralFiles(w, m, p, n) { HeldApartClashes(w, m, p, n, id); }
  }

  ghost predicate HeldApart(w: World, m: MountSet, p: Path, n: string, id: nat) {
    var rs := Responsible(m, p);
    && (exists r :: r in Holding(w, rs, n) && r.ident == id)
    && (|Holding(w, rs, n)| > 1 || (n in ChildrenAt(m, p) && |Dirs(w, rs)| > 1))
  }

  lemma HeldAnswers(w: World, m: MountSet, p: Path, n: string, id: nat)
    requires Clean(w, m) && ClashesIn(w, Responsible(m, p), ChildrenAt(m, p), n, id)
    ensures HeldBy(w, Responsible(m, p + [n]), id)
  {
    hide Clean, Holds, Tame, Responsible;
    var r :| Clashes(w, Responsible(m, p), ChildrenAt(m, p), n, r) && r.ident == id;
    HolderAnswers(w, m, p, n, r);
  }

  lemma HolderAnswers(w: World, m: MountSet, p: Path, n: string, r: Resolved)
    requires Clean(w, m) && r in Holding(w, Responsible(m, p), n)
    ensures Under(r, n) in Having(w, Responsible(m, p + [n])) && r in HavingName(w, Responsible(m, p), n)
  {
    hide Clean, Holds, Tame, Responsible;
    TameAt(w, m, p, r);
    TreePresent(w, r, n);
    DeeperResponsible(m, p, n);
    assert Under(r, n) in Inside(Responsible(m, p), n);
  }

  lemma HeldApartClashes(w: World, m: MountSet, p: Path, n: string, id: nat)
    requires SeveralFiles(w, m, p, n)
    ensures HeldApart(w, m, p, n, id) <==> ClashesIn(w, Responsible(m, p), ChildrenAt(m, p), n, id)
  {
    var rs := Responsible(m, p);
    if HeldApart(w, m, p, n, id) {
      var r :| r in Holding(w, rs, n) && r.ident == id;
      assert Clashes(w, rs, ChildrenAt(m, p), n, r);
    }
    if ClashesIn(w, rs, ChildrenAt(m, p), n, id) {
      var r :| Clashes(w, rs, ChildrenAt(m, p), n, r) && r.ident == id;
      assert r in Holding(w, rs, n);
    }
  }

  /** A directory somewhere: a mount of that name, or a storage that has a directory there. */
  ghost predicate DirNamed(w: World, m: MountSet, p: Path, n: string) {
    n in ChildrenAt(m, p) || SomeDirNamed(w, Responsible(m, p), n)
  }

  /** Where only trees with directories for roots are mounted: what is listed can be looked up unless the name is a
      directory, and what can be looked up is listed. */
  lemma RootedRenamesAgree(w: World, m: MountSet, p: Path, n: string, id: nat,
                           listing: Result<set<string>, Errno>, answer: Result<(Attr, Option<Resolved>), Errno>)
    requires Clean(w, m) && PlainName(n) && RootedTrees(w, m) && ListsDir(w, m, p, listing)
    ensures LooksUp(w, m, p + [Decorate(n, id)], answer) ==>
              && (Decorate(n, id) in ListedBy(listing) ==>
                    (AnswersFile(w, m, p, n, id, answer) <==> !DirNamed(w, m, p, n)))
              && (AnswersFile(w, m, p, n, id, answer) ==> Decorate(n, id) in ListedBy(listing))
  {
    hide Clean, PlainName, ListsDir, LooksUp, Decorate, AnswersFile, ListedBy, RootedTrees, Responsible, Holds;
    RenamedListed(w, m, p, n, id, listing);
    RenamedFound(w, m, p, n, id, answer);
    RenamedFilesAgree(w, m, p, n, id, listing, answer);
    RootedCounts(w, m, p, n);
    if SeveralFiles(w, m, p, n) && HeldBy(w, Responsible(m, p + [n]), id) {
      RootedHolder(w, m, p, n, id);
    }
  }

  lemma RootedCounts(w: World, m: MountSet, p: Path, n: string)
    requires RootedTrees(w, m)
    ensures Flat(w, Responsible(m, p)) == {}
    ensures n in ChildrenAt(m, p) ==> !NoDirectory(w, m, p, n)
    ensures n !in ChildrenAt(m, p) ==>
              && (NoDirectory(w, m, p, n) <==> !SomeDirNamed(w, Responsible(m, p), n))
              && Answerers(w, m, p, n) == |Holding(w, Responsible(m, p), n)|
  {
    hide TreeLike, IsDirAt, SomeDirNamed, Holding, IsSynthetic, Having, SomeDir;
    forall r | r in Responsible(m, p)
      ensures !FlatFile(w, r.ident)
    {
      var x :| x in m && x.0 <= p && r == Resolved(x.1, p[|x.0|..]);
      DirIsNotFlat(w, x.1);
    }
    assert Flat(w, Responsible(m, p)) == {};
    if n in ChildrenAt(m, p) {
      if !IsSynthetic(m, p + [n]) { RootedIsDir(w, m, p, n); }
    } else {
      NothingMounted(w, m, p, n);
    }
  }

  lemma RootedIsDir(w: World, m: MountSet, p: Path, n: string)
    requires RootedTrees(w, m) && n in ChildrenAt(m, p) && !IsSynthetic(m, p + [n])
    ensures SomeDir(w, Roots(m, p + [n]))
  {
    hide TreeLike, IsDirAt, IsSynthetic, ChildrenAt;
    var q := p + [n];
    MountedHasIds(m, p, n);
    var id :| id in IdsAt(m, q);
    var x :| x in m && x.0 == q && x.1 == id;
    assert Resolved(id, []) in Roots(m, q);
  }

  lemma RootedHolder(w: World, m: MountSet, p: Path, n: string, id: nat)
    requires Clean(w, m) && RootedTrees(w, m) && SeveralFiles(w, m, p, n)
    requires HeldBy(w, Responsible(m, p + [n]), id)
    ensures HeldApart(w, m, p, n, id)
  {
    hide Clean, RootedTrees, Responsible, Holds, Present, NoDirectory;
    RootedCounts(w, m, p, n);
    NothingMounted(w, m, p, n);
    DeeperResponsible(m, p, n);
    AnswerersOf(w, m, p, n);
    var u :| u in Responsible(m, p + [n]) && u.ident == id && Present(w, u);
    assert u in Inside(Responsible(m, p), n);
    var r :| r in Responsible(m, p) && u == Under(r, n);
    assert r in HavingName(w, Responsible(m, p), n);
  }

  // ---- which file answers ----

  /** The answer is exactly file n of this storage in this directory. */
  ghost predicate AnswersThis(w: World, r: Resolved, n: string, answer: Result<(Attr, Option<Resolved>), Errno>) {
    Stat(w, Under(r, n)).Some? && answer == Ok((Stat(w, Under(r, n)).value, Some(Under(r, n))))
  }

  /** No outer mount of the same storage answers for the name too. */
  ghost predicate Outermost(w: World, rs: set<Resolved>, n: string, r: Resolved) {
    forall s :: s in HavingName(w, rs, n) && s.ident == r.ident ==> |s.relpath| <= |r.relpath|
  }

  lemma FirstIsThis(w: World, m: MountSet, p: Path, n: string, r: Resolved, qs: seq<Resolved>)
    requires IsResolution(m, p + [n], qs) && r in HavingName(w, Responsible(m, p), n) && !IsDirAt(w, Under(r, n))
    requires !SomeDir(w, Responsible(m, p + [n]))
    ensures var f := FirstWithId(Found(w, qs, false), r.ident);
            && f.Some? && f.value.1 in qs && Stat(w, f.value.1) == Some(f.value.0)
            && (f.value.1 == Under(r, n) <==> Outermost(w, Responsible(m, p), n, r))
  {
    hide Responsible, IsDirAt, SomeDir;
    var rs, q, u := Responsible(m, p), p + [n], Under(r, n);
    DeeperResponsible(m, p, n);
    assert u in Inside(rs, n) && u in ToSet(qs);
    var files := Found(w, qs, false);
    FoundMembers(w, qs, false);
    FoundKeepsOrder(w, qs, false);
    FileIsFound(w, qs, u);
    FirstIsOutermost(files, r.ident, (Stat(w, u).value, u));
    FirstWithIdFinds(files, r.ident);
    var first := FirstWithId(files, r.ident).value.1;
    assert first in ToSet(qs);
    if first == u {
      forall s | s in HavingName(w, rs, n) && s.ident == r.ident
        ensures |s.relpath| <= |r.relpath|
      {
        var v := Under(s, n);
        assert v in Inside(rs, n) && v in ToSet(qs);
        NotDirThere(w, m, q, v);
        FileIsFound(w, qs, v);
        FirstIsOutermost(files, r.ident, (Stat(w, v).value, v));
      }
    } else if Outermost(w, rs, n, r) {
      assert |first.relpath| >= |u.relpath| > 0;
      assert first in Inside(rs, n);
      var s :| s in rs && first == Under(s, n);
      assert s in HavingName(w, rs, n);
      SameDepthSamePath(m, q, first, u);
    }
  }

  lemma NotDirThere(w: World, m: MountSet, q: Path, v: Resolved)
    requires v in Responsible(m, q) && !SomeDir(w, Responsible(m, q))
    ensures !IsDirAt(w, v)
  {
  }

  lemma FileIsFound(w: World, qs: seq<Resolved>, u: Resolved)
    requires u in qs && Present(w, u) && !IsDirAt(w, u)
    ensures (Stat(w, u).value, u) in Found(w, qs, false)
  {
    FoundMembers(w, qs, false);
  }

  /** A decorated lookup answers with the file of this very directory exactly when several storages have a file there,
      nothing is a directory there, and no outer mount of the same storage has one too. */
  lemma DecoratedAnswer(w: World, m: MountSet, p: Path, n: string, r: Resolved,
                        answer: Result<(Attr, Option<Resolved>), Errno>)
    requires Clean(w, m) && PlainName(n) && r in HavingName(w, Responsible(m, p), n) && !IsDirAt(w, Under(r, n))
    ensures LooksUp(w, m, p + [Decorate(n, r.ident)], answer) ==>
              (AnswersThis(w, r, n, answer) <==> SeveralFiles(w, m, p, n) && Outermost(w, Responsible(m, p), n, r))
  {
    hide Clean, Getattr, Answerers, NoDirectory, Having, SomeDir, IsSynthetic, Responsible, Outermost, HavingName;
    var d, q, id := Decorate(n, r.ident), p + [n], r.ident;
    PlainNamesRoundTrip(n, id);
    DecoratedIsFileName(n, id);
    RealPathOfRenamed(p, d, n, id);
    NameOfChild(p, d);
    CountsAtName(w, m, p, n);
    HavingIsPresent(w, m, p, n, r);
    if LooksUp(w, m, p + [d], answer) {
      var qs :| IsResolution(m, q, qs) && answer == Getattr(w, p + [d], Some(id), qs, IsSynthetic(m, q));
      SyntheticAnswer(w, p + [d], Some(id), qs);
      if !IsSynthetic(m, q) { DecoratedAnswerIs(w, m, p, n, r, qs); }
    }
  }

  lemma HavingIsPresent(w: World, m: MountSet, p: Path, n: string, r: Resolved)
    requires r in HavingName(w, Responsible(m, p), n)
    ensures Stat(w, Under(r, n)).Some? && Present(w, Under(r, n))
  {
  }

  lemma DecoratedAnswerIs(w: World, m: MountSet, p: Path, n: string, r: Resolved, qs: seq<Resolved>)
    requires IsResolution(m, p + [n], qs) && r in HavingName(w, Responsible(m, p), n) && !IsDirAt(w, Under(r, n))
    requires p + [Decorate(n, r.ident)] != ["/"]
    ensures Stat(w, Under(r, n)).Some?
    ensures Getattr(w, p + [Decorate(n, r.ident)], Some(r.ident), qs, false) ==
              Ok((Stat(w, Under(r, n)).value, Some(Under(r, n)))) <==>
            && !SomeDir(w, Responsible(m, p + [n])) && |Having(w, Responsible(m, p + [n]))| > 1
            && Outermost(w, Responsible(m, p), n, r)
  {
    hide Getattr, Having, SomeDir, Responsible, Outermost, Decorate, IsDirAt;
    DecoratedCases(w, p + [Decorate(n, r.ident)], r.ident, qs);
    SomeDirFound(w, qs);
    if !SomeDir(w, Responsible(m, p + [n])) {
      FilesFound(w, qs);
      FirstIsThis(w, m, p, n, r, qs);
    }
  }

  /** A plain lookup answers with it exactly when nothing else answers there. */
  lemma PlainAnswer(w: World, m: MountSet, p: Path, n: string, r: Resolved,
                    answer: Result<(Attr, Option<Resolved>), Errno>)
    requires Clean(w, m) && PlainName(n) && r in HavingName(w, Responsible(m, p), n) && !IsDirAt(w, Under(r, n))
    ensures LooksUp(w, m, p + [n], answer) ==>
              (AnswersThis(w, r, n, answer) <==> NoDirectory(w, m, p, n) && Answerers(w, m, p, n) == 1)
  {
    hide Clean, Getattr, Answerers, NoDirectory, SomeDir, IsSynthetic, Responsible;
    var q, u := p + [n], Under(r, n);
    NameOfChild(p, n);
    CountsAtName(w, m, p, n);
    DeeperResponsible(m, p, n);
    assert u in Inside(Responsible(m, p), n);
    if LooksUp(w, m, q, answer) {
      var qs :| IsResolution(m, q, qs) && answer == Getattr(w, q, None, qs, IsSynthetic(m, q));
      SyntheticAnswer(w, q, None, qs);
      if !IsSynthetic(m, q) {
        assert u in ToSet(qs);
        PlainAnswerIs(w, q, qs, u);
      }
    }
  }

  lemma PlainAnswerIs(w: World, q: Path, qs: seq<Resolved>, u: Resolved)
    requires Distinct(qs) && q != ["/"] && u in qs && Present(w, u) && !IsDirAt(w, u)
    ensures Getattr(w, q, None, qs, false) == Ok((Stat(w, u).value, Some(u))) <==>
            !SomeDir(w, ToSet(qs)) && |Having(w, ToSet(qs))| == 1
  {
    FoundMembers(w, qs, true);
    FoundMembers(w, qs, false);
    SomeDirFound(w, qs);
    var dirs, files := Found(w, qs, true), Found(w, qs, false);
    MergedIsDir(w, qs);
    FileIsFound(w, qs, u);
    if dirs == [] {
      FilesFound(w, qs);
      if |files| == 1 { assert files[0] == (Stat(w, u).value, u); }
    } else {
      assert dirs[0] in dirs;
    }
    if |qs| == 1 { assert qs[0] == u; }
  }

  /** The name under which readdir shows file n of a directory. */
  ghost function ShownAs(w: World, m: MountSet, p: Path, n: string, r: Resolved): string {
    var rs := Responsible(m, p);
    if |Holding(w, rs, n)| == 1 && !(n in ChildrenAt(m, p) && |Dirs(w, rs)| > 1) then n else Decorate(n, r.ident)
  }

  /** Every file is listed under the name it is shown as. Looking that up answers with this very file exactly when
      nothing is a directory there and, for its own name, nothing else answers; for a decorated name, several files do
      and no outer mount of the same storage has one. */
  lemma EveryFileIsReachable(w: World, m: MountSet, p: Path, n: string, r: Resolved,
                             listing: Result<set<string>, Errno>, answer: Result<(Attr, Option<Resolved>), Errno>)
    requires Clean(w, m) && ListsDir(w, m, p, listing)
    requires r in Holding(w, Responsible(m, p), n) && !IsDirAt(w, Under(r, n))
    ensures ShownAs(w, m, p, n, r) in ListedBy(listing)
    ensures LooksUp(w, m, p + [ShownAs(w, m, p, n, r)], answer) ==>
              (AnswersThis(w, r, n, answer) <==>
                 && NoDirectory(w, m, p, n)
                 && if ShownAs(w, m, p, n, r) == n then Answerers(w, m, p, n) == 1
                    else Answerers(w, m, p, n) > 1 && Outermost(w, Responsible(m, p), n, r))
  {
    hide Clean, ListsDir, LooksUp, Decorate, AnswersThis, ListedBy, Responsible, Holding, NoDirectory, Answerers,
      Outermost, HavingName, PlainName, IsDirAt;
    AnswerersOf(w, m, p, n);
    assert r in HavingName(w, Responsible(m, p), n);
    assert PlainName(n) by { HeldIsPlainHere(w, m, p, n, r); }
    DecoratedNames(n, r.ident);
    PlainListed(w, m, p, n, listing);
    RenamedListed(w, m, p, n, r.ident, listing);
    ShownClashes(w, m, p, n, r);
    PlainAnswer(w, m, p, n, r, answer);
    DecoratedAnswer(w, m, p, n, r, answer);
  }

  lemma HeldIsPlainHere(w: World, m: MountSet, p: Path, n: string, r: Resolved)
    requires Clean(w, m) && r in Holding(w, Responsible(m, p), n)
    ensures PlainName(n)
  {
    AnswerersOf(w, m, p, n);
  }

  lemma ShownClashes(w: World, m: MountSet, p: Path, n: string, r: Resolved)
    requires r in Holding(w, Responsible(m, p), n) && !IsDirAt(w, Under(r, n))
    ensures var rs := Responsible(m, p);
            if |Holding(w, rs, n)| == 1 && !(n in ChildrenAt(m, p) && |Dirs(w, rs)| > 1) then true
            else ClashesIn(w, rs, ChildrenAt(m, p), n, r.ident)
  {
    hide Responsible;
    var rs := Responsible(m, p);
    assert Holding(w, rs, n) != {};
    assert Clashes(w, rs, ChildrenAt(m, p), n, r) <==>
           |Holding(w, rs, n)| > 1 || (n in ChildrenAt(m, p) && |Dirs(w, rs)| > 1);
  }

  // ---- a rename that is lost ----

  /** Two storages whose roots hold one name: a file in storage 1, a directory in any other. */
  function ClashWorld(n: string): World {
    World(
      (id: nat, rel: Path) =>
        if rel == [] then Ok(Attr(true, true))
        else if rel == [n] then Ok(Attr(id != 1, true))
        else Err(ENOENT),
      (id: nat, rel: Path) =>
        if rel == [] then Ok([n]) else if rel == [n] && id != 1 then Ok([]) else Err(ENOTDIR))
  }

  lemma ClashWorldIsTrees(n: string, id: nat)
    requires PlainName(n)
    ensures TreeLike(ClashWorld(n), id) && PlainNamesIn(ClashWorld(n), id) && Tame(ClashWorld(n), id)
  {
    hide PlainName;
    var w := ClashWorld(n);
    forall rel: Path, k: string
      ensures rel + [k] == [n] <==> rel == [] && k == n
    {
      assert (rel + [k])[|rel|] == k;
      assert rel + [k] == [n] ==> |rel| == 0;
    }
  }

  /** The file of storage 1 is listed under its decorated name, as the documentation says, and no lookup of that
      name answers with it. */
  ghost predicate RenameIsLost(w: World, m: MountSet, p: Path, n: string) {
    && Clean(w, m)
    && (exists listing :: ListsDir(w, m, p, listing))
    && (forall listing :: ListsDir(w, m, p, listing) ==> Decorate(n, 1) in ListedBy(listing))
    && forall answer :: LooksUp(w, m, p + [Decorate(n, 1)], answer) ==> !AnswersFile(w, m, p, n, 1, answer)
  }

  lemma ClashMounts(n: string, p: Path)
    requires PlainName(n) && p == ["/"]
    ensures var m: MountSet := {(p, 1), (p, 2)};
            && PlainMounts(m) && ChildrenAt(m, p) == {} && IsNode(m, p)
            && Responsible(m, p) == {Resolved(1, []), Resolved(2, [])}
            && IsResolution(m, p, [Resolved(1, []), Resolved(2, [])])
  {
    hide PlainName;
    var m: MountSet := {(p, 1), (p, 2)};
    assert p[|p|..] == [];
    assert (p, 1) in m && (p, 2) in m;
    assert forall x :: x in m ==> x.0 == p && |p| == 1;
    assert Responsible(m, p) == {Resolved(1, []), Resolved(2, [])};
  }

  lemma ClashIsClean(n: string, p: Path, m: MountSet)
    requires PlainName(n) && PlainMounts(m) && m == {(p, 1), (p, 2)}
    ensures Clean(ClashWorld(n), m)
  {
    hide PlainName, TreeLike, PlainNamesIn, PlainMounts;
    ClashWorldIsTrees(n, 1);
    ClashWorldIsTrees(n, 2);
  }

  lemma ClashIsListed(w: World, m: MountSet, p: Path, n: string, rs: seq<Resolved>)
    requires Clean(w, m) && PlainName(n) && IsResolution(m, p, rs)
    ensures ClashesIn(w, Responsible(m, p), ChildrenAt(m, p), n, 1) && SomeDirNamed(w, Responsible(m, p), n) ==>
              RenameIsLost(w, m, p, n)
  {
    hide PlainName, Clean, LooksUp, Decorate, AnswersFile, ClashesIn, SomeDirNamed, ListedBy, IsResolution, Readdir;
    if ClashesIn(w, Responsible(m, p), ChildrenAt(m, p), n, 1) && SomeDirNamed(w, Responsible(m, p), n) {
      assert ListsDir(w, m, p, Readdir(w, p, rs, MountChildren(m, p)));
      forall listing | ListsDir(w, m, p, listing)
        ensures Decorate(n, 1) in ListedBy(listing)
      {
        RenamedListed(w, m, p, n, 1, listing);
      }
      forall answer | LooksUp(w, m, p + [Decorate(n, 1)], answer)
        ensures !AnswersFile(w, m, p, n, 1, answer)
      {
        RenamedFound(w, m, p, n, 1, answer);
      }
    }
  }

  /** When a name is a file in one storage and a directory in another, the documented renaming fails. */
  lemma ClashingRenameIsLost(n: string)
    requires PlainName(n)
    ensures exists w, m, p :: RenameIsLost(w, m, p, n)
  {
    hide PlainName, Clean, PlainMounts, IsResolution, Responsible, ChildrenAt, IsNode, ClashesIn, SomeDirNamed, RenameIsLost,
      ClashWorld;
    var p: Path := ["/"];
    var m: MountSet := {(p, 1), (p, 2)};
    ClashMounts(n, p);
    ClashIsClean(n, p, m);
    FileClashes(n, p, m);
    ClashIsListed(ClashWorld(n), m, p, n, [Resolved(1, []), Resolved(2, [])]);
  }

  lemma FileClashes(n: string, p: Path, m: MountSet)
    requires Responsible(m, p) == {Resolved(1, []), Resolved(2, [])}
    ensures ClashesIn(ClashWorld(n), Responsible(m, p), ChildrenAt(m, p), n, 1)
    ensures SomeDirNamed(ClashWorld(n), Responsible(m, p), n)
  {
    hide Responsible, ChildrenAt, Clashes;
    var w := ClashWorld(n);
    var one, two := Resolved(1, []), Resolved(2, []);
    assert Under(one, n).relpath == [n] && Under(two, n).relpath == [n];
    assert Stat(w, Under(one, n)) == Some(Attr(false, true)) && Stat(w, Under(two, n)) == Some(Attr(true, true));
    assert Holds(w, one, n) && Holds(w, two, n);
    TwoHoldersClash(w, Responsible(m, p), ChildrenAt(m, p), n, one, two);
    assert two in Responsible(m, p) && IsDirAt(w, Under(two, n));
  }

  lemma TwoHoldersClash(w: World, rs: set<Resolved>, c: set<string>, n: string, one: Resolved, two: Resolved)
    requires one in rs && two in rs && one != two
    requires Holds(w, one, n) && Holds(w, two, n) && !IsDirAt(w, Under(one, n))
    ensures Clashes(w, rs, c, n, one)
  {
    hide IsDirAt, Holds;
    assert {one, two} <= Holding(w, rs, n);
    SubsetCount({one, two}, Holding(w, rs, n));
    assert |{one, two}| == |{one}| + 1;
  }

  // ---- a file that is lost ----

  /** File n of one directory is listed, and no lookup of the name shown answers with it. */
  ghost predicate FileIsLost(w: World, m: MountSet, p: Path, n: string, r: Resolved) {
    && Clean(w, m)
    && r in Holding(w, Responsible(m, p), n) && !IsDirAt(w, Under(r, n))
    && (exists listing :: ListsDir(w, m, p, listing))
    && forall answer :: LooksUp(w, m, p + [ShownAs(w, m, p, n, r)], answer) ==> !AnswersThis(w, r, n, answer)
  }

  /** Every storage holds a file n, and a directory `a` with another file n. */
  function TwiceWorld(a: string, n: string): World {
    World(
      (id: nat, rel: Path) =>
        if rel == [] || rel == [a] then Ok(Attr(true, true))
        else if rel == [n] || rel == [a, n] then Ok(Attr(false, true))
        else Err(ENOENT),
      (id: nat, rel: Path) =>
        if rel == [] then Ok([a, n]) else if rel == [a] then Ok([n]) else Err(ENOTDIR))
  }

  lemma TwiceStep(a: string, n: string, rel: Path, k: string)
    requires a != n
    ensures var w := TwiceWorld(a, n);
            w.getattr(1, rel + [k]).Ok? <==> w.readdir(1, rel).Ok? && k in w.readdir(1, rel).value
  {
    var q := rel + [k];
    assert q[|rel|] == k && q[..|rel|] == rel;
    assert q == [a, n] <==> rel == [a] && k == n by { assert [a, n][..1] == [a]; }
    assert q == [a] <==> rel == [] && k == a;
    assert q == [n] <==> rel == [] && k == n;
  }

  lemma TwiceIsTree(a: string, n: string)
    requires a != n
    ensures TreeLike(TwiceWorld(a, n), 1)
  {
    var w := TwiceWorld(a, n);
    forall rel: Path, k: string
      ensures w.getattr(1, rel + [k]).Ok? <==> w.readdir(1, rel).Ok? && k in w.readdir(1, rel).value
    {
      TwiceStep(a, n, rel, k);
    }
  }

  lemma TwiceWorldIsTame(a: string, n: string)
    requires PlainName(a) && PlainName(n) && a != n
    ensures Tame(TwiceWorld(a, n), 1)
  {
    hide PlainName, TreeLike, FlatFile;
    TwiceIsTree(a, n);
  }

  lemma TwiceMounts(a: string, n: string, p: Path)
    requires PlainName(a) && p == ["/", a]
    ensures var m: MountSet := {(["/"], 1), (p, 1)};
            && PlainMounts(m) && ChildrenAt(m, p) == {}
            && Responsible(m, p) == {Resolved(1, [a]), Resolved(1, [])}
            && IsResolution(m, p, [Resolved(1, [a]), Resolved(1, [])])
  {
    hide PlainName;
    var m: MountSet := {(["/"], 1), (p, 1)};
    assert p[1..] == [a] && p[2..] == [] && ["/"] <= p;
    assert (["/"], 1) in m && (p, 1) in m;
    assert Responsible(m, p) == {Resolved(1, [a]), Resolved(1, [])};
    assert [Resolved(1, [a]), Resolved(1, [])][0].relpath == [a];
  }

  /** A storage mounted at the root and again at /a: at /a its files /a/x and /x are shown under one decorated name,
      which always leads to the outer mount's file, so the other is lost. */
  lemma SameStorageTwiceLosesFile(a: string, n: string)
    requires PlainName(a) && PlainName(n) && a != n
    ensures exists w, m, p, r :: FileIsLost(w, m, p, n, r)
  {
    hide PlainName, Clean, PlainMounts, IsResolution, Responsible, ChildrenAt, Tame, TwiceWorld, FileIsLost, Holds,
      Present, IsDirAt;
    var p: Path := ["/", a];
    var m: MountSet := {(["/"], 1), (p, 1)};
    var w, inner, outer := TwiceWorld(a, n), Resolved(1, []), Resolved(1, [a]);
    TwiceMounts(a, n, p);
    TwiceWorldIsTame(a, n);
    TwiceIsClean(w, m, p);
    TwiceHolds(a, n);
    OuterHidesInner(w, m, p, n, inner, outer, [outer, inner]);
  }

  lemma TwiceHolds(a: string, n: string)
    requires a != n
    ensures var w, inner, outer := TwiceWorld(a, n), Resolved(1, []), Resolved(1, [a]);
            && Holds(w, inner, n) && Holds(w, outer, n) && Present(w, Under(outer, n)) && !IsDirAt(w, Under(inner, n))
  {
    assert Under(Resolved(1, []), n).relpath == [n] && Under(Resolved(1, [a]), n).relpath == [a, n];
  }

  /** Of two files of one storage under one name, only that of the outer mount is answered. */
  lemma OuterHidesInner(w: World, m: MountSet, p: Path, n: string, inner: Resolved, outer: Resolved, rs: seq<Resolved>)
    requires Clean(w, m) && IsResolution(m, p, rs) && {inner, outer} <= Responsible(m, p)
    requires Holds(w, inner, n) && Holds(w, outer, n) && Present(w, Under(outer, n)) && !IsDirAt(w, Under(inner, n))
    requires inner.ident == outer.ident && |inner.relpath| < |outer.relpath|
    ensures FileIsLost(w, m, p, n, inner)
  {
    hide Clean, LooksUp, Readdir, AnswersThis, NoDirectory, Answerers, Decorate, Holds, Responsible, IsDirAt, PlainName,
      IsResolution;
    var held := Holding(w, Responsible(m, p), n);
    assert {inner, outer} <= held;
    SubsetCount({inner, outer}, held);
    assert |{inner, outer}| == |{inner}| + 1;
    assert outer in HavingName(w, Responsible(m, p), n) && !Outermost(w, Responsible(m, p), n, inner);
    HeldIsPlainHere(w, m, p, n, inner);
    DecoratedNames(n, inner.ident);
    var listing := Readdir(w, p, rs, MountChildren(m, p));
    assert ListsDir(w, m, p, listing);
    forall answer | LooksUp(w, m, p + [ShownAs(w, m, p, n, inner)], answer)
      ensures !AnswersThis(w, inner, n, answer)
    {
      EveryFileIsReachable(w, m, p, n, inner, listing, answer);
    }
  }

  lemma TwiceIsClean(w: World, m: MountSet, p: Path)
    requires m == {(["/"], 1), (p, 1)} && PlainMounts(m) && Tame(w, 1)
    ensures Clean(w, m)
  {
  }

  // ---- directories ----

  lemma ResolutionCounts(w: World, m: MountSet, q: Path, rs: seq<Resolved>)
    requires IsResolution(m, q, rs)
    ensures |rs| == |Responsible(m, q)|
    ensures |Found(w, rs, true)| == |Dirs(w, Responsible(m, q))|
    ensures |Found(w, rs, true)| > 0 <==> SomeDir(w, Responsible(m, q))
  {
    DistinctCount(rs);
    DirsFound(w, rs);
    SomeDirFound(w, rs);
  }

  lemma DirListing(w: World, m: MountSet, p: Path, listing: Result<set<string>, Errno>)
    requires Clean(w, m) && p != [] && ListsDir(w, m, p, listing)
    ensures listing.Ok? <==>
              || ChildrenAt(m, p) != {} || SomeDir(w, Responsible(m, p))
              || (p == ["/"] && Responsible(m, p) == {} && !IsNode(m, p))
  {
    var rs :| IsResolution(m, p, rs) && listing == Readdir(w, p, rs, MountChildren(m, p));
    ResolutionCounts(w, m, p, rs);
    MountNames(m, p);
    CleanTrees(w, m, p, rs);
    if |rs| == 1 {
      TreePresent(w, rs[0], "");
      assert forall r :: r in ToSet(rs) <==> r == rs[0];
    }
    if IsNode(m, p) && ChildrenAt(m, p) == {} { LeafHasIds(m, p); }
  }

  lemma LeafHasIds(m: MountSet, p: Path)
    requires p != [] && IsNode(m, p)
    ensures ChildrenAt(m, p) != {} || IdsAt(m, p) != {}
  {
    var x :| x in m && p <= x.0;
    if p == x.0 {
      assert x.1 in IdsAt(m, p);
    } else {
      assert x.0[|p|] in ChildrenAt(m, p);
    }
  }

  lemma DirLookup(w: World, m: MountSet, p: Path, answer: Result<(Attr, Option<Resolved>), Errno>)
    requires p != [] && !InConflictForm(Name(p)) && LooksUp(w, m, p, answer)
    ensures answer.Ok? && answer.value.0.isDir <==>
              || IsSynthetic(m, p) || SomeDir(w, Responsible(m, p))
              || (p == ["/"] && Responsible(m, p) == {})
  {
    hide Decode, IsSynthetic, Responsible, MergedDir;
    var rs :| IsResolution(m, p, rs) && answer == Getattr(w, p, None, rs, IsSynthetic(m, p));
    ResolutionCounts(w, m, p, rs);
    FoundMembers(w, rs, true);
    FoundMembers(w, rs, false);
    MergedIsDir(w, rs);
    if |rs| == 1 {
      assert forall r :: r in ToSet(rs) <==> r == rs[0];
    }
    if |Found(w, rs, true)| == 1 { assert Found(w, rs, true)[0] in Found(w, rs, true); }
    if |Found(w, rs, false)| == 1 { assert Found(w, rs, false)[0] in Found(w, rs, false); }
  }

  /** A path can be listed exactly when getattr says it is a directory, unless several storages are mounted there,
      nothing deeper, and none of those responsible has a directory: then getattr invents one that cannot be listed. */
  lemma ListableIffDirectory(w: World, m: MountSet, p: Path,
                             listing: Result<set<string>, Errno>, answer: Result<(Attr, Option<Resolved>), Errno>)
    requires Clean(w, m) && p != [] && !InConflictForm(Name(p))
    requires ListsDir(w, m, p, listing) && LooksUp(w, m, p, answer)
    ensures (listing.Ok? <==> answer.Ok? && answer.value.0.isDir) <==>
            !(ChildrenAt(m, p) == {} && |IdsAt(m, p)| > 1 && !SomeDir(w, Responsible(m, p)))
  {
    hide Clean, ListsDir, LooksUp, SomeDir, InConflictForm;
    DirListing(w, m, p, listing);
    DirLookup(w, m, p, answer);
    if ChildrenAt(m, p) == {} {
      if IsNode(m, p) {
        LeafHasIds(m, p);
        var id :| id in IdsAt(m, p);
        var x :| x in m && x.0 == p && x.1 == id;
        assert Resolved(id, p[|p|..]) in Responsible(m, p);
        assert |IdsAt(m, p)| >= 1;
      } else {
        assert IdsAt(m, p) == {};
      }
    } else {
      var n :| n in ChildrenAt(m, p);
      ChildIsNode(m, p, n);
    }
  }

  // ---- the order of storages is not observable ----

  lemma {:induction false} FoundKeepsOrder(w: World, rs: seq<Resolved>, isDir: bool)
    requires OuterFirst(rs)
    ensures var f := Found(w, rs, isDir);
            forall i, j :: 0 <= i < j < |f| ==> |f[i].1.relpath| >= |f[j].1.relpath|
  {
    if rs != [] {
      FoundKeepsOrder(w, rs[..|rs| - 1], isDir);
      FoundMembers(w, rs[..|rs| - 1], isDir);
      var before := Found(w, rs[..|rs| - 1], isDir);
      forall i | 0 <= i < |before|
        ensures |before[i].1.relpath| >= |rs[|rs| - 1].relpath|
      {
        assert before[i] in before;
        var k :| 0 <= k < |rs| - 1 && rs[..|rs| - 1][k] == before[i].1;
        assert rs[k] == before[i].1;
      }
    }
  }

  lemma {:induction false} FirstIsOutermost(files: seq<Hit>, id: nat, h: Hit)
    requires forall i, j :: 0 <= i < j < |files| ==> |files[i].1.relpath| >= |files[j].1.relpath|
    requires h in files && h.1.ident == id
    ensures FirstWithId(files, id).Some? && |FirstWithId(files, id).value.1.relpath| >= |h.1.relpath|
  {
    if files[0].1.ident != id {
      FirstIsOutermost(files[1..], id, h);
    }
  }

  lemma SameHits(w: World, m: MountSet, q: Path, rs: seq<Resolved>, qs: seq<Resolved>, isDir: bool)
    requires IsResolution(m, q, rs) && IsResolution(m, q, qs)
    ensures var f, g := Found(w, rs, isDir), Found(w, qs, isDir);
            && ToSet(f) == ToSet(g) && |f| == |g| && Distinct(f) && Distinct(g)
  {
    FoundMembers(w, rs, isDir);
    FoundMembers(w, qs, isDir);
    assert forall r :: r in rs <==> r in ToSet(qs);
    assert ToSet(Found(w, rs, isDir)) == ToSet(Found(w, qs, isDir));
    DistinctCount(Found(w, rs, isDir));
    DistinctCount(Found(w, qs, isDir));
  }

  lemma SameSingle<T(!new)>(f: seq<T>, g: seq<T>)
    requires ToSet(f) == ToSet(g) && Distinct(f) && Distinct(g)
    ensures |f| == |g| && (|f| == 1 ==> f == g)
  {
    DistinctCount(f);
    DistinctCount(g);
    if |f| == 1 {
      assert f[0] in ToSet(g);
    }
  }

  lemma SameMergedDir(f: seq<Hit>, g: seq<Hit>)
    requires ToSet(f) == ToSet(g) && Distinct(f) && Distinct(g)
    ensures MergedDir(f) == MergedDir(g)
  {
    WritableMembers(f);
    WritableMembers(g);
    assert forall h :: h in f <==> h in ToSet(g);
    assert ToSet(WritableDirs(f)) == ToSet(WritableDirs(g));
    SameSingle(WritableDirs(f), WritableDirs(g));
  }

  lemma SameFirstWithId(w: World, m: MountSet, q: Path, rs: seq<Resolved>, qs: seq<Resolved>, id: nat)
    requires IsResolution(m, q, rs) && IsResolution(m, q, qs)
    ensures FirstWithId(Found(w, rs, false), id) == FirstWithId(Found(w, qs, false), id)
  {
    var f, g := Found(w, rs, false), Found(w, qs, false);
    SameHits(w, m, q, rs, qs, false);
    FoundKeepsOrder(w, rs, false);
    FoundKeepsOrder(w, qs, false);
    FirstWithIdFinds(f, id);
    FirstWithIdFinds(g, id);
    assert forall h :: h in f <==> h in ToSet(g);
    if FirstWithId(f, id).Some? || FirstWithId(g, id).Some? {
      var h :| h in f && h.1.ident == id;
      FirstIsOutermost(f, id, h);
      FirstIsOutermost(g, id, h);
      var a, b := FirstWithId(f, id).value, FirstWithId(g, id).value;
      FirstIsOutermost(f, id, b);
      FirstIsOutermost(g, id, a);
      FoundMembers(w, rs, false);
      SameDepthSamePath(m, q, a.1, b.1);
    }
  }

  lemma SameDepthSamePath(m: MountSet, q: Path, a: Resolved, b: Resolved)
    requires a in Responsible(m, q) && b in Responsible(m, q)
    requires a.ident == b.ident && |a.relpath| == |b.relpath|
    ensures a == b
  {
    var x :| x in m && x.0 <= q && a == Resolved(x.1, q[|x.0|..]);
    var y :| y in m && y.0 <= q && b == Resolved(y.1, q[|y.0|..]);
    assert |x.0| == |y.0|;
  }

  /** The answer of a lookup is determined by the mounts and the storages: the order in which the tree
      lists storages mounted at one path cannot be observed. */
  lemma LookupIsDetermined(w: World, m: MountSet, p: Path,
                           a: Result<(Attr, Option<Resolved>), Errno>, b: Result<(Attr, Option<Resolved>), Errno>)
    requires LooksUp(w, m, p, a) && LooksUp(w, m, p, b)
    ensures a == b
  {
    if RealPath(p).Ok? {
      var q, id := RealPath(p).value.0, RealPath(p).value.1;
      var rs :| IsResolution(m, q, rs) && a == Getattr(w, p, id, rs, IsSynthetic(m, q));
      var qs :| IsResolution(m, q, qs) && b == Getattr(w, p, id, qs, IsSynthetic(m, q));
      SameHits(w, m, q, rs, qs, true);
      SameHits(w, m, q, rs, qs, false);
      SameMergedDir(Found(w, rs, true), Found(w, qs, true));
      SameSingle(Found(w, rs, true), Found(w, qs, true));
      SameSingle(Found(w, rs, false), Found(w, qs, false));
      SameSingle(rs, qs);
      if id.Some? { SameFirstWithId(w, m, q, rs, qs, id.value); }
    }
  }
}
