/** What readdir lists and getattr finds, said by membership instead of by loops. */
module Listing {
  import opened Prelude
  import opened ConflictNames
  import opened Mounts
  import opened Resolution

  // ---- the storages ----

  /** A path component other than the root. */
  predicate FileName(n: string) { n != "" && n != "." && '/' !in n }

  /** A file name that lookups take literally. */
  predicate PlainName(n: string) { FileName(n) && '\n' !in n && !InConflictForm(n) }

  /** A storage answers like a tree of files and directories; its root may be either, or missing. */
  ghost predicate TreeLike(w: World, id: nat) {
    && (forall rel :: w.readdir(id, rel).Ok? <==> w.getattr(id, rel).Ok? && w.getattr(id, rel).value.isDir)
    && (forall rel :: w.readdir(id, rel).Ok? ==> Distinct(w.readdir(id, rel).value))
    && (forall rel, n :: w.getattr(id, rel + [n]).Ok? <==>
          w.readdir(id, rel).Ok? && n in w.readdir(id, rel).value)
  }

  ghost predicate PlainNamesIn(w: World, id: nat) {
    forall rel, n :: w.readdir(id, rel).Ok? && n in w.readdir(id, rel).value ==> PlainName(n)
  }

  /** A storage that answers a file at every path, as a pseudomanifest does. */
  ghost predicate FlatFile(w: World, id: nat) {
    forall rel :: w.getattr(id, rel).Ok? && !w.getattr(id, rel).value.isDir && w.readdir(id, rel).Err?
  }

  /** The storages there are: trees whose names are not in conflict form, and pseudomanifests. */
  ghost predicate Tame(w: World, id: nat) {
    FlatFile(w, id) || (TreeLike(w, id) && PlainNamesIn(w, id))
  }

  ghost predicate PlainMounts(m: MountSet) {
    forall p, n :: n in ChildrenAt(m, p) ==> PlainName(n) || (p == [] && n == "/")
  }

  /** No name in the storages or on the way to them is in conflict form. */
  ghost predicate Clean(w: World, m: MountSet) {
    PlainMounts(m) && forall x :: x in m ==> Tame(w, x.1)
  }

  // ---- finding ----

  lemma {:induction false} FoundMembers(w: World, rs: seq<Resolved>, isDir: bool)
    ensures forall h :: h in Found(w, rs, isDir) <==> h.1 in rs && Stat(w, h.1) == Some(h.0) && h.0.isDir == isDir
    ensures Distinct(rs) ==> Distinct(Found(w, rs, isDir))
    ensures |Found(w, rs, isDir)| <= |rs|
  {
    if rs != [] {
      var before, r := rs[..|rs| - 1], rs[|rs| - 1];
      FoundMembers(w, before, isDir);
      assert rs == before + [r];
      if Distinct(rs) {
        forall h | h in Found(w, before, isDir) ensures h.1 != r {
          var i :| 0 <= i < |before| && before[i] == h.1;
          assert rs[i] == h.1;
        }
      }
    }
  }

  predicate Present(w: World, r: Resolved) { Stat(w, r).Some? }

  /** The storages that have the path. */
  ghost function Having(w: World, rs: set<Resolved>): set<Resolved> {
    set r | r in rs && Present(w, r)
  }

  ghost predicate SomeDir(w: World, rs: set<Resolved>) { exists r :: r in rs && IsDirAt(w, r) }

  lemma {:induction false} DistinctCount<T(!new)>(s: seq<T>)
    requires Distinct(s)
    ensures |ToSet(s)| == |s|
  {
    hide ToSet;
    if s == [] {
      assert ToSet(s) == {};
    } else {
      var before, last := s[..|s| - 1], s[|s| - 1];
      DistinctCount(before);
      assert s == before + [last];
      assert last !in before;
      assert ToSet(s) == ToSet(before) + {last};
    }
  }

  lemma SomeDirFound(w: World, rs: seq<Resolved>)
    ensures SomeDir(w, ToSet(rs)) <==> Found(w, rs, true) != []
  {
    FoundMembers(w, rs, true);
    var dirs := Found(w, rs, true);
    if dirs != [] {
      assert dirs[0] in dirs;
    }
    if SomeDir(w, ToSet(rs)) {
      var r :| r in rs && IsDirAt(w, r);
      assert (Stat(w, r).value, r) in dirs;
    }
  }

  /** Without directories, the files found are the storages that have the path. */
  lemma FilesFound(w: World, rs: seq<Resolved>)
    requires Distinct(rs) && !SomeDir(w, ToSet(rs))
    ensures |Found(w, rs, false)| == |Having(w, ToSet(rs))|
    ensures forall r :: r in rs && Present(w, r) ==> (Stat(w, r).value, r) in Found(w, rs, false)
  {
    FoundMembers(w, rs, false);
    var files := Found(w, rs, false);
    var ids := seq(|files|, i requires 0 <= i < |files| => files[i].1);
    assert forall i :: 0 <= i < |files| ==> files[i] in files;
    DistinctCount(ids);
    forall r
      ensures r in ids <==> r in Having(w, ToSet(rs))
    {
      if r in Having(w, ToSet(rs)) {
        assert (Stat(w, r).value, r) in files;
        var i :| 0 <= i < |files| && files[i] == (Stat(w, r).value, r);
        assert ids[i] == r;
      }
    }
    assert ToSet(ids) == Having(w, ToSet(rs));
  }

  /** A plain lookup in no synthetic directory succeeds for a directory, or for what only one storage has. */
  lemma PlainLookup(w: World, p: Path, rs: seq<Resolved>)
    requires Distinct(rs) && p != ["/"]
    ensures Getattr(w, p, None, rs, false).Ok? <==> SomeDir(w, ToSet(rs)) || |Having(w, ToSet(rs))| == 1
  {
    SomeDirFound(w, rs);
    if !SomeDir(w, ToSet(rs)) { FilesFound(w, rs); }
    if |rs| == 1 {
      assert rs == [] + [rs[0]];
      assert Found(w, rs[..0], true) == [] && Found(w, rs[..0], false) == [];
      assert rs[0] in ToSet(rs);
    }
  }

  lemma {:induction false} FirstWithIdFinds(files: seq<Hit>, id: nat)
    ensures FirstWithId(files, id).Some? ==> FirstWithId(files, id).value in files && FirstWithId(files, id).value.1.ident == id
    ensures FirstWithId(files, id).None? ==> forall h :: h in files ==> h.1.ident != id
  {
    if files != [] && files[0].1.ident != id {
      FirstWithIdFinds(files[1..], id);
    }
  }

  lemma FoundCount(w: World, rs: seq<Resolved>, isDir: bool)
    ensures |Found(w, rs, isDir)| <= |rs|
  {
  }

  lemma DecoratedCases(w: World, p: Path, id: nat, rs: seq<Resolved>)
    requires p != ["/"]
    ensures var dirs, files := Found(w, rs, true), Found(w, rs, false);
            Getattr(w, p, Some(id), rs, false) ==
            if dirs == [] && |files| > 1 && FirstWithId(files, id).Some?
            then Ok((FirstWithId(files, id).value.0, Some(FirstWithId(files, id).value.1)))
            else Err(ENOENT)
  {
    FoundCount(w, rs, false);
  }

  /** An answer that is a file of storage id. */
  ghost predicate IsFileOf(w: World, id: nat, rs: seq<Resolved>, answer: (Attr, Option<Resolved>)) {
    && answer.1.Some? && answer.1.value in rs && answer.1.value.ident == id
    && Stat(w, answer.1.value) == Some(answer.0) && !answer.0.isDir
  }

  ghost predicate HeldBy(w: World, rs: set<Resolved>, id: nat) {
    exists r :: r in rs && r.ident == id && Present(w, r)
  }

  lemma FileWithId(w: World, rs: seq<Resolved>, id: nat)
    requires Distinct(rs) && !SomeDir(w, ToSet(rs))
    ensures var f := FirstWithId(Found(w, rs, false), id);
            && (f.Some? <==> HeldBy(w, ToSet(rs), id))
            && (f.Some? ==> IsFileOf(w, id, rs, (f.value.0, Some(f.value.1))))
  {
    var files := Found(w, rs, false);
    FirstWithIdFinds(files, id);
    FoundMembers(w, rs, false);
    if HeldBy(w, ToSet(rs), id) {
      var r :| r in ToSet(rs) && r.ident == id && Present(w, r);
      assert (Stat(w, r).value, r) in files;
    } else {
      assert forall h :: h in files ==> h.1 in ToSet(rs);
    }
  }

  /** A lookup with a storage id succeeds when no storage has a directory there, several have a file,
      and one of these is the storage asked for; it then answers with a file of that storage. */
  lemma DecoratedLookup(w: World, p: Path, id: nat, rs: seq<Resolved>)
    requires Distinct(rs) && p != ["/"]
    ensures var g := Getattr(w, p, Some(id), rs, false);
            && (g.Ok? <==> !SomeDir(w, ToSet(rs)) && |Having(w, ToSet(rs))| > 1 && HeldBy(w, ToSet(rs), id))
            && (g.Ok? ==> IsFileOf(w, id, rs, g.value))
  {
    DecoratedCases(w, p, id, rs);
    SomeDirFound(w, rs);
    if !SomeDir(w, ToSet(rs)) {
      FilesFound(w, rs);
      FileWithId(w, rs, id);
    }
  }

  // ---- listing ----

  function HoldersIn(w: World, dirs: seq<Hit>, n: string): seq<Resolved> {
    if dirs == [] then []
    else
      var r := dirs[|dirs| - 1].1;
      HoldersIn(w, dirs[..|dirs| - 1], n) + if n in Names(w, r) then [r] else []
  }

  function HoldersOf(s: Seen, n: string): seq<Resolved> {
    if n in s.holders then s.holders[n] else []
  }

  lemma {:induction false} SeeNamesHolders(s: Seen, names: seq<string>, r: Resolved, n: string)
    requires Distinct(names)
    ensures HoldersOf(SeeNames(s, names, r), n) == HoldersOf(s, n) + if n in names then [r] else []
  {
    if names != [] {
      SeeNamesHolders(s, names[..|names| - 1], r, n);
      assert names == names[..|names| - 1] + [names[|names| - 1]];
    }
  }

  lemma {:induction false} SeeAllHolders(w: World, dirs: seq<Hit>, n: string)
    requires forall h :: h in dirs ==> Distinct(Names(w, h.1))
    ensures HoldersOf(SeeAll(w, dirs), n) == HoldersIn(w, dirs, n)
  {
    if dirs != [] {
      var before, r := dirs[..|dirs| - 1], dirs[|dirs| - 1].1;
      assert dirs == before + [dirs[|dirs| - 1]];
      SeeAllHolders(w, before, n);
      SeeNamesHolders(SeeAll(w, before), Names(w, r), r, n);
    }
  }

  lemma {:induction false} HoldersMembers(w: World, dirs: seq<Hit>, n: string)
    ensures forall r :: r in HoldersIn(w, dirs, n) <==> n in Names(w, r) && exists h :: h in dirs && h.1 == r
    ensures (forall i, j :: 0 <= i < j < |dirs| ==> dirs[i].1 != dirs[j].1) ==> Distinct(HoldersIn(w, dirs, n))
  {
    if dirs != [] {
      var before, last := dirs[..|dirs| - 1], dirs[|dirs| - 1];
      assert dirs == before + [last];
      HoldersMembers(w, before, n);
    }
  }

  /** What one name adds to a merged listing that starts from the mount tree's names. */
  ghost predicate Adds(w: World, holders: seq<Resolved>, start: set<string>, n: string, x: string) {
    if |holders| == 1 && n !in start then x == n else x in AllShown(w, n, holders)
  }

  lemma ShownIsDecorated(w: World, n: string, r: Resolved)
    requires PlainName(n)
    ensures Shown(w, n, r) == n || InConflictForm(Shown(w, n, r))
  {
    PlainNamesRoundTrip(n, r.ident);
  }

  lemma AddsNoOther(w: World, holders: seq<Resolved>, start: set<string>, n: string, k: string)
    requires n != k && k !in AllShown(w, n, holders)
    ensures !Adds(w, holders, start, n, k)
  {
  }

  lemma AddNameIs(w: World, s: Seen, n: string, result: set<string>, start: set<string>, x: string)
    requires n in s.holders && (n in result <==> n in start)
    ensures x in AddName(w, s, n, result) <==> x in result || Adds(w, s.holders[n], start, n, x)
  {
  }

  /** When no name's addition can be mistaken for another name, their order is immaterial. */
  lemma {:induction false} MergeMembers(w: World, s: Seen, order: seq<string>, start: set<string>, x: string)
    requires Distinct(order) && forall n :: n in order ==> n in s.holders
    requires forall n, k :: n in order && k in order && n != k ==> k !in AllShown(w, n, s.holders[n])
    ensures x in MergeNames(w, s, order, start) <==>
              x in start || exists n :: n in order && Adds(w, s.holders[n], start, n, x)
  {
    if order != [] {
      var before, last := order[..|order| - 1], order[|order| - 1];
      assert order == before + [last];
      assert forall n :: n in before ==> n in order;
      hide AllShown, Adds;
      MergeMembers(w, s, before, start, x);
      MergeMembers(w, s, before, start, last);
      forall n | n in before
        ensures !Adds(w, s.holders[n], start, n, last)
      {
        assert n in order && last in order && n != last;
        AddsNoOther(w, s.holders[n], start, n, last);
      }
      assert last in MergeNames(w, s, before, start) <==> last in start;
      AddNameIs(w, s, last, MergeNames(w, s, before, start), start, x);
    }
  }

  /** The storages that answer for n in the directory. */
  ghost function HavingName(w: World, rs: set<Resolved>, n: string): set<Resolved> {
    set r | r in rs && Present(w, Under(r, n))
  }

  /** The storages whose directory lists n. */
  ghost function Holding(w: World, rs: set<Resolved>, n: string): set<Resolved> {
    set r | r in rs && Holds(w, r, n)
  }

  ghost predicate Holds(w: World, r: Resolved, n: string) { IsDirAt(w, r) && n in Names(w, r) }

  /** The storages that have a file there whatever the path. */
  ghost function Flat(w: World, rs: set<Resolved>): set<Resolved> {
    set r | r in rs && FlatFile(w, r.ident)
  }

  ghost predicate SomeDirNamed(w: World, rs: set<Resolved>, n: string) {
    exists r :: r in rs && IsDirAt(w, Under(r, n))
  }

  ghost function Dirs(w: World, rs: set<Resolved>): set<Resolved> {
    set r | r in rs && IsDirAt(w, r)
  }

  /** The file n of storage r clashes with something: a file of the same name, or, when several
      storages are merged, a mount of that name. */
  ghost predicate Clashes(w: World, rs: set<Resolved>, c: set<string>, n: string, r: Resolved) {
    && r in rs && Holds(w, r, n) && !IsDirAt(w, Under(r, n))
    && (|Holding(w, rs, n)| > 1 || (n in c && |Dirs(w, rs)| > 1))
  }

  /** The listing, by membership: names of mounts, directories of any storage, what only one storage has,
      and the renamed files. */
  ghost predicate Lists(w: World, rs: set<Resolved>, c: set<string>, x: string) {
    || x in c
    || SomeDirNamed(w, rs, x)
    || |Holding(w, rs, x)| == 1
    || exists n, r :: Clashes(w, rs, c, n, r) && x == Decorate(n, r.ident)
  }

  lemma TreePresent(w: World, r: Resolved, n: string)
    requires Tame(w, r.ident)
    ensures Present(w, Under(r, n)) <==> Holds(w, r, n) || FlatFile(w, r.ident)
    ensures FlatFile(w, r.ident) ==> !IsDirAt(w, r) && !IsDirAt(w, Under(r, n))
    ensures IsDirAt(w, r) <==> w.readdir(r.ident, r.relpath).Ok?
    ensures Distinct(Names(w, r))
  {
    if TreeLike(w, r.ident) {
      assert w.getattr(r.ident, r.relpath + [n]).Ok? <==>
             w.readdir(r.ident, r.relpath).Ok? && n in w.readdir(r.ident, r.relpath).value;
    }
  }

  ghost predicate AllTame(w: World, rs: seq<Resolved>) {
    forall r :: r in rs ==> Tame(w, r.ident)
  }

  /** Nothing is a directory without being listed where it is. */
  ghost predicate DirsAreHeld(w: World, rs: set<Resolved>) {
    forall r, n :: r in rs && IsDirAt(w, Under(r, n)) ==> Holds(w, r, n)
  }

  lemma TameDirsAreHeld(w: World, rs: seq<Resolved>)
    requires AllTame(w, rs)
    ensures DirsAreHeld(w, ToSet(rs))
  {
    hide Tame, Holds;
    forall r, n | r in ToSet(rs) && IsDirAt(w, Under(r, n))
      ensures Holds(w, r, n)
    {
      TreePresent(w, r, n);
    }
  }

  /** A held name, as some storage shows it, is no other held name. */
  ghost predicate NamesApart(w: World, rs: set<Resolved>) {
    forall n, k, r :: r in Holding(w, rs, n) && Holding(w, rs, k) != {} && n != k ==> Shown(w, n, r) != k
  }

  /** What listings ask of the storages: no name is listed twice in a directory, a directory is what can be listed, and is
      listed itself, and no renamed file is mistaken for another name. */
  ghost predicate Orderly(w: World, rs: seq<Resolved>) {
    && (forall r :: r in rs ==> Distinct(Names(w, r)) && (IsDirAt(w, r) <==> w.readdir(r.ident, r.relpath).Ok?))
    && DirsAreHeld(w, ToSet(rs)) && NamesApart(w, ToSet(rs))
  }

  lemma TameIsOrderly(w: World, rs: seq<Resolved>)
    requires AllTame(w, rs) && Distinct(rs)
    ensures Orderly(w, rs)
  {
    hide Tame, Holds, InConflictForm;
    TameDirsAreHeld(w, rs);
    forall r | r in rs
      ensures Distinct(Names(w, r)) && (IsDirAt(w, r) <==> w.readdir(r.ident, r.relpath).Ok?)
    {
      TreePresent(w, r, "");
    }
    forall n, k, r | r in Holding(w, ToSet(rs), n) && Holding(w, ToSet(rs), k) != {} && n != k
      ensures Shown(w, n, r) != k
    {
      HeldNamesArePlain(w, rs, n);
      HeldNamesArePlain(w, rs, k);
      ShownIsDecorated(w, n, r);
    }
  }

  lemma DirsFound(w: World, rs: seq<Resolved>)
    requires Distinct(rs)
    ensures |Found(w, rs, true)| == |Dirs(w, ToSet(rs))|
    ensures forall r :: r in rs && IsDirAt(w, r) <==> exists h :: h in Found(w, rs, true) && h.1 == r
  {
    FoundMembers(w, rs, true);
    var dirs := Found(w, rs, true);
    var ids := seq(|dirs|, i requires 0 <= i < |dirs| => dirs[i].1);
    assert forall i :: 0 <= i < |dirs| ==> dirs[i] in dirs;
    DistinctCount(ids);
    forall r
      ensures r in ids <==> r in Dirs(w, ToSet(rs))
      ensures r in ids <==> exists h :: h in dirs && h.1 == r
    {
      if r in Dirs(w, ToSet(rs)) {
        assert (Stat(w, r).value, r) in dirs;
      }
      if h :| h in dirs && h.1 == r {
        var i :| 0 <= i < |dirs| && dirs[i] == h;
        assert ids[i] == r;
      }
    }
    assert ToSet(ids) == Dirs(w, ToSet(rs));
  }

  /** The holders gathered for a name are the storages that have it. */
  lemma Holders(w: World, rs: seq<Resolved>, n: string)
    requires Distinct(rs) && forall r :: r in rs ==> Distinct(Names(w, r))
    ensures var h := HoldersOf(SeeAll(w, Found(w, rs, true)), n);
            ToSet(h) == Holding(w, ToSet(rs), n) && |h| == |Holding(w, ToSet(rs), n)|
  {
    var dirs := Found(w, rs, true);
    FoundMembers(w, rs, true);
    DirsFound(w, rs);
    SeeAllHolders(w, dirs, n);
    HoldersMembers(w, dirs, n);
    forall i, j | 0 <= i < j < |dirs|
      ensures dirs[i].1 != dirs[j].1
    {
      assert dirs[i] in dirs && dirs[j] in dirs;
    }
    DistinctCount(HoldersIn(w, dirs, n));
    assert ToSet(HoldersIn(w, dirs, n)) == Holding(w, ToSet(rs), n);
  }

  lemma HeldNamesArePlain(w: World, rs: seq<Resolved>, n: string)
    requires AllTame(w, rs) && Distinct(rs) && Holding(w, ToSet(rs), n) != {}
    ensures PlainName(n)
  {
    var r :| r in Holding(w, ToSet(rs), n);
    TreePresent(w, r, n);
  }

  lemma HoldersAreDirs(w: World, rs: seq<Resolved>, n: string)
    ensures Holding(w, ToSet(rs), n) <= Dirs(w, ToSet(rs))
  {
  }

  /** What the name n adds is what Lists asks of n. */
  lemma AddsIsLists(w: World, rs: set<Resolved>, c: set<string>, n: string, h: seq<Resolved>, x: string)
    requires ToSet(h) == Holding(w, rs, n) && |h| == |Holding(w, rs, n)| && h != []
    requires |Dirs(w, rs)| > 1 && x !in c
    requires DirsAreHeld(w, rs)
    ensures Adds(w, h, c, n, x) <==>
              || (x == n && (SomeDirNamed(w, rs, n) || |Holding(w, rs, n)| == 1))
              || exists r :: Clashes(w, rs, c, n, r) && x == Decorate(n, r.ident)
  {
    if |h| == 1 && n !in c {
      assert forall r :: !Clashes(w, rs, c, n, r);
      if SomeDirNamed(w, rs, n) {
      }
    } else {
      assert forall r :: r in h <==> r in Holding(w, rs, n);
      assert forall r :: Clashes(w, rs, c, n, r) <==> r in h && !IsDirAt(w, Under(r, n));
      assert x in AllShown(w, n, h) <==> exists r :: r in h && x == Shown(w, n, r);
      assert SomeDirNamed(w, rs, n) <==> exists r :: r in h && IsDirAt(w, Under(r, n));
      if |h| == 1 { assert n in c; }
    }
  }

  /** Several directories merged, or none: the loop lists what Lists says. */
  lemma MergeLists(w: World, rs: seq<Resolved>, c: set<string>, x: string)
    requires Distinct(rs) && Orderly(w, rs) && |Found(w, rs, true)| > 1
    ensures x in Merge(w, Found(w, rs, true), c) <==> Lists(w, ToSet(rs), c, x)
  {
    hide SeeAll, Found, Adds, Holds, IsDirAt, DirsAreHeld, Shown;
    var s := SeeAll(w, Found(w, rs, true));
    SeeAllOk(w, Found(w, rs, true));
    DirsFound(w, rs);
    forall n
      ensures n in s.order <==> Holding(w, ToSet(rs), n) != {}
      ensures n in s.order ==> n in s.holders && ToSet(s.holders[n]) == Holding(w, ToSet(rs), n)
    {
      Holders(w, rs, n);
      assert n in s.order <==> n in ToSet(s.order);
    }
    forall n, k | n in s.order && k in s.order && n != k
      ensures k !in AllShown(w, n, s.holders[n])
    {
      assert forall r :: r in s.holders[n] ==> r in ToSet(s.holders[n]);
    }
    MergeMembers(w, s, s.order, c, x);
    if x !in c {
      forall n | n in s.order
        ensures Adds(w, s.holders[n], c, n, x) <==> ListedAs(w, ToSet(rs), c, n, x)
      {
        Holders(w, rs, n);
        AddsIsLists(w, ToSet(rs), c, n, s.holders[n], x);
      }
      ListsByName(w, ToSet(rs), c, x);
    }
  }

  /** x is listed on account of the name n. */
  ghost predicate ListedAs(w: World, rs: set<Resolved>, c: set<string>, n: string, x: string) {
    || (x == n && (SomeDirNamed(w, rs, n) || |Holding(w, rs, n)| == 1))
    || exists r :: Clashes(w, rs, c, n, r) && x == Decorate(n, r.ident)
  }

  lemma ListsByName(w: World, rs: set<Resolved>, c: set<string>, x: string)
    requires x !in c && DirsAreHeld(w, rs)
    ensures Lists(w, rs, c, x) <==> exists n :: Holding(w, rs, n) != {} && ListedAs(w, rs, c, n, x)
  {
    if Lists(w, rs, c, x) {
      if SomeDirNamed(w, rs, x) {
        var r :| r in rs && IsDirAt(w, Under(r, x));
        assert r in Holding(w, rs, x) && ListedAs(w, rs, c, x, x);
      } else if |Holding(w, rs, x)| == 1 {
        assert Holding(w, rs, x) != {} && ListedAs(w, rs, c, x, x);
      } else {
        var n, r :| Clashes(w, rs, c, n, r) && x == Decorate(n, r.ident);
        assert r in Holding(w, rs, n) && ListedAs(w, rs, c, n, x);
      }
    }
  }

  lemma OneDirLists(w: World, rs: seq<Resolved>, c: set<string>, x: string)
    requires Distinct(rs) && Orderly(w, rs) && |Found(w, rs, true)| <= 1
    ensures Lists(w, ToSet(rs), c, x) <==> x in c || exists r :: r in rs && IsDirAt(w, r) && x in Names(w, r)
  {
    DirsFound(w, rs);
    forall n
      ensures Holding(w, ToSet(rs), n) <= Dirs(w, ToSet(rs)) && |Holding(w, ToSet(rs), n)| <= 1
    {
      HoldersAreDirs(w, rs, n);
      SubsetCount(Holding(w, ToSet(rs), n), Dirs(w, ToSet(rs)));
    }
    assert forall r :: r in Holding(w, ToSet(rs), x) <==> r in rs && IsDirAt(w, r) && x in Names(w, r);
    if r :| r in rs && IsDirAt(w, r) && x in Names(w, r) {
      assert r in Holding(w, ToSet(rs), x);
    } else {
      assert Holding(w, ToSet(rs), x) == {};
      assert !SomeDirNamed(w, ToSet(rs), x);
    }
  }

  lemma {:induction false} SubsetCount<T>(a: set<T>, b: set<T>)
    requires a <= b
    ensures |a| <= |b|
  {
    if x :| x in a { SubsetCount(a - {x}, b - {x}); }
  }

  /** The names a call lists; none when it fails. */
  function ListedBy(r: Result<set<string>, Errno>): set<string> {
    if r.Ok? then r.value else {}
  }

  function NamesOf(children: Option<set<string>>): set<string> {
    if children.Some? then children.value else {}
  }

  /** readdir lists exactly the names that Lists describes, in whatever order the storages come. */
  lemma ReaddirLists(w: World, p: Path, rs: seq<Resolved>, children: Option<set<string>>, x: string)
    requires Distinct(rs) && Orderly(w, rs)
    ensures x in ListedBy(Readdir(w, p, rs, children)) <==> Lists(w, ToSet(rs), NamesOf(children), x)
  {
    FoundMembers(w, rs, true);
    var dirs := Found(w, rs, true);
    if |dirs| > 1 {
      MergeLists(w, rs, NamesOf(children), x);
    } else {
      OneDirLists(w, rs, NamesOf(children), x);
      DirsFound(w, rs);
      if |dirs| == 1 { assert dirs[0] in dirs; }
      if |rs| == 1 { assert rs[0] in rs; }
    }
  }
}
