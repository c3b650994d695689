/** Creating a file through the merged view: where it goes, and that it is found there again. */
module FileCreation {
  import opened Prelude
  import opened ConflictNames
  import opened Mounts
  import opened Resolution
  import opened Listing
  import opened Agreement

  /** The answers of the storages with nothing in a read-only storage writable. */
  function Masked(w: World, readOnly: set<nat>): World {
    World(
      (id: nat, rel: Path) =>
        match w.getattr(id, rel)
        case Ok(a) => Ok(if id in readOnly then a.(writable := false) else a)
        case Err(e) => Err(e),
      w.readdir)
  }

  /** The storages after one of them has made a file. */
  function WithFile(w: World, dir: Resolved, name: string): World {
    World(
      (id: nat, rel: Path) =>
        if id == dir.ident && rel == dir.relpath + [name] then Ok(Attr(false, true)) else w.getattr(id, rel),
      (id: nat, rel: Path) =>
        if id == dir.ident && rel == dir.relpath then
          match w.readdir(id, rel)
          case Ok(names) => Ok(names + [name])
          case Err(e) => Err(e)
        else if id == dir.ident && rel == dir.relpath + [name] then Err(ENOTDIR)
        else w.readdir(id, rel))
  }

  datatype CreateError = IO(errno: Errno) | AssertionFailed | Unavailable

  /** What becomes of the call on a storage: it cannot be mounted, does not offer create, fails, or makes the file. */
  datatype Backing = NotMounted | NoCreate | Refuses | Makes

  /** Where create puts a file, given how its parent directory was resolved. An error other than EACCES breaks an
      assertion of the proxy. */
  function Target(answer: Result<(Attr, Option<Resolved>), Errno>, readOnly: set<nat>, backing: nat -> Backing)
    : Result<Resolved, CreateError>
  {
    match answer
    case Err(e) => Err(if e == EACCES then IO(EROFS) else if e == InvalidName then IO(e) else AssertionFailed)
    case Ok((_, None)) => Err(IO(EROFS))
    case Ok((_, Some(dir))) =>
      var b := backing(dir.ident);
      if b == NotMounted then Err(Unavailable)
      else if b == NoCreate then Err(IO(ENOSYS))
      else if dir.ident in readOnly then Err(IO(EROFS))
      else if b == Refuses then Err(IO(EIO(0)))
      else Ok(dir)
  }

  /** What create of name in directory p may answer, and the storages afterwards. */
  ghost predicate Creates(w: World, readOnly: set<nat>, m: MountSet, p: Path, name: string, backing: nat -> Backing,
                          r: Result<Resolved, CreateError>, after: World)
  {
    exists answer ::
      && LooksUp(Masked(w, readOnly), m, p, answer)
      && r == Target(answer, readOnly, backing)
      && after == if r.Ok? then WithFile(w, r.value, name) else w
  }

  lemma HitIsResponsible(w: World, rs: seq<Resolved>, isDir: bool, h: Hit)
    requires h in Found(w, rs, isDir)
    ensures h.1 in rs
  {
    FoundMembers(w, rs, isDir);
  }

  lemma MergedIsResponsible(w: World, rs: seq<Resolved>)
    ensures var d := MergedDir(Found(w, rs, true)); d.1.Some? ==> d.1.value in rs
  {
    var ds := WritableDirs(Found(w, rs, true));
    if |ds| == 1 {
      WritableMembers(Found(w, rs, true));
      assert ds[0] in ds;
      HitIsResponsible(w, rs, true, ds[0]);
    }
  }

  lemma AnswerIsResponsible(w: World, p: Path, id: Option<nat>, rs: seq<Resolved>, synthetic: bool)
    ensures var g := Getattr(w, p, id, rs, synthetic);
            g.Ok? && g.value.1.Some? ==> g.value.1.value in rs
  {
    hide Found, MergedDir, FirstWithId;
    var dirs, files := Found(w, rs, true), Found(w, rs, false);
    MergedIsResponsible(w, rs);
    if |dirs| == 1 { HitIsResponsible(w, rs, true, dirs[0]); }
    if |files| == 1 { HitIsResponsible(w, rs, false, files[0]); }
    if id.Some? {
      FirstWithIdFinds(files, id.value);
      if FirstWithId(files, id.value).Some? {
        HitIsResponsible(w, rs, false, FirstWithId(files, id.value).value);
      }
    }
  }

  /** Nobody else has the name: the directory chosen is the only storage with the new file. */
  lemma OnlyNewFile(w: World, rs: set<Resolved>, dir: Resolved, n: string, readOnly: set<nat>)
    requires dir in rs && HavingName(Masked(w, readOnly), rs, n) == {}
    ensures forall q :: q in Inside(rs, n) ==>
              (Present(Masked(WithFile(w, dir, n), readOnly), q) <==> q == Under(dir, n))
    ensures Under(dir, n) in Inside(rs, n)
  {
    forall q | q in Inside(rs, n) && q != Under(dir, n)
      ensures !Present(Masked(WithFile(w, dir, n), readOnly), q)
    {
      var r :| r in rs && q == Under(r, n);
      assert r !in HavingName(Masked(w, readOnly), rs, n);
    }
  }

  lemma FoundOnly(w: World, p: Path, rs: seq<Resolved>, u: Resolved)
    requires Distinct(rs) && u in rs && (forall q :: q in rs ==> (Present(w, q) <==> q == u))
    requires !IsDirAt(w, u) && p != ["/"]
    ensures Present(w, u) && Getattr(w, p, None, rs, false) == Ok((Stat(w, u).value, Some(u)))
  {
    assert !SomeDir(w, ToSet(rs));
    SomeDirFound(w, rs);
    FilesFound(w, rs);
    assert Having(w, ToSet(rs)) == {u};
    assert (Stat(w, u).value, u) in Found(w, rs, false);
    if |rs| == 1 { assert rs[0] == u; }
  }

  /** A file created under a name nothing else has, mounts included, is what a lookup then finds, in the
      very directory create chose, exactly when neither the name nor that of its directory is in conflict form. */
  lemma CreateThenStat(w: World, readOnly: set<nat>, m: MountSet, p: Path, n: string, backing: nat -> Backing,
                       r: Result<Resolved, CreateError>, after: World,
                       answer: Result<(Attr, Option<Resolved>), Errno>)
    requires FileName(n) && PlainMounts(m)
    requires n !in ChildrenAt(m, p) && HavingName(Masked(w, readOnly), Responsible(m, p), n) == {}
    requires Creates(w, readOnly, m, p, n, backing, r, after) && r.Ok?
    requires LooksUp(Masked(after, readOnly), m, p + [n], answer)
    ensures answer == Ok((Attr(false, true), Some(Under(r.value, n)))) <==>
            !InConflictForm(n) && !InConflictForm(Name(p))
  {
    hide PlainMounts, Getattr, PlainName;
    NameOfChild(p, n);
    if InConflictForm(n) {
      RenamedIsElsewhere(Masked(after, readOnly), m, p, n, answer, r.value);
    } else if InConflictForm(Name(p)) {
      CreatedElsewhere(w, readOnly, m, p, n, backing, r, after, answer);
    } else {
      CreatedIsFound(w, readOnly, m, p, n, backing, r, after, answer);
    }
  }

  lemma CreatedIsFound(w: World, readOnly: set<nat>, m: MountSet, p: Path, n: string, backing: nat -> Backing,
                       r: Result<Resolved, CreateError>, after: World,
                       answer: Result<(Attr, Option<Resolved>), Errno>)
    requires FileName(n) && !InConflictForm(Name(p)) && !InConflictForm(n)
    requires n !in ChildrenAt(m, p) && HavingName(Masked(w, readOnly), Responsible(m, p), n) == {}
    requires Creates(w, readOnly, m, p, n, backing, r, after) && r.Ok?
    requires LooksUp(Masked(after, readOnly), m, p + [n], answer)
    ensures answer == Ok((Attr(false, true), Some(Under(r.value, n))))
  {
    hide Masked, WithFile, Getattr, IsDirAt, Present, HavingName;
    var dir := r.value;
    var v := Masked(after, readOnly);
    ChosenIsResponsible(w, readOnly, m, p, n, backing, r, after);
    NameOfChild(p, n);
    var qs :| IsResolution(m, p + [n], qs) && answer == Getattr(v, p + [n], None, qs, IsSynthetic(m, p + [n]));
    ChildIsNode(m, p, n);
    DeeperResponsible(m, p, n);
    assert ToSet(qs) == Inside(Responsible(m, p), n);
    OnlyNewFile(w, Responsible(m, p), dir, n, readOnly);
    forall q | q in qs ensures Present(v, q) <==> q == Under(dir, n) {
      assert q in ToSet(qs);
    }
    assert Under(dir, n) in ToSet(qs);
    NewFileStat(w, dir, n, readOnly);
    FoundOnly(v, p + [n], qs, Under(dir, n));
  }

  lemma NewFileStat(w: World, dir: Resolved, n: string, readOnly: set<nat>)
    requires dir.ident !in readOnly
    ensures var v := Masked(WithFile(w, dir, n), readOnly);
            Stat(v, Under(dir, n)) == Some(Attr(false, true)) && !IsDirAt(v, Under(dir, n))
  {
  }

  lemma ChosenIsResponsible(w: World, readOnly: set<nat>, m: MountSet, p: Path, n: string, backing: nat -> Backing,
                            r: Result<Resolved, CreateError>, after: World)
    requires !InConflictForm(Name(p)) && Creates(w, readOnly, m, p, n, backing, r, after) && r.Ok?
    ensures r.value in Responsible(m, p) && after == WithFile(w, r.value, n) && r.value.ident !in readOnly
  {
    hide Masked, WithFile, Getattr, Responsible;
    var v := Masked(w, readOnly);
    var up :| LooksUp(v, m, p, up) && r == Target(up, readOnly, backing) && after == WithFile(w, r.value, n);
    var ps :| IsResolution(m, p, ps) && up == Getattr(v, p, None, ps, IsSynthetic(m, p));
    AnswerIsResponsible(v, p, None, ps, IsSynthetic(m, p));
    assert r.value in ToSet(ps);
  }

  /** A directory named in conflict form is resolved as the directory of another name: the file is made there, and
      not found here. */
  lemma CreatedElsewhere(w: World, readOnly: set<nat>, m: MountSet, p: Path, n: string, backing: nat -> Backing,
                         r: Result<Resolved, CreateError>, after: World,
                         answer: Result<(Attr, Option<Resolved>), Errno>)
    requires FileName(n) && PlainMounts(m) && InConflictForm(Name(p)) && !InConflictForm(n)
    requires Creates(w, readOnly, m, p, n, backing, r, after) && r.Ok?
    requires LooksUp(Masked(after, readOnly), m, p + [n], answer)
    ensures answer.Ok? ==> answer.value.1 != Some(Under(r.value, n))
  {
    hide Getattr, Decode, Masked, WithFile, PlainName;
    var v, v', dir := Masked(w, readOnly), Masked(after, readOnly), r.value;
    var up :| LooksUp(v, m, p, up) && r == Target(up, readOnly, backing);
    var (k, id) := Decode(Name(p)).value;
    DecodedIsShorter(Name(p));
    NamedIsLast(p);
    var q := p[..|p| - 1] + [k];
    var ps :| IsResolution(m, q, ps) && up == Getattr(v, p, Some(id), ps, IsSynthetic(m, q));
    AnswerIsResponsible(v, p, Some(id), ps, IsSynthetic(m, q));
    assert dir in Responsible(m, q) by { assert dir in ToSet(ps); }
    if answer.Ok? && answer.value.1.Some? {
      NameOfChild(p, n);
      var qs :| IsResolution(m, p + [n], qs) && answer == Getattr(v', p + [n], None, qs, IsSynthetic(m, p + [n]));
      AnswerIsResponsible(v', p + [n], None, qs, IsSynthetic(m, p + [n]));
      var u := answer.value.1.value;
      assert u in Responsible(m, p + [n]) by { assert u in ToSet(qs); }
      if u == Under(dir, n) { NotBothResponsible(m, p, k, n, dir); }
    }
  }

  lemma NamedIsLast(p: Path)
    ensures InConflictForm(Name(p)) ==> p != [] && Name(p) == p[|p| - 1]
  {
    EmptyIsPlain();
  }

  lemma EmptyIsPlain()
    ensures !InConflictForm("")
  {
  }

  /** A directory cannot be responsible for p under one name of it and for what is in p under another. */
  lemma NotBothResponsible(m: MountSet, p: Path, k: string, n: string, dir: Resolved)
    requires PlainMounts(m) && p != [] && InConflictForm(p[|p| - 1]) && k != p[|p| - 1]
    requires dir in Responsible(m, p[..|p| - 1] + [k])
    ensures Under(dir, n) !in Responsible(m, p + [n])
  {
    hide InConflictForm, FileName, PlainMounts, ChildrenAt;
    var last, q, pn := p[|p| - 1], p[..|p| - 1] + [k], p + [n];
    if Under(dir, n) in Responsible(m, pn) {
      var x :| x in m && x.0 <= pn && Under(dir, n) == Resolved(x.1, pn[|x.0|..]);
      var y :| y in m && y.0 <= q && dir == Resolved(y.1, q[|y.0|..]);
      RestBefore(p, n, |x.0|, dir.relpath);
      LastOfRest(p, |x.0|);
      LastOfRest(q, |y.0|);
      assert q[|q| - 1] == k && dir.relpath == [];
      assert x.0 == p;
      IsChild(m, p, x.1);
      MountNameIsPlain(m, p[..|p| - 1], last);
    }
  }

  lemma RestBefore(p: Path, n: string, i: nat, rest: Path)
    requires i <= |p| + 1 && (p + [n])[i..] == rest + [n]
    ensures i <= |p| && p[i..] == rest
  {
    assert |rest + [n]| > 0 && i <= |p|;
    assert (p + [n])[i..] == p[i..] + [n];
    assert (p[i..] + [n])[..|p| - i] == p[i..] && (rest + [n])[..|rest|] == rest;
  }

  lemma IsChild(m: MountSet, p: Path, id: nat)
    requires p != [] && (p, id) in m
    ensures p[|p| - 1] in ChildrenAt(m, p[..|p| - 1])
  {
    assert p[..|p| - 1] < p;
  }

  lemma LastOfRest(p: Path, i: nat)
    requires i <= |p|
    ensures p[i..] != [] ==> p[i..][|p[i..]| - 1] == p[|p| - 1]
  {
  }

  lemma MountNameIsPlain(m: MountSet, p: Path, name: string)
    requires PlainMounts(m) && name in ChildrenAt(m, p)
    ensures !InConflictForm(name)
  {
    RootIsPlain();
    assert PlainName(name) || name == "/";
  }

  lemma RootIsPlain()
    ensures !InConflictForm("/")
  {
    var s := "/";
    assert Body(s) == s;
    assert forall i :: !MarkAt(s, i);
  }

  /** A lookup of a name in conflict form goes to another path. */
  lemma RenamedIsElsewhere(w: World, m: MountSet, p: Path, n: string,
                           answer: Result<(Attr, Option<Resolved>), Errno>, dir: Resolved)
    requires FileName(n) && InConflictForm(n) && LooksUp(w, m, p + [n], answer)
    ensures answer.Ok? ==> answer.value.1 != Some(Under(dir, n))
  {
    NameOfChild(p, n);
    if answer.Ok? && answer.value.1.Some? {
      var (k, id) := Decode(n).value;
      DecodedIsShorter(n);
      assert (p + [n])[..|p|] == p;
      var qs :| IsResolution(m, p + [k], qs) && answer == Getattr(w, p + [n], Some(id), qs, IsSynthetic(m, p + [k]));
      AnswerIsResponsible(w, p + [n], Some(id), qs, IsSynthetic(m, p + [k]));
      var u := answer.value.1.value;
      assert u in ToSet(qs);
      var x :| x in m && x.0 <= p + [k] && u == Resolved(x.1, (p + [k])[|x.0|..]);
      if u.relpath != [] {
        assert u.relpath[|u.relpath| - 1] == k;
        assert Under(dir, n).relpath[|Under(dir, n).relpath| - 1] == n;
      }
    }
  }

  lemma DecodedIsShorter(n: string)
    requires Decode(n).Some?
    ensures |Decode(n).value.0| < |n|
  {
    var b := Body(n);
    var i := LastMark(b, |b|).value;
    var e := DigitsEnd(b, i + 4);
    assert |b[..i] + b[e..]| == |b| - (e - i);
  }

  /** The merged view of several directories is the one that can be written, when there is exactly one. */
  lemma MergedDirIs(w: World, rs: seq<Resolved>)
    requires Distinct(rs)
    ensures var ds, merged := WritableIn(w, ToSet(rs)), MergedDir(Found(w, rs, true));
            && (forall d :: ds == {d} ==> Stat(w, d).Some? && merged == (Stat(w, d).value, Some(d)))
            && (|ds| != 1 ==> merged == (SYNTHETIC, None))
  {
    hide Found, WritableDirs;
    WritableCount(w, rs);
    FoundMembers(w, rs, true);
    WritableMembers(Found(w, rs, true));
    var hits := WritableDirs(Found(w, rs, true));
    forall d | WritableIn(w, ToSet(rs)) == {d}
      ensures |hits| == 1 && Stat(w, d).Some? && hits[0] == (Stat(w, d).value, d)
    {
      assert d in WritableIn(w, ToSet(rs));
      assert (Stat(w, d).value, d) in hits;
    }
  }

  /** A path looked up as the merged view of directories: something is mounted deeper, or several are there. */
  ghost predicate IsMerged(w: World, m: MountSet, p: Path) {
    && RealPath(p).Ok?
    && var (q, id) := RealPath(p).value;
       IsSynthetic(m, q) || (id.None? && |Dirs(w, Responsible(m, q))| > 1)
  }

  /** The parts of the merged view that can be written. */
  ghost function WritableParts(w: World, m: MountSet, p: Path): set<Resolved>
    requires RealPath(p).Ok?
  {
    WritableIn(w, Responsible(m, RealPath(p).value.0))
  }

  /** A merged directory is answered with the single part that can be written, or with none. */
  lemma MergedLookup(w: World, m: MountSet, p: Path, answer: Result<(Attr, Option<Resolved>), Errno>)
    requires IsMerged(w, m, p) && LooksUp(w, m, p, answer)
    ensures var ds := WritableParts(w, m, p);
            && (forall d :: ds == {d} ==> Stat(w, d).Some? && answer == Ok((Stat(w, d).value, Some(d))))
            && (|ds| != 1 ==> answer == Ok((SYNTHETIC, None)))
  {
    hide RealPath, IsSynthetic, WritableIn, Dirs, MergedDir;
    var (q, id) := RealPath(p).value;
    var ps :| IsResolution(m, q, ps) && answer == Getattr(w, p, id, ps, IsSynthetic(m, q));
    DirsFound(w, ps);
    FoundMembers(w, ps, true);
    MergedDirIs(w, ps);
  }

  /** create in a merged directory, under whatever name it is given, makes the file exactly when one part can be written
      and its storage makes it. The file is then in that part, and nothing else has changed. */
  lemma MergedCreate(w: World, readOnly: set<nat>, m: MountSet, p: Path, n: string, backing: nat -> Backing,
                     r: Result<Resolved, CreateError>, after: World)
    requires IsMerged(Masked(w, readOnly), m, p) && Creates(w, readOnly, m, p, n, backing, r, after)
    ensures var ds := WritableParts(Masked(w, readOnly), m, p);
            && (forall d :: r == Ok(d) <==> ds == {d} && backing(d.ident) == Makes)
            && (r.Err? ==> after == w)
            && (|ds| != 1 ==> r == Err(IO(EROFS)))
            && (forall d :: ds == {d} ==>
                  && (backing(d.ident) == NotMounted ==> r == Err(Unavailable))
                  && (backing(d.ident) == NoCreate ==> r == Err(IO(ENOSYS)))
                  && (backing(d.ident) == Refuses ==> r == Err(IO(EIO(0)))))
    ensures r.Ok? ==> OnlyMade(w, after, r.value, n)
  {
    hide Masked, WithFile, RealPath, IsSynthetic, WritableIn, Dirs, LooksUp, OnlyMade;
    var v := Masked(w, readOnly);
    var up :| LooksUp(v, m, p, up) && r == Target(up, readOnly, backing) && after == if r.Ok? then WithFile(w, r.value, n) else w;
    MergedLookup(v, m, p, up);
    var ds := WritableParts(v, m, p);
    if |ds| == 1 {
      var d :| d in ds;
      OneElement(ds, d);
      PartIsNotReadOnly(w, readOnly, m, p, d);
    }
    if r.Ok? { MadeOnly(w, r.value, n); }
  }

  lemma OneElement<T>(s: set<T>, x: T)
    requires |s| == 1 && x in s
    ensures s == {x}
  {
    assert |s - {x}| == 0;
  }

  lemma PartIsNotReadOnly(w: World, readOnly: set<nat>, m: MountSet, p: Path, d: Resolved)
    requires RealPath(p).Ok? && d in WritableParts(Masked(w, readOnly), m, p)
    ensures d.ident !in readOnly
  {
  }

  /** One storage has one file more, and every other answer is as before. */
  ghost predicate OnlyMade(w: World, after: World, dir: Resolved, n: string) {
    && after.getattr(dir.ident, dir.relpath + [n]) == Ok(Attr(false, true))
    && (w.readdir(dir.ident, dir.relpath).Ok? ==>
          after.readdir(dir.ident, dir.relpath) == Ok(w.readdir(dir.ident, dir.relpath).value + [n]))
    && (forall id, rel :: id != dir.ident || rel != dir.relpath + [n] ==> after.getattr(id, rel) == w.getattr(id, rel))
    && (forall id, rel :: id != dir.ident || (rel != dir.relpath && rel != dir.relpath + [n]) ==>
          after.readdir(id, rel) == w.readdir(id, rel))
  }

  lemma MadeOnly(w: World, dir: Resolved, n: string)
    ensures OnlyMade(w, WithFile(w, dir, n), dir, n)
  {
    assert |dir.relpath + [n]| != |dir.relpath|;
  }

  ghost function WritableIn(w: World, rs: set<Resolved>): set<Resolved> {
    set r | r in rs && IsDirAt(w, r) && Stat(w, r).value.writable
  }

  lemma WritableCount(w: World, rs: seq<Resolved>)
    requires Distinct(rs)
    ensures |WritableDirs(Found(w, rs, true))| == |WritableIn(w, ToSet(rs))|
  {
    FoundMembers(w, rs, true);
    WritableMembers(Found(w, rs, true));
    var ds := WritableDirs(Found(w, rs, true));
    var ids := seq(|ds|, i requires 0 <= i < |ds| => ds[i].1);
    assert forall i :: 0 <= i < |ds| ==> ds[i] in ds;
    DistinctCount(ids);
    forall r
      ensures r in ids <==> r in WritableIn(w, ToSet(rs))
    {
      if r in WritableIn(w, ToSet(rs)) {
        assert (Stat(w, r).value, r) in ds;
        var i :| 0 <= i < |ds| && ds[i] == (Stat(w, r).value, r);
        assert ids[i] == r;
      }
    }
    assert ToSet(ids) == WritableIn(w, ToSet(rs));
  }
}
