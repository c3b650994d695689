/** What the conflict resolver answers, as functions of the mounts and of what each storage answers. */
module Resolution {
  import opened Prelude
  import opened ConflictNames
  import opened Mounts

  datatype Errno = ENOENT | ENOTDIR | EACCES | EROFS | ENOSYS | EIO(code: nat) | InvalidName

  /** The part of a file's attributes that resolution looks at. */
  datatype Attr = Attr(isDir: bool, writable: bool)

  const SYNTHETIC := Attr(true, false)

  /** What the mounted storages answer. */
  datatype World = World(
    getattr: (nat, Path) -> Result<Attr, Errno>,
    readdir: (nat, Path) -> Result<seq<string>, Errno>)

  /** handle_io_error around getattr. */
  function Stat(w: World, r: Resolved): Option<Attr> {
    match w.getattr(r.ident, r.relpath)
    case Ok(a) => Some(a)
    case Err(_) => None
  }

  /** handle_io_error around readdir. */
  function Names(w: World, r: Resolved): seq<string> {
    match w.readdir(r.ident, r.relpath)
    case Ok(names) => names
    case Err(_) => []
  }

  function Under(r: Resolved, name: string): (u: Resolved)
    ensures u.relpath != [] && Outer(u) == r
  {
    var u := Resolved(r.ident, r.relpath + [name]);
    assert u.relpath[..|r.relpath|] == r.relpath;
    u
  }

  /** The directory a path is in. */
  function Outer(u: Resolved): Resolved
    requires u.relpath != []
  {
    Resolved(u.ident, u.relpath[..|u.relpath| - 1])
  }

  predicate IsDirAt(w: World, r: Resolved) {
    Stat(w, r).Some? && Stat(w, r).value.isDir
  }

  type Hit = (Attr, Resolved)

  /** The storages that have the path as a directory, or as a file, in resolution order. */
  function Found(w: World, rs: seq<Resolved>, isDir: bool): seq<Hit> {
    if rs == [] then []
    else
      var r := rs[|rs| - 1];
      var before := Found(w, rs[..|rs| - 1], isDir);
      match Stat(w, r)
      case Some(a) => if a.isDir == isDir then before + [(a, r)] else before
      case None => before
  }

  // ---- readdir ----

  /** Which directories hold each name; `order` is the order the names were first met in. */
  datatype Seen = Seen(order: seq<string>, holders: map<string, seq<Resolved>>)

  function AddSeen(s: Seen, name: string, r: Resolved): Seen {
    if name in s.holders then s.(holders := s.holders[name := s.holders[name] + [r]])
    else Seen(s.order + [name], s.holders[name := [r]])
  }

  function SeeNames(s: Seen, names: seq<string>, r: Resolved): Seen {
    if names == [] then s
    else AddSeen(SeeNames(s, names[..|names| - 1], r), names[|names| - 1], r)
  }

  function SeeAll(w: World, dirs: seq<Hit>): Seen {
    if dirs == [] then Seen([], map[])
    else
      var r := dirs[|dirs| - 1].1;
      SeeNames(SeeAll(w, dirs[..|dirs| - 1]), Names(w, r), r)
  }

  /** A clashing name as one of its holders shows it: renamed unless it is a directory there. */
  function Shown(w: World, name: string, r: Resolved): string {
    if IsDirAt(w, Under(r, name)) then name else Decorate(name, r.ident)
  }

  function AllShown(w: World, name: string, rs: seq<Resolved>): set<string> {
    set r | r in rs :: Shown(w, name, r)
  }

  function AddName(w: World, s: Seen, name: string, result: set<string>): set<string>
    requires name in s.holders
  {
    if |s.holders[name]| == 1 && name !in result then result + {name}
    else result + AllShown(w, name, s.holders[name])
  }

  function MergeNames(w: World, s: Seen, order: seq<string>, start: set<string>): set<string>
    requires forall n :: n in order ==> n in s.holders
  {
    if order == [] then start
    else AddName(w, s, order[|order| - 1], MergeNames(w, s, order[..|order| - 1], start))
  }

  ghost predicate SeenOk(s: Seen) {
    && ToSet(s.order) == s.holders.Keys
    && Distinct(s.order)
    && forall n :: n in s.holders ==> s.holders[n] != []
  }

  lemma {:induction false} SeeNamesOk(s: Seen, names: seq<string>, r: Resolved)
    requires SeenOk(s)
    ensures SeenOk(SeeNames(s, names, r))
  {
    if names != [] {
      SeeNamesOk(s, names[..|names| - 1], r);
    }
  }

  lemma {:induction false} SeeAllOk(w: World, dirs: seq<Hit>)
    ensures SeenOk(SeeAll(w, dirs))
  {
    if dirs != [] {
      SeeAllOk(w, dirs[..|dirs| - 1]);
      SeeNamesOk(SeeAll(w, dirs[..|dirs| - 1]), Names(w, dirs[|dirs| - 1].1), dirs[|dirs| - 1].1);
    }
  }

  function Merge(w: World, dirs: seq<Hit>, start: set<string>): set<string> {
    SeeAllOk(w, dirs);
    var s := SeeAll(w, dirs);
    assert forall n :: n in s.order ==> n in ToSet(s.order);
    MergeNames(w, s, s.order, start)
  }

  /** The names listed for p, given the storages responsible for it and its children in the mount tree. */
  function Readdir(w: World, p: Path, rs: seq<Resolved>, children: Option<set<string>>): Result<set<string>, Errno> {
    if |rs| == 0 && children.None? then
      if p == ["/"] then Ok({}) else Err(ENOENT)
    else
      var c := if children.Some? then children.value else {};
      if |rs| == 1 && c == {} then
        var names :- w.readdir(rs[0].ident, rs[0].relpath);
        Ok(ToSet(names))
      else
        var dirs, files := Found(w, rs, true), Found(w, rs, false);
        if |dirs| == 0 && c == {} then
          Err(if |files| == 1 then ENOTDIR else ENOENT)
        else if |dirs| == 1 then
          Ok(c + ToSet(Names(w, dirs[0].1)))
        else
          Ok(Merge(w, dirs, c))
  }

  // ---- getattr ----

  /** The path a lookup is really about, and the storage id when its name is in conflict form. */
  function RealPath(p: Path): Result<(Path, Option<nat>), Errno> {
    match Decode(Name(p))
    case None => Ok((p, None))
    case Some((n, id)) =>
      if n == "" || n == "." then Err(InvalidName)
      else Ok((p[..|p| - 1] + [n], Some(id)))
  }

  function WritableDirs(dirs: seq<Hit>): seq<Hit> {
    if dirs == [] then []
    else WritableDirs(dirs[..|dirs| - 1]) + if dirs[|dirs| - 1].0.writable then [dirs[|dirs| - 1]] else []
  }

  /** The single writable directory if there is exactly one, otherwise a read-only synthetic one. */
  function MergedDir(dirs: seq<Hit>): (Attr, Option<Resolved>) {
    var ds := WritableDirs(dirs);
    if |ds| == 1 then (ds[0].0, Some(ds[0].1)) else (SYNTHETIC, None)
  }

  function FirstWithId(files: seq<Hit>, id: nat): Option<Hit> {
    if files == [] then None
    else if files[0].1.ident == id then Some(files[0])
    else FirstWithId(files[1..], id)
  }

  /** The answer for path p, whose real path has the responsible storages rs. */
  function Getattr(w: World, p: Path, ident: Option<nat>, rs: seq<Resolved>, synthetic: bool)
    : Result<(Attr, Option<Resolved>), Errno>
  {
    var dirs, files := Found(w, rs, true), Found(w, rs, false);
    if synthetic then Ok(MergedDir(dirs))
    else if |rs| == 0 then
      if p == ["/"] then Ok((SYNTHETIC, None)) else Err(ENOENT)
    else if |rs| == 1 then
      if ident.Some? then Err(ENOENT)
      else
        var a :- w.getattr(rs[0].ident, rs[0].relpath);
        Ok((a, Some(rs[0])))
    else if |dirs| == 1 then
      if ident.Some? then Err(ENOENT) else Ok((dirs[0].0, Some(dirs[0].1)))
    else if |dirs| > 1 then
      if ident.Some? then Err(ENOENT) else Ok(MergedDir(dirs))
    else if |files| == 1 then
      if ident.Some? then Err(ENOENT) else Ok((files[0].0, Some(files[0].1)))
    else if |files| > 1 && ident.Some? then
      match FirstWithId(files, ident.value)
      case Some(hit) => Ok((hit.0, Some(hit.1)))
      case None => Err(ENOENT)
    else Err(ENOENT)
  }
}
