/** The paths a storage is mounted under, and when no two of them are the same. */
module MountPaths {
  import opened Prelude
  import R = Reconcile

  /** An absolute path, by its names below the root; a title may be absolute too, or not. */
  type Names = seq<string>

  datatype Title = Title(absolute: bool, names: Names)

  // ---- the paths of a container ----

  /** p / title */
  function Titled(p: Names, title: Title): Names {
    if title.absolute then title.names else p + title.names
  }

  /** '@' before a path that has lost its root. */
  function Tagged(p: Names): Names {
    if p == [] then ["@."] else ["@" + p[0]] + p[1..]
  }

  /** The paths of one category before the others of a list. */
  function TaggedBy(p: Names, others: seq<Names>, title: Title): (r: seq<Names>)
    ensures |r| == |others| && forall i :: 0 <= i < |others| ==> r[i] == Titled(p + Tagged(others[i]), title)
  {
    seq(|others|, i requires 0 <= i < |others| => Titled(p + Tagged(others[i]), title))
  }

  /** All ordered pairs of different places in a list of categories, first places from i on. */
  function Pairs(categories: seq<Names>, title: Title, i: nat): seq<Names>
    decreases |categories| - i
  {
    if i >= |categories| then []
    else TaggedBy(categories[i], categories[..i] + categories[i + 1..], title) + Pairs(categories, title, i + 1)
  }

  /** Container.expanded_paths */
  function Expanded(paths: seq<Names>, title: Option<Title>, categories: seq<Names>): seq<Names> {
    match title
    case None => paths
    case Some(t) =>
      paths + seq(|categories|, i requires 0 <= i < |categories| => Titled(categories[i], t)) + Pairs(categories, t, 0)
  }

  // ---- joining ----

  /** str.replace(':', '_') */
  function NoColons(name: string): (r: string)
    ensures |r| == |name| && ':' !in r
    ensures forall i :: 0 <= i < |name| ==> r[i] == if name[i] == ':' then '_' else name[i]
  {
    seq(|name|, i requires 0 <= i < |name| => if name[i] == ':' then '_' else name[i])
  }

  function Plain(p: Names): (r: Names)
    ensures |r| == |p| && forall i :: 0 <= i < |p| ==> r[i] == NoColons(p[i])
  {
    seq(|p|, i requires 0 <= i < |p| => NoColons(p[i]))
  }

  function PlainAll(ps: seq<Names>): (r: seq<Names>)
    ensures |r| == |ps| && forall i :: 0 <= i < |ps| ==> r[i] == Plain(ps[i])
  {
    seq(|ps|, i requires 0 <= i < |ps| => Plain(ps[i]))
  }

  /** A path that is followed by the separator. */
  function Ended(p: Names): Names {
    if p == [] then [":"] else p[..|p| - 1] + [p[|p| - 1] + ":"]
  }

  /** join_bridge_paths_for_mount */
  function Joined(bridges: seq<Names>, p: Names): Names {
    if bridges == [] then Plain(p) else Ended(Plain(bridges[0])) + Joined(bridges[1..], p)
  }

  function ForUsers(users: seq<seq<Names>>, p: Names): (r: seq<Names>)
    ensures |r| == |users| && forall i :: 0 <= i < |users| ==> r[i] == Joined(users[i], p)
  {
    seq(|users|, i requires 0 <= i < |users| => Joined(users[i], p))
  }

  function ForAll(users: seq<seq<Names>>, paths: seq<Names>): seq<Names> {
    if paths == [] then [] else ForUsers(users, paths[0]) + ForAll(users, paths[1..])
  }

  function UserPath(owner: string): Names { [".users", owner] }

  function UniquePath(uuid: string, backend: string): Names { [".backends", uuid, backend] }

  /** get_storage_mount_paths */
  function StorageMountPaths(owner: string, uuid: string, backend: string, primary: bool, expanded: seq<Names>,
                             userPaths: seq<seq<Names>>): seq<Names>
  {
    ForAll([[UserPath(owner)]] + userPaths, [UniquePath(uuid, backend)] + if primary then expanded else [])
  }

  // ---- a joined path can be taken apart ----

  /** The names of parsed paths are never empty. */
  ghost predicate Real(p: Names) { forall i :: 0 <= i < |p| ==> p[i] != "" }

  ghost predicate AllReal(ps: seq<Names>) { forall i :: 0 <= i < |ps| ==> Real(ps[i]) }

  predicate Closing(name: string) { name != "" && name[|name| - 1] == ':' }

  /** Where the first bridge of a joined path ends. */
  function FirstEnd(q: Names): (i: nat)
    ensures i <= |q| && (forall j :: 0 <= j < i ==> !Closing(q[j])) && (i < |q| ==> Closing(q[i]))
  {
    if q == [] || Closing(q[0]) then 0 else 1 + FirstEnd(q[1..])
  }

  lemma PlainNeverCloses(p: Names)
    ensures forall i :: 0 <= i < |Plain(p)| ==> !Closing(Plain(p)[i])
  {
    forall i | 0 <= i < |Plain(p)|
      ensures !Closing(Plain(p)[i])
    {
      var name := NoColons(p[i]);
      if name != "" { assert name[|name| - 1] in name; }
    }
  }

  lemma EndOf(p: Names, rest: Names)
    ensures var b := Ended(Plain(p)); FirstEnd(b + rest) == |b| - 1 && (b + rest)[..|b|] == b && (b + rest)[|b|..] == rest
  {
    PlainNeverCloses(p);
    var b := Ended(Plain(p));
    var q, k := b + rest, |b| - 1;
    assert Closing(q[k]);
    assert forall j :: 0 <= j < k ==> q[j] == Plain(p)[j];
  }

  lemma NoLoneColon(p: Names)
    requires Real(p) && p != []
    ensures Ended(Plain(p)) != [":"]
  {
    var last := Plain(p)[|p| - 1];
    assert |last| > 0 && |last + ":"| > 1;
    assert Ended(Plain(p))[|p| - 1] == last + ":";
  }

  lemma EndedApart(p: Names, q: Names)
    requires Real(p) && Real(q) && Ended(Plain(p)) == Ended(Plain(q))
    ensures Plain(p) == Plain(q)
  {
    var a, b := Plain(p), Plain(q);
    if a == [] && b != [] { NoLoneColon(q); }
    if b == [] && a != [] { NoLoneColon(p); }
    if a != [] && b != [] {
      var x, y := a[|a| - 1] + ":", b[|b| - 1] + ":";
      assert |a| == |Ended(a)| && |b| == |Ended(b)|;
      assert Ended(a)[|a| - 1] == x && Ended(b)[|b| - 1] == y;
      assert x[..|x| - 1] == a[|a| - 1] && y[..|y| - 1] == b[|b| - 1];
      assert forall i :: 0 <= i < |a| - 1 ==> a[i] == Ended(a)[i] && b[i] == Ended(b)[i];
    }
  }

  lemma JoinedStep(bs: seq<Names>, p: Names, cs: seq<Names>, q: Names)
    requires AllReal(bs) && AllReal(cs) && bs != [] && cs != []
    ensures Joined(bs, p) == Joined(cs, q) <==>
            Plain(bs[0]) == Plain(cs[0]) && Joined(bs[1..], p) == Joined(cs[1..], q)
  {
    EndOf(bs[0], Joined(bs[1..], p));
    EndOf(cs[0], Joined(cs[1..], q));
    hide Plain, Ended;
    if Joined(bs, p) == Joined(cs, q) { EndedApart(bs[0], cs[0]); }
  }

  lemma BridgeShows(p: Names, cs: seq<Names>, q: Names)
    requires cs != []
    ensures Joined([], p) != Joined(cs, q)
  {
    PlainNeverCloses(p);
    EndOf(cs[0], Joined(cs[1..], q));
    hide Plain, Ended;
  }

  lemma PlainStep(bs: seq<Names>, cs: seq<Names>)
    requires bs != [] && cs != []
    ensures PlainAll(bs) == PlainAll(cs) <==> Plain(bs[0]) == Plain(cs[0]) && PlainAll(bs[1..]) == PlainAll(cs[1..])
  {
    hide Plain;
    assert PlainAll(bs) == [Plain(bs[0])] + PlainAll(bs[1..]);
    assert PlainAll(cs) == [Plain(cs[0])] + PlainAll(cs[1..]);
    assert PlainAll(bs)[0] == Plain(bs[0]) && PlainAll(bs)[1..] == PlainAll(bs[1..]);
    assert PlainAll(cs)[0] == Plain(cs[0]) && PlainAll(cs)[1..] == PlainAll(cs[1..]);
  }

  /** Two joined paths are the same exactly when their bridges and their paths are, colons apart. */
  lemma {:induction false} JoinedApart(bs: seq<Names>, p: Names, cs: seq<Names>, q: Names)
    requires AllReal(bs) && AllReal(cs)
    ensures Joined(bs, p) == Joined(cs, q) <==> PlainAll(bs) == PlainAll(cs) && Plain(p) == Plain(q)
    decreases |bs|
  {
    if bs != [] && cs != [] {
      JoinedStep(bs, p, cs, q);
      PlainStep(bs, cs);
      JoinedApart(bs[1..], p, cs[1..], q);
    } else if cs != [] {
      BridgeShows(p, cs, q);
    } else if bs != [] {
      BridgeShows(q, bs, p);
    }
  }

  // ---- when a storage's paths are distinct ----

  lemma {:induction false} ForAllHas(users: seq<seq<Names>>, paths: seq<Names>, q: Names)
    ensures q in ForAll(users, paths) <==> exists i, j :: 0 <= i < |paths| && 0 <= j < |users| && q == Joined(users[j], paths[i])
  {
    hide Joined;
    if paths != [] {
      ForAllHas(users, paths[1..], q);
      if q in ForUsers(users, paths[0]) {
        var j :| 0 <= j < |users| && q == ForUsers(users, paths[0])[j];
        assert q == Joined(users[j], paths[0]);
      }
      if i, j :| 0 <= i < |paths[1..]| && 0 <= j < |users| && q == Joined(users[j], paths[1..][i]) {
        assert q == Joined(users[j], paths[i + 1]);
      }
      if i, j :| 0 <= i < |paths| && 0 <= j < |users| && q == Joined(users[j], paths[i]) {
        if i == 0 {
          assert ForUsers(users, paths[0])[j] == q;
        } else {
          assert q == Joined(users[j], paths[1..][i - 1]);
        }
      }
    }
  }

  function PlainUsers(users: seq<seq<Names>>): (r: seq<seq<Names>>)
    ensures |r| == |users| && forall i :: 0 <= i < |users| ==> r[i] == PlainAll(users[i])
  {
    seq(|users|, i requires 0 <= i < |users| => PlainAll(users[i]))
  }

  ghost predicate UsersReal(users: seq<seq<Names>>) { forall j :: 0 <= j < |users| ==> AllReal(users[j]) }

  lemma ForUsersDistinct(users: seq<seq<Names>>, p: Names)
    requires UsersReal(users)
    ensures Distinct(ForUsers(users, p)) <==> Distinct(PlainUsers(users))
  {
    forall i, j | 0 <= i < j < |users|
      ensures ForUsers(users, p)[i] == ForUsers(users, p)[j] <==> PlainUsers(users)[i] == PlainUsers(users)[j]
    {
      JoinedApart(users[i], p, users[j], p);
    }
  }

  lemma DistinctConcat<T>(a: seq<T>, b: seq<T>)
    ensures Distinct(a + b) <==> Distinct(a) && Distinct(b) && forall x :: x in a ==> x !in b
  {
    var c := a + b;
    if Distinct(a) && Distinct(b) && forall x :: x in a ==> x !in b {
      forall i, j | 0 <= i < j < |c| ensures c[i] != c[j] {
        if j < |a| {
          assert c[i] == a[i] && c[j] == a[j];
        } else if i < |a| {
          assert c[i] == a[i] && a[i] in a && c[j] == b[j - |a|] && b[j - |a|] in b;
        } else {
          assert c[i] == b[i - |a|] && c[j] == b[j - |a|];
        }
      }
    }
    if Distinct(a + b) {
      forall i, j | 0 <= i < j < |b| ensures b[i] != b[j] { assert (a + b)[|a| + i] == b[i] && (a + b)[|a| + j] == b[j]; }
      forall i, j | 0 <= i < j < |a| ensures a[i] != a[j] { assert (a + b)[i] == a[i] && (a + b)[j] == a[j]; }
      forall x | x in a ensures x !in b {
        var i :| 0 <= i < |a| && a[i] == x;
        assert forall j :: 0 <= j < |b| ==> c[|a| + j] == b[j] && c[i] != c[|a| + j];
      }
    }
  }

  lemma PathsApart(users: seq<seq<Names>>, p: Names, rest: seq<Names>)
    requires UsersReal(users) && users != []
    ensures (forall q :: q in ForUsers(users, p) ==> q !in ForAll(users, rest)) <==> Plain(p) !in PlainAll(rest)
  {
    if Plain(p) in PlainAll(rest) {
      var i :| 0 <= i < |rest| && PlainAll(rest)[i] == Plain(p);
      JoinedApart(users[0], p, users[0], rest[i]);
      ForAllHas(users, rest, Joined(users[0], p));
      assert ForUsers(users, p)[0] == Joined(users[0], p);
      assert Joined(users[0], p) == Joined(users[0], rest[i]);
    } else {
      forall q | q in ForUsers(users, p)
        ensures q !in ForAll(users, rest)
      {
        var j :| 0 <= j < |users| && ForUsers(users, p)[j] == q;
        ForAllHas(users, rest, q);
        if i, k :| 0 <= i < |rest| && 0 <= k < |users| && q == Joined(users[k], rest[i]) {
          assert PlainAll(rest)[i] == Plain(rest[i]) && Plain(rest[i]) in PlainAll(rest);
          JoinedApart(users[j], p, users[k], rest[i]);
        }
      }
    }
  }

  /** The paths of all users for all paths are distinct exactly when the users' paths are, and the paths are, once
      colons are replaced. */
  lemma {:induction false} ForAllDistinct(users: seq<seq<Names>>, paths: seq<Names>)
    requires UsersReal(users) && users != []
    ensures Distinct(ForAll(users, paths)) <==> (paths == [] || Distinct(PlainUsers(users))) && Distinct(PlainAll(paths))
  {
    hide Joined, Plain;
    if paths != [] {
      ForAllDistinct(users, paths[1..]);
      ForUsersDistinct(users, paths[0]);
      DistinctConcat(ForUsers(users, paths[0]), ForAll(users, paths[1..]));
      PathsApart(users, paths[0], paths[1..]);
      assert PlainAll(paths) == [Plain(paths[0])] + PlainAll(paths[1..]);
      DistinctConcat([Plain(paths[0])], PlainAll(paths[1..]));
    }
  }

  /** A storage's mount paths are distinct exactly when no two users' bridge paths are the same and no two of the
      storage's own, once colons are replaced. */
  lemma MountPathsDistinct(owner: string, uuid: string, backend: string, primary: bool, expanded: seq<Names>,
                           userPaths: seq<seq<Names>>)
    requires owner != "" && UsersReal(userPaths)
    ensures Distinct(StorageMountPaths(owner, uuid, backend, primary, expanded, userPaths)) <==>
            && Distinct(PlainUsers([[UserPath(owner)]] + userPaths))
            && Distinct(PlainAll([UniquePath(uuid, backend)] + if primary then expanded else []))
  {
    var users := [[UserPath(owner)]] + userPaths;
    forall j | 0 <= j < |users|
      ensures AllReal(users[j])
    {
      assert j > 0 ==> users[j] == userPaths[j - 1];
    }
    ForAllDistinct(users, [UniquePath(uuid, backend)] + if primary then expanded else []);
  }

  lemma NoColonsToReplace(name: string)
    requires ':' !in name
    ensures NoColons(name) == name
  {
  }

  /** The first of them is the unique path of the storage. */
  lemma FirstIsUnique(c: R.Container, backend: string, primary: bool, expanded: seq<Names>, userPaths: seq<seq<Names>>)
    requires ':' !in c.owner && ':' !in c.uuid && ':' !in backend
    ensures var ps := StorageMountPaths(c.owner, c.uuid, backend, primary, expanded, userPaths);
            ps != [] && ["/"] + ps[0] == R.Unique(c, backend)
  {
    var users, u := [[UserPath(c.owner)]] + userPaths, UniquePath(c.uuid, backend);
    NoColonsToReplace(c.owner);
    NoColonsToReplace(c.uuid);
    NoColonsToReplace(backend);
    NoColonsToReplace(".users");
    NoColonsToReplace(".backends");
    assert Plain(UserPath(c.owner)) == UserPath(c.owner) && Plain(u) == u;
    assert users[0] == [UserPath(c.owner)] && users[0][1..] == [];
    assert Joined(users[0], u) == Ended(UserPath(c.owner)) + u;
    assert ForUsers(users, u)[0] == Joined(users[0], u);
    assert UserPath(c.owner)[..1] == [".users"];
  }

  // ---- paths that clash ----

  /** Two paths of a container that differ in a colon and an underscore are mounted as one. */
  lemma ColonsClash(owner: string, uuid: string, backend: string, p: Names, q: Names, more: seq<Names>, userPaths: seq<seq<Names>>)
    requires owner != "" && UsersReal(userPaths) && Plain(p) == Plain(q)
    ensures !Distinct(StorageMountPaths(owner, uuid, backend, true, [p, q] + more, userPaths))
  {
    var paths := [UniquePath(uuid, backend)] + ([p, q] + more);
    assert PlainAll(paths)[1] == PlainAll(paths)[2];
    MountPathsDistinct(owner, uuid, backend, true, [p, q] + more, userPaths);
  }

  /** As "/a:b" and "/a_b" are. */
  lemma ColonIsUnderscore()
    ensures Plain(["a:b"]) == Plain(["a_b"])
  {
    assert NoColons("a:b") == "a_b" == NoColons("a_b");
  }

  /** A path given explicitly that a category and the title make too is mounted twice. */
  lemma TitleClashes(owner: string, uuid: string, backend: string, paths: seq<Names>, title: Title, categories: seq<Names>,
                     userPaths: seq<seq<Names>>, i: nat)
    requires owner != "" && UsersReal(userPaths) && i < |categories| && Titled(categories[i], title) in paths
    ensures !Distinct(StorageMountPaths(owner, uuid, backend, true, Expanded(paths, Some(title), categories), userPaths))
  {
    var expanded := Expanded(paths, Some(title), categories);
    var k :| 0 <= k < |paths| && paths[k] == Titled(categories[i], title);
    assert expanded[k] == expanded[|paths| + i];
    var all := [UniquePath(uuid, backend)] + expanded;
    assert all[k + 1] == expanded[k] && all[|paths| + i + 1] == expanded[|paths| + i];
    assert PlainAll(all)[k + 1] == PlainAll(all)[|paths| + i + 1];
    MountPathsDistinct(owner, uuid, backend, true, expanded, userPaths);
  }
}
