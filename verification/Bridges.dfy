/** Paths from one user to another through bridges, several hops included. */
module Bridges {
  import opened Prelude

  type User = string
  type Label = string

  /** A bridge published by `owner`, naming another user under some paths. A user is its key's fingerprint. */
  datatype Bridge = Bridge(owner: User, user: User, paths: seq<Label>)

  datatype Hop = Hop(bridge: Bridge, path: Label)

  type BridgeMap = map<User, seq<Bridge>>

  // ---- what is promised ----

  function Labels(chain: seq<Hop>): (ls: seq<Label>)
    ensures |ls| == |chain| && forall i :: 0 <= i < |ls| ==> ls[i] == chain[i].path
  {
    seq(|chain|, i requires 0 <= i < |chain| => chain[i].path)
  }

  /** The users of a chain: the one it starts from, and the one each hop leads to. */
  function Users(from: User, chain: seq<Hop>): (us: seq<User>)
    ensures |us| == |chain| + 1 && us[0] == from
    ensures forall i :: 0 <= i < |chain| ==> us[i + 1] == chain[i].bridge.user
  {
    [from] + seq(|chain|, i requires 0 <= i < |chain| => chain[i].bridge.user)
  }

  /** Known bridges leading from one user to another, each taken under one of its paths, meeting no user twice. */
  ghost predicate SimpleChain(bridges: seq<Bridge>, from: User, to: User, chain: seq<Hop>) {
    var us := Users(from, chain);
    Linked(bridges, us, chain) && Distinct(us) && us[|chain|] == to
  }

  ghost predicate Linked(bridges: seq<Bridge>, us: seq<User>, chain: seq<Hop>)
    requires |us| == |chain| + 1
  {
    forall i :: 0 <= i < |chain| ==> IsHop(bridges, us[i], chain[i])
  }

  predicate IsHop(bridges: seq<Bridge>, from: User, hop: Hop) {
    hop.bridge in bridges && hop.path in hop.bridge.paths && hop.bridge.owner == from
  }

  // ---- the enumeration ----

  function Owned(bridges: seq<Bridge>, owner: User): (bs: seq<Bridge>)
    ensures forall b :: b in bs <==> b in bridges && b.owner == owner
  {
    if bridges == [] then []
    else (if bridges[0].owner == owner then [bridges[0]] else []) + Owned(bridges[1..], owner)
  }

  function Owners(bridges: seq<Bridge>): set<User> {
    set b | b in bridges :: b.owner
  }

  function ByOwner(bridges: seq<Bridge>): BridgeMap {
    map u | u in Owners(bridges) :: Owned(bridges, u)
  }

  function Extended(prefix: seq<Label>, labels: seq<Label>): (r: seq<seq<Label>>)
    ensures forall ls :: ls in r <==> exists l :: l in labels && ls == prefix + [l]
  {
    if labels == [] then [] else [prefix + [labels[0]]] + Extended(prefix, labels[1..])
  }

  /** _generate_bridge_paths_recursive over the bridges `bs` of the last user: every path it yields, in order.
      Enumeration goes on past the target. */
  function Paths(prefix: seq<Label>, bs: seq<Bridge>, target: User, seen: set<User>, known: BridgeMap)
    : seq<seq<Label>>
    decreases known.Keys - seen, 0, |bs|
  {
    if bs == [] then []
    else
      var u := bs[0].user;
      (if u in seen then []
       else
         (if u == target then Extended(prefix, bs[0].paths) else [])
         + (if u in known then PathsUnder(prefix, bs[0].paths, u, target, seen + {u}, known) else []))
      + Paths(prefix, bs[1..], target, seen, known)
  }

  /** The recursive calls for each path of one bridge to `user`. */
  function PathsUnder(prefix: seq<Label>, labels: seq<Label>, user: User, target: User, seen: set<User>, known: BridgeMap)
    : seq<seq<Label>>
    requires user in known
    decreases known.Keys - seen, 1, |labels|
  {
    if labels == [] then []
    else
      Paths(prefix + [labels[0]], known[user], target, seen, known)
      + PathsUnder(prefix, labels[1..], user, target, seen, known)
  }

  // ---- the chains the recursion follows ----

  ghost predicate Walk(bs: seq<Bridge>, target: User, seen: set<User>, known: BridgeMap, chain: seq<Hop>)
    decreases |chain|
  {
    && chain != []
    && chain[0].bridge in bs && chain[0].path in chain[0].bridge.paths
    && var u := chain[0].bridge.user;
       && u !in seen
       && if |chain| == 1 then u == target else u in known && Walk(known[u], target, seen + {u}, known, chain[1..])
  }

  lemma LabelsAfter(prefix: seq<Label>, hop: Hop, rest: seq<Hop>)
    ensures prefix + Labels([hop] + rest) == prefix + [hop.path] + Labels(rest)
    ensures prefix + Labels([hop]) == prefix + [hop.path]
  {
    assert Labels([hop]) == [hop.path];
    assert Labels([hop] + rest) == [hop.path] + Labels(rest);
  }

  /** Every path yielded is that of a walk. */
  lemma {:induction false} PathsAreWalks(prefix: seq<Label>, bs: seq<Bridge>, target: User, seen: set<User>,
                                         known: BridgeMap, ls: seq<Label>) returns (chain: seq<Hop>)
    requires ls in Paths(prefix, bs, target, seen, known)
    ensures Walk(bs, target, seen, known, chain) && ls == prefix + Labels(chain)
    decreases known.Keys - seen, 0, |bs|
  {
    hide Extended, PathsUnder, Labels;
    var b := bs[0];
    var u := b.user;
    if ls in Paths(prefix, bs[1..], target, seen, known) {
      chain := PathsAreWalks(prefix, bs[1..], target, seen, known, ls);
    } else if u == target && ls in Extended(prefix, b.paths) {
      var l :| l in b.paths && ls == prefix + [l];
      chain := [Hop(b, l)];
      LabelsAfter(prefix, Hop(b, l), []);
    } else {
      var l, rest := PathsUnderAreWalks(prefix, b.paths, u, target, seen + {u}, known, ls);
      chain := [Hop(b, l)] + rest;
      assert chain[1..] == rest;
      LabelsAfter(prefix, Hop(b, l), rest);
    }
  }

  lemma {:induction false} PathsUnderAreWalks(prefix: seq<Label>, labels: seq<Label>, user: User, target: User,
                                              seen: set<User>, known: BridgeMap, ls: seq<Label>)
    returns (l: Label, rest: seq<Hop>)
    requires user in known && ls in PathsUnder(prefix, labels, user, target, seen, known)
    ensures l in labels && Walk(known[user], target, seen, known, rest) && ls == prefix + [l] + Labels(rest)
    decreases known.Keys - seen, 1, |labels|
  {
    if ls in Paths(prefix + [labels[0]], known[user], target, seen, known) {
      l := labels[0];
      rest := PathsAreWalks(prefix + [l], known[user], target, seen, known, ls);
    } else {
      l, rest := PathsUnderAreWalks(prefix, labels[1..], user, target, seen, known, ls);
    }
  }

  /** Every walk is yielded. */
  lemma {:induction false} WalksAreYielded(prefix: seq<Label>, bs: seq<Bridge>, target: User, seen: set<User>,
                                           known: BridgeMap, chain: seq<Hop>)
    requires Walk(bs, target, seen, known, chain)
    ensures prefix + Labels(chain) in Paths(prefix, bs, target, seen, known)
    decreases known.Keys - seen, 0, |bs|
  {
    hide Extended, PathsUnder, Labels;
    var b := bs[0];
    if chain[0].bridge != b {
      WalksAreYielded(prefix, bs[1..], target, seen, known, chain);
    } else {
      var u, l := b.user, chain[0].path;
      LabelsAfter(prefix, chain[0], chain[1..]);
      if |chain| == 1 {
        assert chain == [chain[0]];
      } else {
        assert chain == [chain[0]] + chain[1..];
        WalksUnderAreYielded(prefix, b.paths, u, target, seen + {u}, known, l, chain[1..]);
      }
    }
  }

  lemma {:induction false} WalksUnderAreYielded(prefix: seq<Label>, labels: seq<Label>, user: User, target: User,
                                                seen: set<User>, known: BridgeMap, l: Label, rest: seq<Hop>)
    requires user in known && l in labels && Walk(known[user], target, seen, known, rest)
    ensures prefix + [l] + Labels(rest) in PathsUnder(prefix, labels, user, target, seen, known)
    decreases known.Keys - seen, 1, |labels|
  {
    if labels[0] == l {
      WalksAreYielded(prefix + [l], known[user], target, seen, known, rest);
    } else {
      WalksUnderAreYielded(prefix, labels[1..], user, target, seen, known, l, rest);
    }
  }

  ghost predicate KeepsOff(chain: seq<Hop>, seen: set<User>) {
    forall i :: 0 <= i < |chain| ==> chain[i].bridge.user !in seen
  }

  lemma DistinctAfter(u: User, us: seq<User>)
    ensures Distinct([u] + us) <==> u !in us && Distinct(us)
  {
    var all := [u] + us;
    assert forall i :: 0 <= i < |us| ==> us[i] == all[i + 1];
    assert forall i :: 0 < i < |all| ==> all[i] == us[i - 1];
    assert all[0] == u;
    if Distinct(all) {
      forall i, j | 0 <= i < j < |us|
        ensures us[i] != us[j]
      {
        assert all[i + 1] != all[j + 1];
      }
    }
  }

  lemma LinkedStep(bridges: seq<Bridge>, us: seq<User>, chain: seq<Hop>)
    requires |us| == |chain| + 1 && chain != []
    ensures Linked(bridges, us, chain) <==> IsHop(bridges, us[0], chain[0]) && Linked(bridges, us[1..], chain[1..])
  {
    hide IsHop;
    var vs, rest := us[1..], chain[1..];
    assert forall i :: 0 <= i < |rest| ==> rest[i] == chain[i + 1] && vs[i] == us[i + 1];
    assert forall i :: 0 < i < |chain| ==> chain[i] == rest[i - 1] && us[i] == vs[i - 1];
  }

  lemma SimpleStep(bridges: seq<Bridge>, from: User, to: User, chain: seq<Hop>)
    requires chain != []
    ensures SimpleChain(bridges, from, to, chain) <==>
            && IsHop(bridges, from, chain[0])
            && KeepsOff(chain, {from})
            && SimpleChain(bridges, chain[0].bridge.user, to, chain[1..])
  {
    hide IsHop, Linked, Distinct;
    var us, vs := Users(from, chain), Users(chain[0].bridge.user, chain[1..]);
    assert us == [from] + vs && us[1..] == vs;
    LinkedStep(bridges, us, chain);
    DistinctAfter(from, vs);
    assert forall i :: 0 <= i < |chain| ==> vs[i] == us[i + 1] == chain[i].bridge.user;
    assert from in vs <==> exists i :: 0 <= i < |chain| && chain[i].bridge.user == from;
  }

  lemma KeepsOffStep(chain: seq<Hop>, from: User, seen: set<User>)
    requires chain != [] && from in seen
    ensures var u := chain[0].bridge.user;
            KeepsOff(chain, seen) && KeepsOff(chain[1..], {u}) <==>
            u !in seen && KeepsOff(chain[1..], seen + {u})
  {
    var rest := chain[1..];
    assert forall i :: 0 <= i < |rest| ==> rest[i] == chain[i + 1];
    assert forall i :: 0 < i < |chain| ==> chain[i] == rest[i - 1];
  }

  /** The walks are the simple chains that also keep off the users already seen. */
  lemma {:induction false} WalksAreSimple(bridges: seq<Bridge>, from: User, to: User, seen: set<User>, chain: seq<Hop>)
    requires from in seen && from in Owners(bridges) && chain != []
    ensures Walk(ByOwner(bridges)[from], to, seen, ByOwner(bridges), chain) <==>
            SimpleChain(bridges, from, to, chain) && KeepsOff(chain, seen)
    decreases |chain|
  {
    var u, rest := chain[0].bridge.user, chain[1..];
    SimpleStep(bridges, from, to, chain);
    KeepsOffStep(chain, from, seen);
    assert KeepsOff(chain, seen) ==> KeepsOff(chain, {from});
    if rest == [] {
      assert Users(u, rest) == [u];
    } else {
      SimpleStep(bridges, u, to, rest);
      if u in Owners(bridges) {
        WalksAreSimple(bridges, u, to, seen + {u}, rest);
      } else {
        assert rest[0].bridge in bridges ==> rest[0].bridge.owner in Owners(bridges);
      }
    }
  }

  // ---- the answer ----

  /** get_bridge_paths_for_user: exactly the paths of simple chains, a user's own path being the empty one. */
  method BridgePathsForUser(bridges: seq<Bridge>, owner: User, user: User) returns (paths: set<seq<Label>>)
    ensures forall ls :: ls in paths <==> exists chain :: SimpleChain(bridges, owner, user, chain) && ls == Labels(chain)
  {
    hide SimpleChain, Paths, ByOwner, Owned;
    assert ByOwner([]) == map[] by { NoOwners(); }
    if owner == user {
      OnlyEmptyChain(bridges, owner);
      assert Labels([]) == [];
      return {[]};
    }
    var known: BridgeMap := map[];
    for i := 0 to |bridges|
      invariant known == ByOwner(bridges[..i])
    {
      OneMoreBridge(bridges, i);
      var b := bridges[i];
      known := known[b.owner := (if b.owner in known then known[b.owner] else []) + [b]];
    }
    assert bridges[..|bridges|] == bridges;
    KnownAre(bridges);
    if owner in known {
      PathsAreSimpleChains(bridges, owner, user);
      return ToSet(Paths([], known[owner], user, {owner}, known));
    }
    NoBridges(bridges, owner, user);
    return {};
  }

  lemma NoOwners()
    ensures ByOwner([]) == map[]
  {
  }

  lemma KnownAre(bridges: seq<Bridge>)
    ensures ByOwner(bridges).Keys == Owners(bridges)
    ensures forall u :: u in Owners(bridges) ==> ByOwner(bridges)[u] == Owned(bridges, u)
  {
  }

  lemma OnlyEmptyChain(bridges: seq<Bridge>, user: User)
    ensures forall chain: seq<Hop> :: SimpleChain(bridges, user, user, chain) <==> chain == []
  {
    forall chain: seq<Hop>
      ensures SimpleChain(bridges, user, user, chain) <==> chain == []
    {
      assert chain != [] ==> Users(user, chain)[0] == user;
      assert Users(user, []) == [user];
    }
  }

  lemma NoBridges(bridges: seq<Bridge>, owner: User, user: User)
    requires owner != user && owner !in Owners(bridges)
    ensures forall chain: seq<Hop> :: !SimpleChain(bridges, owner, user, chain)
  {
    forall chain: seq<Hop>
      ensures !SimpleChain(bridges, owner, user, chain)
    {
      assert chain != [] && chain[0].bridge in bridges ==> chain[0].bridge.owner in Owners(bridges);
      assert Users(owner, []) == [owner];
    }
  }

  lemma {:induction false} OwnedAppend(bs: seq<Bridge>, b: Bridge, u: User)
    ensures Owned(bs + [b], u) == Owned(bs, u) + if b.owner == u then [b] else []
  {
    if bs == [] {
      assert bs + [b] == [b];
    } else {
      assert (bs + [b])[0] == bs[0] && (bs + [b])[1..] == bs[1..] + [b];
      OwnedAppend(bs[1..], b, u);
    }
  }

  lemma OneMoreBridge(bridges: seq<Bridge>, i: nat)
    requires i < |bridges|
    ensures var known, b := ByOwner(bridges[..i]), bridges[i];
            ByOwner(bridges[..i + 1]) == known[b.owner := (if b.owner in known then known[b.owner] else []) + [b]]
  {
    hide Owned, Owners, ByOwner;
    var bs, b := bridges[..i], bridges[i];
    assert bridges[..i + 1] == bs + [b];
    OneMoreOwner(bs, b);
    KnownAre(bs);
    KnownAre(bs + [b]);
    var known, later := ByOwner(bs), ByOwner(bs + [b]);
    var next := known[b.owner := (if b.owner in known then known[b.owner] else []) + [b]];
    forall u | u in later
      ensures later[u] == next[u]
    {
      OwnedAppend(bs, b, u);
      NoneOwned(bs, u);
    }
    assert later == next;
  }

  lemma OneMoreOwner(bs: seq<Bridge>, b: Bridge)
    ensures Owners(bs + [b]) == Owners(bs) + {b.owner}
  {
    assert forall x :: x in bs + [b] <==> x in bs || x == b;
    assert b in bs + [b];
  }

  lemma NoneOwned(bs: seq<Bridge>, u: User)
    ensures u !in Owners(bs) ==> Owned(bs, u) == []
  {
    var mine := Owned(bs, u);
    assert mine != [] ==> mine[0] in mine;
  }

  lemma WalkIsSome(bs: seq<Bridge>, target: User, seen: set<User>, known: BridgeMap, chain: seq<Hop>)
    ensures Walk(bs, target, seen, known, chain) ==> chain != []
  {
  }

  lemma EmptyChainStays(bridges: seq<Bridge>, from: User, to: User)
    ensures SimpleChain(bridges, from, to, []) <==> from == to
  {
  }

  /** Sound and complete: the recursion yields the paths of the simple chains from owner to target, and no others. */
  lemma PathsAreSimpleChains(bridges: seq<Bridge>, owner: User, target: User)
    requires owner in Owners(bridges) && owner != target
    ensures var known := ByOwner(bridges);
            forall ls :: ls in Paths([], known[owner], target, {owner}, known) <==>
                         exists chain :: SimpleChain(bridges, owner, target, chain) && ls == Labels(chain)
  {
    hide SimpleChain, Walk, Paths, Owned, ByOwner;
    KnownAre(bridges);
    var known := ByOwner(bridges);
    forall ls
      ensures ls in Paths([], known[owner], target, {owner}, known) <==>
              exists chain :: SimpleChain(bridges, owner, target, chain) && ls == Labels(chain)
    {
      if ls in Paths([], known[owner], target, {owner}, known) {
        var chain := PathsAreWalks([], known[owner], target, {owner}, known, ls);
        WalkIsSome(known[owner], target, {owner}, known, chain);
        WalksAreSimple(bridges, owner, target, {owner}, chain);
        assert [] + Labels(chain) == Labels(chain);
      }
      if chain :| SimpleChain(bridges, owner, target, chain) && ls == Labels(chain) {
        EmptyChainStays(bridges, owner, target);
        SimpleStep(bridges, owner, target, chain);
        WalksAreSimple(bridges, owner, target, {owner}, chain);
        WalksAreYielded([], known[owner], target, {owner}, known, chain);
        assert [] + Labels(chain) == Labels(chain);
      }
    }
  }
}
