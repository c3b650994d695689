/** Containers ordered so that each comes after those its storages refer to. */
module ReferenceOrder {
  import opened Prelude

  type Container = string

  datatype Link = Loads(container: Container) | CannotLoad

  /** A storage of a container, with its reference if it has one, or the place where listing storages fails. */
  datatype Entry = Storage(reference: Option<Link>, mountsReference: bool) | BrokenEntry

  /** The storages of every container, references already looked up. */
  type Catalogue = Container -> seq<Entry>

  // ---- references ----

  predicate IsReference(e: Entry) {
    e.Storage? && e.reference.Some? && e.mountsReference
  }

  function Referenced(e: Entry): Container
    requires IsReference(e) && e.reference.value.Loads?
  {
    e.reference.value.container
  }

  predicate Fails(e: Entry) {
    e.BrokenEntry? || (IsReference(e) && e.reference.value.CannotLoad?)
  }

  /** The references found before the first failure. */
  function Opened(es: seq<Entry>): seq<Container> {
    if es == [] || Fails(es[0]) then []
    else (if IsReference(es[0]) then [Referenced(es[0])] else []) + Opened(es[1..])
  }

  function Refs(w: Catalogue, c: Container): seq<Container> {
    Opened(w(c))
  }

  /** Containers each of which refers to the next. */
  ghost predicate Trail(w: Catalogue, path: seq<Container>) {
    path != [] && forall i :: 0 <= i < |path| - 1 ==> path[i + 1] in Refs(w, path[i])
  }

  ghost predicate ReachedFrom(w: Catalogue, inputs: seq<Container>, c: Container) {
    exists path :: Trail(w, path) && path[0] in inputs && path[|path| - 1] == c
  }

  ghost predicate CyclicFrom(w: Catalogue, inputs: seq<Container>) {
    exists path :: Trail(w, path) && |path| >= 2 && path[0] == path[|path| - 1] && ReachedFrom(w, inputs, path[0])
  }

  // ---- the dependency graph ----

  type Graph = map<Container, set<Container>>

  function Preds(g: Graph, c: Container): set<Container> {
    if c in g then g[c] else {}
  }

  function Nodes(g: Graph): set<Container> {
    g.Keys + set c, d | c in g && d in g[c] :: d
  }

  /** Everything a container waits for stands before it. */
  ghost predicate PredsFirst(g: Graph, order: seq<Container>) {
    forall i :: 0 <= i < |order| ==> Preds(g, order[i]) <= ToSet(order[..i])
  }

  /** Everything in the set waits for something of the set. */
  predicate Stuck(g: Graph, s: set<Container>) {
    s != {} && forall c :: c in s ==> Preds(g, c) * s != {}
  }

  ghost predicate Loop(g: Graph, path: seq<Container>) {
    |path| >= 2 && path[0] == path[|path| - 1] && Descends(g, path)
  }

  ghost predicate Descends(g: Graph, path: seq<Container>) {
    forall i :: 0 <= i < |path| - 1 ==> path[i + 1] in Preds(g, path[i])
  }

  /** TopologicalSorter.static_order; None for its CycleError. */
  method StaticOrder(g: Graph) returns (r: Option<seq<Container>>)
    ensures r.None? <==> exists path :: Loop(g, path)
    ensures r.Some? ==> ToSet(r.value) == Nodes(g) && Distinct(r.value) && PredsFirst(g, r.value)
  {
    var order, left := [], Nodes(g);
    while left != {}
      invariant ToSet(order) + left == Nodes(g) && ToSet(order) !! left
      invariant Distinct(order) && PredsFirst(g, order)
      decreases left
    {
      var ready := set c | c in left && Preds(g, c) * left == {};
      if ready == {} {
        assert forall c :: c in left ==> c !in ready;
        StuckHasLoop(g, left);
        return None;
      }
      var c :| c in ready;
      GrowsOrdered(g, order, left, c);
      order := order + [c];
      left := left - {c};
    }
    OrderedHasNoLoop(g, order);
    return Some(order);
  }

  lemma GrowsOrdered(g: Graph, order: seq<Container>, left: set<Container>, c: Container)
    requires ToSet(order) + left == Nodes(g) && ToSet(order) !! left && Distinct(order) && PredsFirst(g, order)
    requires c in left && Preds(g, c) * left == {}
    ensures var next := order + [c];
            ToSet(next) == ToSet(order) + {c} && Distinct(next) && PredsFirst(g, next)
  {
    var next := order + [c];
    assert Preds(g, c) <= Nodes(g);
    assert c !in order;
    forall i | 0 <= i < |next|
      ensures Preds(g, next[i]) <= ToSet(next[..i])
    {
      assert next[..i] == order[..i];
      if i < |order| {
        assert next[i] == order[i];
      } else {
        assert next[i] == c && order[..i] == order;
        forall d | d in Preds(g, c)
          ensures d in ToSet(order)
        {
          assert d !in Preds(g, c) * left;
        }
      }
    }
  }

  /** A walk of n steps inside a set in which everything waits for something of the set. */
  lemma WalkInside(g: Graph, stuck: set<Container>, start: Container, n: nat) returns (path: seq<Container>)
    requires start in stuck && Stuck(g, stuck)
    ensures |path| == n + 1 && Descends(g, path) && ToSet(path) <= stuck
  {
    if n == 0 {
      path := [start];
    } else {
      var shorter := WalkInside(g, stuck, start, n - 1);
      var last := shorter[n - 1];
      assert last in ToSet(shorter);
      var c :| c in Preds(g, last) * stuck;
      path := shorter + [c];
    }
  }

  /** More elements than the set has: two are equal. */
  lemma {:induction false} Pigeons(path: seq<Container>, holes: set<Container>) returns (i: nat, j: nat)
    requires ToSet(path) <= holes && |path| > |holes|
    ensures i < j < |path| && path[i] == path[j]
    decreases |path|
  {
    var last, rest := path[|path| - 1], path[..|path| - 1];
    assert last in ToSet(path);
    if last in rest {
      i :| 0 <= i < |rest| && rest[i] == last;
      j := |path| - 1;
    } else {
      assert ToSet(rest) <= holes - {last} by {
        assert forall c :: c in rest ==> c in ToSet(path);
      }
      i, j := Pigeons(rest, holes - {last});
    }
  }

  lemma StuckHasLoop(g: Graph, stuck: set<Container>)
    requires Stuck(g, stuck)
    ensures exists path :: Loop(g, path)
  {
    var start :| start in stuck;
    var path := WalkInside(g, stuck, start, |stuck|);
    var i, j := Pigeons(path, stuck);
    assert Loop(g, path[i..j + 1]);
  }

  lemma OrderedHasNoLoop(g: Graph, order: seq<Container>)
    requires ToSet(order) == Nodes(g) && PredsFirst(g, order)
    ensures !exists path :: Loop(g, path)
  {
    if path :| Loop(g, path) {
      assert path[1] in Preds(g, path[0]);
      assert path[0] in ToSet(order);
      var i := First(order, path[0]);
      DescendsBelow(g, order, path, i);
      assert false;
    }
  }

  function First(order: seq<Container>, c: Container): (i: nat)
    requires c in order
    ensures i < |order| && order[i] == c && forall k :: 0 <= k < i ==> order[k] != c
  {
    if order[0] == c then 0 else 1 + First(order[1..], c)
  }

  /** Going down from what stands first at i stays before i. */
  lemma {:induction false} DescendsBelow(g: Graph, order: seq<Container>, path: seq<Container>, i: nat)
    requires PredsFirst(g, order) && |path| >= 2 && Descends(g, path) && i < |order| && order[i] == path[0]
    ensures path[|path| - 1] in order[..i]
    decreases |path|
  {
    assert path[1] in ToSet(order[..i]);
    if |path| > 2 {
      var j := First(order[..i], path[1]);
      assert order[j] == path[1];
      var rest := path[1..];
      assert Descends(g, rest) by {
        forall k | 0 <= k < |rest| - 1
          ensures rest[k + 1] in Preds(g, rest[k])
        {
          assert path[k + 1 + 1] in Preds(g, path[k + 1]);
        }
      }
      DescendsBelow(g, order, rest, j);
      assert order[..i][..j] == order[..j];
    }
  }

  // ---- the worklist ----

  /** The list, extended by those of `found` it lacks. */
  function Joined(list: seq<Container>, found: seq<Container>): (r: seq<Container>)
    ensures list <= r && ToSet(r) == ToSet(list) + ToSet(found)
    ensures Distinct(list) ==> Distinct(r)
    ensures ToSet(r) == ToSet(list) ==> r == list
    decreases |found|
  {
    if found == [] then list
    else Joined(if found[0] in list then list else list + [found[0]], found[1..])
  }

  function WithRefs(g: Graph, c: Container, found: seq<Container>): Graph {
    if found == [] then g else g[c := Preds(g, c) + ToSet(found)]
  }

  /** open_node: notes the references of a container until one fails. */
  method OpenNode(entries: seq<Entry>, c: Container, graph: Graph, list: seq<Container>)
    returns (graph': Graph, list': seq<Container>, failed: bool)
    ensures graph' == WithRefs(graph, c, Opened(entries))
    ensures list' == Joined(list, Opened(entries))
    ensures failed <==> AnyFails(entries)
  {
    hide Joined, WithRefs, Opened, AnyFails, ToSet;
    graph', list' := graph, list;
    var k := 0;
    assert entries[0..] == entries;
    while k < |entries|
      invariant k <= |entries|
      invariant WithRefs(graph', c, Opened(entries[k..])) == WithRefs(graph, c, Opened(entries))
      invariant Joined(list', Opened(entries[k..])) == Joined(list, Opened(entries))
      invariant AnyFails(entries) == AnyFails(entries[k..])
    {
      var e := entries[k];
      EntryStep(entries, k);
      NothingFound(graph', c, list');
      if Fails(e) {
        return graph', list', true;
      }
      if IsReference(e) {
        var referenced := Referenced(e);
        OneFound(graph', c, list', referenced, Opened(entries[k + 1..]));
        graph' := graph'[c := Preds(graph', c) + {referenced}];
        if referenced !in list' {
          list' := list' + [referenced];
        }
      }
      k := k + 1;
    }
    assert entries[k..] == [];
    NothingFound(graph', c, list');
    EntriesEnd();
    return graph', list', false;
  }

  lemma EntryStep(es: seq<Entry>, k: nat)
    requires k < |es|
    ensures var found, later := Opened(es[k..]), Opened(es[k + 1..]);
            if Fails(es[k]) then found == [] && AnyFails(es[k..])
            else
              && found == (if IsReference(es[k]) then [Referenced(es[k])] + later else later)
              && AnyFails(es[k..]) == AnyFails(es[k + 1..])
  {
    assert es[k..][0] == es[k] && es[k..][1..] == es[k + 1..];
  }

  lemma EntriesEnd()
    ensures Opened([]) == [] && !AnyFails([])
  {
  }

  predicate AnyFails(es: seq<Entry>) {
    es != [] && (Fails(es[0]) || AnyFails(es[1..]))
  }

  lemma NothingFound(g: Graph, c: Container, list: seq<Container>)
    ensures WithRefs(g, c, []) == g && Joined(list, []) == list
  {
  }

  lemma OneFound(g: Graph, c: Container, list: seq<Container>, d: Container, found: seq<Container>)
    ensures WithRefs(g[c := Preds(g, c) + {d}], c, found) == WithRefs(g, c, [d] + found)
    ensures Joined(if d in list then list else list + [d], found) == Joined(list, [d] + found)
  {
    hide Joined, ToSet;
    JoinedStep(list, d, found);
    assert ToSet([d] + found) == {d} + ToSet(found) by { SetAfter(d, found); }
    SetAfter(d, []);
    var some := Preds(g, c) + {d};
    assert some + ToSet(found) == Preds(g, c) + ({d} + ToSet(found));
    if found == [] {
      assert some == Preds(g, c) + ToSet([d] + found);
    } else {
      assert g[c := some][c := some + ToSet(found)] == g[c := some + ToSet(found)];
    }
  }

  lemma SetAfter(d: Container, found: seq<Container>)
    ensures ToSet([d] + found) == {d} + ToSet(found) && (found == [] ==> ToSet(found) == {})
  {
  }

  lemma JoinedStep(list: seq<Container>, d: Container, found: seq<Container>)
    ensures Joined(if d in list then list else list + [d], found) == Joined(list, [d] + found)
  {
    assert ([d] + found)[0] == d && ([d] + found)[1..] == found;
  }

  /** A set that nothing refers out of: the references known to the catalogue are finitely many. */
  ghost predicate ClosedUnder(w: Catalogue, universe: set<Container>) {
    forall c :: c in universe ==> forall d :: d in Refs(w, c) ==> d in universe
  }

  /** The graph holds the references of the containers opened so far, and the list what they refer to. */
  ghost predicate HasOpened(w: Catalogue, graph: Graph, visited: seq<Container>, list: seq<Container>) {
    && graph.Keys <= ToSet(visited)
    && forall c :: c in visited ==> Preds(graph, c) == ToSet(Refs(w, c)) && ToSet(Refs(w, c)) <= ToSet(list)
  }

  lemma StillOpened(w: Catalogue, graph: Graph, visited: seq<Container>, list: seq<Container>, c: Container)
    requires HasOpened(w, graph, visited, list)
    ensures HasOpened(w, WithRefs(graph, c, Refs(w, c)), visited + [c], Joined(list, Refs(w, c)))
  {
    hide Joined, Refs;
    var found := Refs(w, c);
    var graph' := WithRefs(graph, c, found);
    assert c !in visited ==> Preds(graph, c) == {};
    assert forall d :: d in visited + [c] <==> d in visited || d == c;
    assert found == [] ==> ToSet(found) == {};
    assert Preds(graph', c) == ToSet(found);
    assert forall d :: d != c ==> Preds(graph', d) == Preds(graph, d);
  }

  lemma ReachesOn(w: Catalogue, inputs: seq<Container>, c: Container, d: Container)
    requires ReachedFrom(w, inputs, c) && d in Refs(w, c)
    ensures ReachedFrom(w, inputs, d)
  {
    var path :| Trail(w, path) && path[0] in inputs && path[|path| - 1] == c;
    var longer := path + [d];
    assert Trail(w, longer);
    assert longer[0] in inputs && longer[|longer| - 1] == d;
  }

  lemma {:induction false} TrailStaysInside(w: Catalogue, inside: set<Container>, path: seq<Container>, i: nat)
    requires ClosedUnder(w, inside) && Trail(w, path) && path[0] in inside && i < |path|
    ensures path[i] in inside
  {
    if i > 0 {
      TrailStaysInside(w, inside, path, i - 1);
    }
  }

  /** Exactly what is reached ends up in a closed list of reached containers. */
  lemma ListedAreReached(w: Catalogue, inputs: seq<Container>, list: seq<Container>)
    requires ToSet(inputs) <= ToSet(list) && ClosedUnder(w, ToSet(list))
    requires forall c :: c in list ==> ReachedFrom(w, inputs, c)
    ensures forall c :: c in list <==> ReachedFrom(w, inputs, c)
  {
    forall c | ReachedFrom(w, inputs, c)
      ensures c in list
    {
      var path :| Trail(w, path) && path[0] in inputs && path[|path| - 1] == c;
      assert path[0] in ToSet(inputs);
      TrailStaysInside(w, ToSet(list), path, |path| - 1);
      assert c in ToSet(list);
    }
  }

  lemma LoopsAreCycles(w: Catalogue, inputs: seq<Container>, graph: Graph, list: seq<Container>)
    requires HasOpened(w, graph, list, list) && forall c :: c in list <==> ReachedFrom(w, inputs, c)
    ensures (exists path :: Loop(graph, path)) <==> CyclicFrom(w, inputs)
  {
    hide ReachedFrom, Refs;
    if path :| Loop(graph, path) {
      forall i | 0 <= i < |path| - 1
        ensures path[i] in list && path[i + 1] in Refs(w, path[i])
      {
        assert path[i + 1] in Preds(graph, path[i]);
        assert path[i] in ToSet(list);
        assert path[i + 1] in ToSet(Refs(w, path[i]));
      }
      assert Trail(w, path);
    }
    if CyclicFrom(w, inputs) {
      var path :| Trail(w, path) && |path| >= 2 && path[0] == path[|path| - 1] && ReachedFrom(w, inputs, path[0]);
      assert ClosedUnder(w, ToSet(list)) by { OpenedIsClosed(w, graph, list); }
      assert path[0] in ToSet(list);
      forall i | 0 <= i < |path| - 1
        ensures path[i + 1] in Preds(graph, path[i])
      {
        TrailStaysInside(w, ToSet(list), path, i);
        assert path[i + 1] in ToSet(Refs(w, path[i]));
      }
      assert Loop(graph, path);
    }
  }

  lemma OpenedIsClosed(w: Catalogue, graph: Graph, list: seq<Container>)
    requires HasOpened(w, graph, list, list)
    ensures ClosedUnder(w, ToSet(list))
  {
    forall c, d | c in ToSet(list) && d in Refs(w, c)
      ensures d in ToSet(list)
    {
      assert c in list && d in ToSet(Refs(w, c));
    }
  }

  function Without(list: seq<Container>, out: seq<Container>): (r: seq<Container>)
    ensures forall c :: c in r <==> c in list && c !in out
    ensures Distinct(list) ==> Distinct(r)
  {
    if list == [] then []
    else
      var rest := Without(list[1..], out);
      if list[0] in out then rest else [list[0]] + rest
  }

  /** The containers outside the dependency graph, as they come. */
  method Others(list: seq<Container>, first: seq<Container>) returns (rest: seq<Container>)
    ensures rest == Without(list, first)
  {
    hide Without;
    rest := [];
    WithoutNone(first);
    for i := 0 to |list|
      invariant rest == Without(list[..i], first)
    {
      WithoutAppend(list[..i], list[i], first);
      assert list[..i + 1] == list[..i] + [list[i]];
      if list[i] !in first {
        rest := rest + [list[i]];
      }
    }
    assert list[..|list|] == list;
  }

  /** Every reference stands before what refers to it. */
  ghost predicate ReferencesFirst(w: Catalogue, order: seq<Container>) {
    forall i :: 0 <= i < |order| ==> ToSet(Refs(w, order[i])) <= ToSet(order[..i])
  }

  lemma OrderedByReference(w: Catalogue, graph: Graph, list: seq<Container>, first: seq<Container>)
    requires HasOpened(w, graph, list, list)
    requires ToSet(first) == Nodes(graph) && Distinct(first) && PredsFirst(graph, first)
    ensures var order := first + Without(list, first);
            && ToSet(order) == ToSet(list) && ReferencesFirst(w, order)
            && (Distinct(list) ==> Distinct(order))
  {
    hide Refs;
    var rest := Without(list, first);
    var order := first + rest;
    forall c | c in first
      ensures c in list
    {
      assert c in Nodes(graph);
      if c !in graph {
        var d :| d in graph && c in graph[d];
        assert d in ToSet(list) && c in Preds(graph, d);
        assert c in ToSet(list);
      } else {
        assert c in ToSet(list);
      }
    }
    forall i | 0 <= i < |order|
      ensures ToSet(Refs(w, order[i])) <= ToSet(order[..i])
    {
      if i < |first| {
        assert order[..i] == first[..i] && order[i] == first[i] && first[i] in first;
      } else {
        assert order[i] == rest[i - |first|] && order[i] in rest;
        assert order[i] !in ToSet(first);
        assert Preds(graph, order[i]) == {};
      }
    }
  }

  /** ensure_mount_reference_container, on the containers its argument delivers. `universe` bounds the references
      that can turn up. No order is returned when the sorter refuses a cycle; `failures` are the containers named
      in the error message. */
  method EnsureMountReferenceContainer(w: Catalogue, inputs: seq<Container>, ghost universe: set<Container>)
    returns (order: Option<seq<Container>>, failures: set<Container>)
    requires ToSet(inputs) <= universe && ClosedUnder(w, universe)
    ensures order.None? <==> CyclicFrom(w, inputs)
    ensures order.Some? ==>
              && (forall c :: c in order.value <==> ReachedFrom(w, inputs, c))
              && ReferencesFirst(w, order.value)
              && (Distinct(inputs) ==> Distinct(order.value))
    ensures forall c :: c in failures <==> ReachedFrom(w, inputs, c) && AnyFails(w(c))
  {
    hide ReachedFrom, CyclicFrom, HasOpened, Joined, WithRefs, AnyFails, Opened, ReferencesFirst, Loop, Without;
    var list, graph: Graph, k := inputs, map[], 0;
    failures := {};
    InputsAreReached(w, inputs);
    NothingOpened(w, list);
    while k < |list|
      invariant k <= |list| && inputs <= list
      invariant ToSet(list) <= universe
      invariant forall c :: c in list ==> ReachedFrom(w, inputs, c)
      invariant HasOpened(w, graph, list[..k], list)
      invariant Distinct(inputs) ==> Distinct(list)
      invariant forall c :: c in failures <==> c in list[..k] && AnyFails(w(c))
      decreases universe - ToSet(list), |list| - k
    {
      var c := list[k];
      ghost var before := list;
      StillOpened(w, graph, list[..k], list, c);
      ReachesAll(w, inputs, c);
      var failed;
      graph, list, failed := OpenNode(w(c), c, graph, list);
      assert list[..k + 1] == before[..k] + [c];
      assert forall d :: d in list ==> d in before || d in Refs(w, c);
      assert ToSet(list) == ToSet(before) ==> list == before;
      if failed {
        failures := failures + {c};
      }
      k := k + 1;
    }
    assert list[..k] == list;
    OpenedIsClosed(w, graph, list);
    ListedAreReached(w, inputs, list);
    LoopsAreCycles(w, inputs, graph, list);
    var sorted := StaticOrder(graph);
    if sorted.None? {
      return None, failures;
    }
    var first := sorted.value;
    OrderedByReference(w, graph, list, first);
    var rest := Others(list, first);
    assert forall c :: c in ToSet(first + rest) <==> c in ToSet(list);
    return Some(first + rest), failures;
  }

  lemma InputsAreReached(w: Catalogue, inputs: seq<Container>)
    ensures forall c :: c in inputs ==> ReachedFrom(w, inputs, c)
  {
    forall c | c in inputs
      ensures ReachedFrom(w, inputs, c)
    {
      assert Trail(w, [c]) && [c][0] in inputs;
    }
  }

  lemma ReachesAll(w: Catalogue, inputs: seq<Container>, c: Container)
    requires ReachedFrom(w, inputs, c)
    ensures forall d :: d in Refs(w, c) ==> ReachedFrom(w, inputs, d)
  {
    forall d | d in Refs(w, c) { ReachesOn(w, inputs, c, d); }
  }

  lemma NothingOpened(w: Catalogue, list: seq<Container>)
    ensures HasOpened(w, map[], list[..0], list)
  {
  }

  lemma WithoutNone(out: seq<Container>)
    ensures Without([], out) == []
  {
  }

  lemma {:induction false} WithoutAppend(list: seq<Container>, c: Container, out: seq<Container>)
    ensures Without(list + [c], out) == Without(list, out) + if c in out then [] else [c]
  {
    if list == [] {
      assert list + [c] == [c];
      assert Without([c][1..], out) == [];
    } else {
      assert (list + [c])[0] == list[0] && (list + [c])[1..] == list[1..] + [c];
      WithoutAppend(list[1..], c, out);
    }
  }
}
