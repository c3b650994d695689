/** Resolving a Wildland path step by step, with answers remembered between searches. */
module Search {
  import opened Prelude

  type Part = string
  type Owner = string

  /** A step up to its equality: whose it is, its container, and what else tells it apart (a user and a bridge). */
  datatype Step = Step(owner: Owner, container: Option<nat>, via: Option<nat>)

  /** Where a search starts: the initial owner, and a hint where to find his user manifest. */
  datatype Origin = Origin(owner: Owner, hint: Option<string>)

  /** What an answer is remembered under. The hint is in neither key, the initial owner not in the second. */
  datatype Key = First(owner: Owner, part: Part) | After(step: Step, part: Part)

  type Memo = map<Key, set<Step>>

  /** What there is to find, in order and with repetitions: containers of an owner's stored here, steps through
      bridges of an owner's stored here, what is found in the storage of a step's container, and the steps of the
      catalogues of a user stored here or found at a hint. */
  datatype World = World(
    local: (Owner, Part) -> seq<nat>,
    bridged: (Owner, Part) -> seq<Step>,
    below: (Step, Part) -> seq<Step>,
    catalog: Owner -> seq<Step>,
    hinted: (string, Owner) -> seq<Step>)

  /** The lookups as one search makes them. */
  type Lookups = Key -> seq<Step>

  // ---- lookups ----

  function Located(containers: seq<nat>, start: Owner): seq<Step> {
    seq(|containers|, i requires 0 <= i < |containers| => Step(start, Some(containers[i]), None))
  }

  /** _resolve_local, in a search that started at `start`: that is whose steps it yields for containers. */
  function Local(w: World, start: Owner, owner: Owner, part: Part): seq<Step> {
    Located(w.local(owner, part), start) + w.bridged(owner, part)
  }

  /** _resolve_next */
  function Next(w: World, start: Owner, step: Step, part: Part): seq<Step> {
    if step.container.None? then [] else Local(w, start, step.owner, part) + w.below(step, part)
  }

  function NextOfAll(w: World, start: Owner, steps: seq<Step>, part: Part): seq<Step> {
    if steps == [] then [] else Next(w, start, steps[0], part) + NextOfAll(w, start, steps[1..], part)
  }

  /** _resolve_first */
  function FirstSteps(w: World, from: Origin, part: Part): seq<Step> {
    (if from.hint.Some? then NextOfAll(w, from.owner, w.hinted(from.hint.value, from.owner), part) else [])
    + Local(w, from.owner, from.owner, part)
    + NextOfAll(w, from.owner, w.catalog(from.owner), part)
  }

  function LookupsOf(w: World, from: Origin): Lookups {
    (key: Key) =>
      match key
      case First(owner, part) => FirstSteps(w, from.(owner := owner), part)
      case After(step, part) => Next(w, from.owner, step, part)
  }

  // ---- what is promised ----

  /** Steps that follow the parts of a path: the first resolves the first part, each later one the next part. */
  ghost predicate Chain(l: Lookups, owner: Owner, parts: seq<Part>, chain: seq<Step>) {
    && |chain| == |parts| > 0
    && chain[0] in l(First(owner, parts[0]))
    && forall i :: 1 <= i < |chain| ==> chain[i] in l(After(chain[i - 1], parts[i]))
  }

  ghost predicate ChainEnds(l: Lookups, owner: Owner, parts: seq<Part>, end: Step) {
    exists chain :: Chain(l, owner, parts, chain) && chain[|chain| - 1] == end
  }

  // ---- answers with a memo ----

  function Answer(memo: Memo, l: Lookups, key: Key): set<Step> {
    if key in memo then memo[key] else ToSet(l(key))
  }

  ghost predicate SameAnswers(memo: Memo, memo': Memo, l: Lookups) {
    forall key :: Answer(memo, l, key) == Answer(memo', l, key)
  }

  /** From `step`, parts i and later lead to `end`. */
  ghost predicate Leads(memo: Memo, l: Lookups, parts: seq<Part>, step: Step, i: nat, end: Step)
    requires i <= |parts|
    decreases |parts| - i
  {
    if i == |parts| then end == step
    else exists next :: next in Answer(memo, l, After(step, parts[i])) && Leads(memo, l, parts, next, i + 1, end)
  }

  ghost predicate Endpoint(memo: Memo, l: Lookups, owner: Owner, parts: seq<Part>, end: Step)
    requires parts != []
  {
    exists first :: first in Answer(memo, l, First(owner, parts[0])) && Leads(memo, l, parts, first, 1, end)
  }

  /** On the way from `step` along parts i and later, `key` is looked up. */
  ghost predicate AsksAfter(memo: Memo, l: Lookups, parts: seq<Part>, step: Step, i: nat, key: Key)
    requires i <= |parts|
    decreases |parts| - i
  {
    i < |parts| &&
    (key == After(step, parts[i]) ||
     exists next :: next in Answer(memo, l, After(step, parts[i])) && AsksAfter(memo, l, parts, next, i + 1, key))
  }

  ghost predicate Asks(memo: Memo, l: Lookups, owner: Owner, parts: seq<Part>, key: Key)
    requires parts != []
  {
    key == First(owner, parts[0]) ||
    exists first :: first in Answer(memo, l, First(owner, parts[0])) && AsksAfter(memo, l, parts, first, 1, key)
  }

  /** Results so far, none repeated; the search stops when its caller has as many as it wants. */
  ghost predicate Results(found: seq<Step>, limit: Option<nat>, stopped: bool) {
    Distinct(found) && if stopped then limit == Some(|found|) else limit.Some? ==> |found| < limit.value
  }

  /** What one search does: each endpoint once, as the memo has it; and the memo gains answers to what was asked,
      to all of it when the search was not stopped. */
  ghost predicate Searched(l: Lookups, owner: Owner, parts: seq<Part>, limit: Option<nat>, memo: Memo, memo': Memo,
                           found: seq<Step>, stopped: bool)
    requires parts != []
  {
    && Results(found, limit, stopped)
    && (forall end :: end in found ==> Endpoint(memo, l, owner, parts, end))
    && (!stopped ==> forall end :: Endpoint(memo, l, owner, parts, end) ==> end in found)
    && SameAnswers(memo, memo', l) && memo.Keys <= memo'.Keys
    && (forall key :: key in memo' && key !in memo ==> Asks(memo, l, owner, parts, key))
    && (!stopped ==> forall key :: Asks(memo, l, owner, parts, key) ==> key in memo')
  }

  method SomeOrder(s: set<Step>) returns (order: seq<Step>)
    ensures ToSet(order) == s
  {
    order := [];
    var left := s;
    while left != {}
      invariant ToSet(order) + left == s
    {
      var x :| x in left;
      assert ToSet(order + [x]) == ToSet(order) + {x};
      order := order + [x];
      left := left - {x};
    }
  }

  /** The memo all searches share. */
  class ResolveCache {
    var memo: Memo

    constructor ()
      ensures memo == map[]
    {
      memo := map[];
    }

    method Clear()
      modifies this
      ensures memo == map[]
    {
      memo := map[];
    }

    method NextSteps(l: Lookups, key: Key) returns (steps: seq<Step>)
      ensures ToSet(steps) == Answer(memo, l, key)
    {
      if key in memo {
        steps := SomeOrder(memo[key]);
      } else {
        steps := l(key);
      }
    }

    /** _resolve_rest, its results handed to the loop in _resolve_all, whose caller stops at `limit` results. A
        search that stops remembers nothing of the lookups it left unfinished. */
    method ResolveRest(l: Lookups, parts: seq<Part>, step: Step, i: nat, found: seq<Step>, limit: Option<nat>,
                       ghost start: Memo)
      returns (found': seq<Step>, stopped: bool)
      requires i <= |parts| && Results(found, limit, false) && SameAnswers(start, memo, l)
      modifies this
      ensures SameAnswers(start, memo, l) && old(memo).Keys <= memo.Keys
      ensures found <= found' && Results(found', limit, stopped)
      ensures forall end :: end in found' ==> end in found || Leads(start, l, parts, step, i, end)
      ensures !stopped ==> forall end :: Leads(start, l, parts, step, i, end) ==> end in found'
      ensures forall key :: key in memo ==> key in old(memo) || AsksAfter(start, l, parts, step, i, key)
      ensures !stopped ==> forall key :: AsksAfter(start, l, parts, step, i, key) ==> key in memo
      decreases |parts| - i
    {
      hide SameAnswers, Answer;
      if i == |parts| {
        if step in found {
          return found, false;
        }
        return found + [step], limit == Some(|found| + 1);
      }
      var key := After(step, parts[i]);
      var steps := NextSteps(l, key);
      SameAnswer(start, memo, l, key);
      var seen := {};
      found', stopped := found, false;
      for k := 0 to |steps|
        invariant seen == ToSet(steps[..k])
        invariant SameAnswers(start, memo, l) && old(memo).Keys <= memo.Keys
        invariant found <= found' && Results(found', limit, false)
        invariant forall end :: end in found' ==> end in found || Leads(start, l, parts, step, i, end)
        invariant forall next, end :: next in seen && Leads(start, l, parts, next, i + 1, end) ==> end in found'
        invariant forall asked :: asked in memo ==> asked in old(memo) || AsksAfter(start, l, parts, step, i, asked)
        invariant forall next, asked :: next in seen && AsksAfter(start, l, parts, next, i + 1, asked) ==> asked in memo
      {
        var next := steps[k];
        assert steps[..k + 1] == steps[..k] + [next];
        assert next in Answer(start, l, key);
        if next !in seen {
          seen := seen + {next};
          ghost var before := found';
          found', stopped := ResolveRest(l, parts, next, i + 1, found', limit, start);
          if stopped {
            return;
          }
          assert forall end :: end in before ==> end in found';
        }
      }
      assert steps[..|steps|] == steps;
      Remember(start, memo, l, key);
      memo := memo[key := seen];
    }

    /** _resolve_all, for a caller that takes at most `limit` results, whatever the memo holds and wherever earlier
        searches stopped. */
    method ResolveAll(w: World, from: Origin, parts: seq<Part>, limit: Option<nat>)
      returns (found: seq<Step>, stopped: bool)
      requires parts != []
      modifies this
      ensures Searched(LookupsOf(w, from), from.owner, parts, limit, old(memo), memo, found, stopped)
    {
      hide SameAnswers, Answer;
      var l := LookupsOf(w, from);
      ghost var start := memo;
      SameIsSame(memo, l);
      found, stopped := [], false;
      if limit == Some(0) {
        return [], true;
      }
      var key := First(from.owner, parts[0]);
      var steps := NextSteps(l, key);
      var seen := {};
      for k := 0 to |steps|
        invariant seen == ToSet(steps[..k])
        invariant SameAnswers(start, memo, l) && start.Keys <= memo.Keys
        invariant Results(found, limit, false)
        invariant forall end :: end in found ==> Endpoint(start, l, from.owner, parts, end)
        invariant forall first, end :: first in seen && Leads(start, l, parts, first, 1, end) ==> end in found
        invariant forall asked :: asked in memo && asked !in start ==> Asks(start, l, from.owner, parts, asked)
        invariant forall first, asked :: first in seen && AsksAfter(start, l, parts, first, 1, asked) ==> asked in memo
      {
        var first := steps[k];
        assert steps[..k + 1] == steps[..k] + [first];
        if first !in seen {
          seen := seen + {first};
          found, stopped := ResolveRest(l, parts, first, 1, found, limit, start);
          if stopped {
            return;
          }
        }
      }
      assert steps[..|steps|] == steps;
      Remember(start, memo, l, key);
      memo := memo[key := seen];
    }
  }

  lemma SameIsSame(memo: Memo, l: Lookups)
    ensures SameAnswers(memo, memo, l)
  {
  }

  lemma SameAnswer(memo: Memo, memo': Memo, l: Lookups, key: Key)
    requires SameAnswers(memo, memo', l)
    ensures Answer(memo, l, key) == Answer(memo', l, key)
  {
  }

  lemma Remember(start: Memo, memo: Memo, l: Lookups, key: Key)
    requires SameAnswers(start, memo, l)
    ensures SameAnswers(start, memo[key := Answer(start, l, key)], l)
  {
    forall k
      ensures Answer(start, l, k) == Answer(memo[key := Answer(start, l, key)], l, k)
    {
      assert Answer(start, l, k) == Answer(memo, l, k);
    }
  }

  // ---- transparency ----

  /** What is remembered of the lookups of a search is what they yield. */
  ghost predicate Right(memo: Memo, l: Lookups, owner: Owner, parts: seq<Part>)
    requires parts != []
  {
    forall key :: key in memo && Asks(map[], l, owner, parts, key) ==> memo[key] == ToSet(l(key))
  }

  lemma {:induction false} SameAfter(memo: Memo, l: Lookups, parts: seq<Part>, step: Step, i: nat)
    requires i <= |parts|
    requires forall key :: key in memo && AsksAfter(map[], l, parts, step, i, key) ==> memo[key] == ToSet(l(key))
    ensures forall end :: Leads(memo, l, parts, step, i, end) <==> Leads(map[], l, parts, step, i, end)
    ensures forall key :: AsksAfter(memo, l, parts, step, i, key) <==> AsksAfter(map[], l, parts, step, i, key)
    decreases |parts| - i
  {
    if i < |parts| {
      var key := After(step, parts[i]);
      var j := i + 1;
      assert Answer(memo, l, key) == Answer(map[], l, key) by { assert AsksAfter(map[], l, parts, step, i, key); }
      forall next | next in Answer(memo, l, key)
        ensures forall end :: Leads(memo, l, parts, next, j, end) <==> Leads(map[], l, parts, next, j, end)
        ensures forall k :: AsksAfter(memo, l, parts, next, j, k) <==> AsksAfter(map[], l, parts, next, j, k)
      {
        SameAfter(memo, l, parts, next, j);
      }
    }
  }

  lemma SameSearch(memo: Memo, l: Lookups, owner: Owner, parts: seq<Part>)
    requires parts != [] && Right(memo, l, owner, parts)
    ensures forall end :: Endpoint(memo, l, owner, parts, end) <==> Endpoint(map[], l, owner, parts, end)
    ensures forall key :: Asks(memo, l, owner, parts, key) <==> Asks(map[], l, owner, parts, key)
  {
    hide Leads, AsksAfter;
    var key := First(owner, parts[0]);
    assert Answer(memo, l, key) == Answer(map[], l, key) by { assert Asks(map[], l, owner, parts, key); }
    forall first | first in Answer(memo, l, key)
      ensures forall end :: Leads(memo, l, parts, first, 1, end) <==> Leads(map[], l, parts, first, 1, end)
      ensures forall k :: AsksAfter(memo, l, parts, first, 1, k) <==> AsksAfter(map[], l, parts, first, 1, k)
    {
      SameAfter(memo, l, parts, first, 1);
    }
  }

  lemma {:induction false} LeadsIsChain(l: Lookups, owner: Owner, parts: seq<Part>, chain: seq<Step>, end: Step)
    returns (whole: seq<Step>)
    requires 0 < |chain| <= |parts| && Chain(l, owner, parts[..|chain|], chain)
    requires Leads(map[], l, parts, chain[|chain| - 1], |chain|, end)
    ensures Chain(l, owner, parts, whole) && whole[|whole| - 1] == end
    decreases |parts| - |chain|
  {
    var i := |chain|;
    if i == |parts| {
      assert parts[..i] == parts;
      whole := chain;
    } else {
      var next :| next in Answer(map[], l, After(chain[i - 1], parts[i])) && Leads(map[], l, parts, next, i + 1, end);
      var longer := chain + [next];
      forall k | 1 <= k < |longer|
        ensures longer[k] in l(After(longer[k - 1], parts[..i + 1][k]))
      {
        assert k < i ==> chain[k] in l(After(chain[k - 1], parts[..i][k]));
      }
      whole := LeadsIsChain(l, owner, parts, longer, end);
    }
  }

  lemma {:induction false} ChainLeads(l: Lookups, owner: Owner, parts: seq<Part>, chain: seq<Step>, i: nat)
    requires Chain(l, owner, parts, chain) && 0 < i <= |chain|
    ensures Leads(map[], l, parts, chain[i - 1], i, chain[|chain| - 1])
    decreases |chain| - i
  {
    if i < |chain| {
      assert chain[i] in Answer(map[], l, After(chain[i - 1], parts[i]));
      ChainLeads(l, owner, parts, chain, i + 1);
    }
  }

  /** When the memo is right about the lookups of a search, the endpoints are exactly the ends of chains: nothing
      remembered shows. */
  lemma MemoIsTransparent(memo: Memo, l: Lookups, owner: Owner, parts: seq<Part>)
    requires parts != [] && Right(memo, l, owner, parts)
    ensures forall end :: Endpoint(memo, l, owner, parts, end) <==> ChainEnds(l, owner, parts, end)
  {
    SameSearch(memo, l, owner, parts);
    forall end
      ensures Endpoint(map[], l, owner, parts, end) <==> ChainEnds(l, owner, parts, end)
    {
      if Endpoint(map[], l, owner, parts, end) {
        var first :| first in Answer(map[], l, First(owner, parts[0])) && Leads(map[], l, parts, first, 1, end);
        assert Chain(l, owner, parts[..1], [first]);
        var chain := LeadsIsChain(l, owner, parts, [first], end);
      }
      if chain :| Chain(l, owner, parts, chain) && chain[|chain| - 1] == end {
        ChainLeads(l, owner, parts, chain, 1);
        assert chain[0] in Answer(map[], l, First(owner, parts[0]));
      }
    }
  }

  // ---- runs of searches ----

  datatype Query = Query(from: Origin, parts: seq<Part>, limit: Option<nat>)

  datatype Outcome = Outcome(found: seq<Step>, stopped: bool)

  /** The results are the ends of chains, all of them when the search was not stopped. */
  ghost predicate Correct(w: World, q: Query, r: Outcome) {
    && (forall end :: end in r.found ==> ChainEnds(LookupsOf(w, q.from), q.from.owner, q.parts, end))
    && (!r.stopped ==> forall end :: ChainEnds(LookupsOf(w, q.from), q.from.owner, q.parts, end) ==> end in r.found)
  }

  /** Searches one after the other, from an empty memo. */
  ghost predicate Run(w: World, qs: seq<Query>, rs: seq<Outcome>, memos: seq<Memo>) {
    && |rs| == |qs| && |memos| == |qs| + 1 && memos[0] == map[]
    && forall i :: 0 <= i < |qs| ==>
         qs[i].parts != [] &&
         Searched(LookupsOf(w, qs[i].from), qs[i].from.owner, qs[i].parts, qs[i].limit, memos[i], memos[i + 1],
                  rs[i].found, rs[i].stopped)
  }

  ghost predicate AsksFor(w: World, q: Query, key: Key) {
    q.parts != [] && Asks(map[], LookupsOf(w, q.from), q.from.owner, q.parts, key)
  }

  /** A lookup that two of the searches make yields the same in both. */
  ghost predicate Agree(w: World, qs: seq<Query>) {
    forall i, j, key :: 0 <= i < |qs| && 0 <= j < |qs| && AsksFor(w, qs[i], key) && AsksFor(w, qs[j], key) ==>
                          ToSet(LookupsOf(w, qs[i].from)(key)) == ToSet(LookupsOf(w, qs[j].from)(key))
  }

  /** Every remembered answer is what a lookup of an earlier search yields. */
  ghost predicate FromSearches(w: World, qs: seq<Query>, memo: Memo) {
    forall key :: key in memo ==>
                    exists i :: 0 <= i < |qs| && AsksFor(w, qs[i], key) && memo[key] == ToSet(LookupsOf(w, qs[i].from)(key))
  }

  /** One search of a run. */
  lemma SearchIsCorrect(w: World, qs: seq<Query>, k: nat, memo: Memo, memo': Memo, r: Outcome)
    requires Agree(w, qs) && k < |qs| && qs[k].parts != [] && FromSearches(w, qs[..k], memo)
    requires var q := qs[k];
             Searched(LookupsOf(w, q.from), q.from.owner, q.parts, q.limit, memo, memo', r.found, r.stopped)
    ensures Correct(w, qs[k], r) && FromSearches(w, qs[..k + 1], memo')
  {
    hide Asks, Endpoint, Results, ChainEnds, LookupsOf;
    var q := qs[k];
    var l := LookupsOf(w, q.from);
    forall key | key in memo && Asks(map[], l, q.from.owner, q.parts, key)
      ensures memo[key] == ToSet(l(key))
    {
      var i :| 0 <= i < k && AsksFor(w, qs[..k][i], key) && memo[key] == ToSet(LookupsOf(w, qs[..k][i].from)(key));
      assert AsksFor(w, qs[i], key) && AsksFor(w, q, key);
    }
    MemoIsTransparent(memo, l, q.from.owner, q.parts);
    SameSearch(memo, l, q.from.owner, q.parts);
    var asked := qs[..k + 1];
    forall key | key in memo'
      ensures exists i :: 0 <= i < |asked| && AsksFor(w, asked[i], key) && memo'[key] == ToSet(LookupsOf(w, asked[i].from)(key))
    {
      assert Answer(memo, l, key) == Answer(memo', l, key);
      if key in memo {
        var i :| 0 <= i < k && AsksFor(w, qs[..k][i], key) && memo[key] == ToSet(LookupsOf(w, qs[..k][i].from)(key));
        assert asked[i] == qs[..k][i];
      } else {
        assert asked[k] == q;
        assert AsksFor(w, q, key);
      }
    }
  }

  lemma {:induction false} RunKeepsMemo(w: World, qs: seq<Query>, rs: seq<Outcome>, memos: seq<Memo>, k: nat)
    requires Run(w, qs, rs, memos) && Agree(w, qs) && k <= |qs|
    ensures FromSearches(w, qs[..k], memos[k])
    ensures forall i :: 0 <= i < k ==> Correct(w, qs[i], rs[i])
  {
    hide Correct, FromSearches, Agree, Searched;
    if k == 0 {
      NothingRemembered(w);
      assert qs[..0] == [];
    } else {
      RunKeepsMemo(w, qs, rs, memos, k - 1);
      SearchIsCorrect(w, qs, k - 1, memos[k - 1], memos[k], rs[k - 1]);
    }
  }

  lemma NothingRemembered(w: World)
    ensures FromSearches(w, [], map[])
  {
  }

  /** In every run of searches, from whatever owners and hints, stopped or not, each finds what it should, as long
      as the lookups that two of them share yield the same in both. */
  lemma RunsAreCorrect(w: World, qs: seq<Query>, rs: seq<Outcome>, memos: seq<Memo>)
    requires Run(w, qs, rs, memos) && Agree(w, qs)
    ensures forall i :: 0 <= i < |qs| ==> Correct(w, qs[i], rs[i])
  {
    RunKeepsMemo(w, qs, rs, memos, |qs|);
  }

  // ---- when lookups agree ----

  /** The containers a lookup after a step finds stored here are found in another way too, as either owner's. */
  ghost predicate FoundAnyway(w: World, owner: Owner, other: Owner, step: Step, part: Part) {
    step.container.Some? ==>
      forall c :: c in w.local(step.owner, part) ==>
        Step(owner, Some(c), None) in Elsewhere(w, step, part) && Step(other, Some(c), None) in Elsewhere(w, step, part)
  }

  /** Whose steps the containers of a lookup become is the only thing that depends on where a search starts: the
      lookups of two searches after a step agree exactly when their owners are the same, or it shows no container
      stored here but those found anyway. */
  lemma AfterAgrees(w: World, from: Origin, other: Origin, step: Step, part: Part)
    ensures ToSet(LookupsOf(w, from)(After(step, part))) == ToSet(LookupsOf(w, other)(After(step, part))) <==>
            from.owner == other.owner || FoundAnyway(w, from.owner, other.owner, step, part)
  {
    if step.container.Some? && from.owner != other.owner {
      var rest := Elsewhere(w, step, part);
      NextHas(w, from.owner, step, part);
      NextHas(w, other.owner, step, part);
      var a, b := Next(w, from.owner, step, part), Next(w, other.owner, step, part);
      if ToSet(a) == ToSet(b) {
        forall c | c in w.local(step.owner, part)
          ensures Step(from.owner, Some(c), None) in rest && Step(other.owner, Some(c), None) in rest
        {
          assert Step(from.owner, Some(c), None) in ToSet(a) && Step(other.owner, Some(c), None) in ToSet(b);
        }
      }
      if forall c :: c in w.local(step.owner, part) ==> Step(from.owner, Some(c), None) in rest && Step(other.owner, Some(c), None) in rest {
        assert forall s :: s in a <==> s in b;
      }
    }
  }

  /** What a lookup after a step finds whoever asks. */
  function Elsewhere(w: World, step: Step, part: Part): seq<Step> {
    w.bridged(step.owner, part) + w.below(step, part)
  }

  lemma NextHas(w: World, start: Owner, step: Step, part: Part)
    requires step.container.Some?
    ensures forall s :: s in Next(w, start, step, part) <==>
                        s in Elsewhere(w, step, part) || exists c :: c in w.local(step.owner, part) && s == Step(start, Some(c), None)
  {
    var cs := w.local(step.owner, part);
    var located := Located(cs, start);
    assert forall i :: 0 <= i < |cs| ==> located[i] == Step(start, Some(cs[i]), None) && cs[i] in cs;
    forall c | c in cs
      ensures Step(start, Some(c), None) in located
    {
      var i :| 0 <= i < |cs| && cs[i] == c;
      assert located[i] in located;
    }
  }

  /** In every run of searches of one owner with one hint, each finds what it should: what is remembered never shows. */
  lemma OneOriginIsCorrect(w: World, qs: seq<Query>, rs: seq<Outcome>, memos: seq<Memo>)
    requires Run(w, qs, rs, memos)
    requires forall i, j :: 0 <= i < |qs| && 0 <= j < |qs| ==> qs[i].from == qs[j].from
    ensures forall i :: 0 <= i < |qs| ==> Correct(w, qs[i], rs[i])
  {
    assert Agree(w, qs);
    hide Correct, Run, Agree;
    RunsAreCorrect(w, qs, rs, memos);
  }

  // ---- two searches ----

  /** Both searches resolve their first part to one step. */
  ghost predicate OneStep(w: World, from: Origin, part: Part, step: Step) {
    ToSet(FirstSteps(w, from, part)) == {step}
  }

  lemma TwoParts(memo: Memo, l: Lookups, owner: Owner, first: Part, part: Part, step: Step)
    requires Answer(memo, l, First(owner, first)) == {step}
    ensures forall end :: Endpoint(memo, l, owner, [first, part], end) <==> end in Answer(memo, l, After(step, part))
    ensures Asks(memo, l, owner, [first, part], After(step, part)) && Asks(memo, l, owner, [first, part], First(owner, first))
    ensures forall key :: Asks(memo, l, owner, [first, part], key) ==> key == First(owner, first) || key == After(step, part)
  {
    var parts := [first, part];
    assert parts[1] == part && |parts| == 2;
    assert forall next, end :: Leads(memo, l, parts, next, 2, end) <==> end == next;
    assert forall next, key :: !AsksAfter(memo, l, parts, next, 2, key);
    assert AsksAfter(memo, l, parts, step, 1, After(step, part));
    forall end
      ensures Leads(memo, l, parts, step, 1, end) <==> end in Answer(memo, l, After(step, part))
    {
      if end in Answer(memo, l, After(step, part)) {
        assert Leads(memo, l, parts, end, 2, end);
      }
    }
    forall key
      ensures AsksAfter(memo, l, parts, step, 1, key) <==> key == After(step, part)
    {
    }
    hide Leads, AsksAfter;
  }

  /** Two searches come to the same step and look up the same part after it: the second is given what the first
      found, and that is right exactly when their lookups agree: for two owners, when the part shows no container
      stored here but those found anyway. */
  method SearchTwice(w: World, from: Origin, other: Origin, first: Part, otherFirst: Part, part: Part, step: Step)
    returns (found: seq<Step>)
    requires OneStep(w, from, first, step) && OneStep(w, other, otherFirst, step)
    ensures ToSet(found) == ToSet(LookupsOf(w, from)(After(step, part)))
    ensures Correct(w, Query(other, [otherFirst, part], None), Outcome(found, false)) <==>
            from.owner == other.owner || FoundAnyway(w, from.owner, other.owner, step, part)
  {
    AfterAgrees(w, from, other, step, part);
    hide FoundAnyway;
    var cache := new ResolveCache();
    ghost var l, l' := LookupsOf(w, from), LookupsOf(w, other);
    var found1, stopped := cache.ResolveAll(w, from, [first, part], None);
    ghost var memo := cache.memo;
    FirstIsSteps(w, from, first);
    FirstIsSteps(w, other, otherFirst);
    TwoParts(map[], l, from.owner, first, part, step);
    AnswersKept(map[], memo, l, After(step, part));
    AnswersKept(map[], memo, l, First(from.owner, first));
    found, stopped := cache.ResolveAll(w, other, [otherFirst, part], None);
    TwoParts(memo, l', other.owner, otherFirst, part, step);
    TwoParts(map[], l', other.owner, otherFirst, part, step);
    MemoIsTransparent(map[], l', other.owner, [otherFirst, part]);
    assert forall s :: s in found <==> s in memo[After(step, part)];
  }

  lemma FirstIsSteps(w: World, from: Origin, part: Part)
    ensures LookupsOf(w, from)(First(from.owner, part)) == FirstSteps(w, from, part)
  {
  }

  lemma AnswersKept(memo: Memo, memo': Memo, l: Lookups, key: Key)
    requires SameAnswers(memo, memo', l) && key in memo' && key !in memo
    ensures memo'[key] == ToSet(l(key))
  {
    assert Answer(memo, l, key) == Answer(memo', l, key);
  }

  lemma OnePart(memo: Memo, l: Lookups, owner: Owner, part: Part)
    ensures forall end :: Endpoint(memo, l, owner, [part], end) <==> end in Answer(memo, l, First(owner, part))
    ensures Asks(memo, l, owner, [part], First(owner, part))
  {
    var parts := [part];
    assert parts[0] == part && forall next, end :: Leads(memo, l, parts, next, 1, end) <==> end == next;
  }

  /** One owner looks for the same part with two hints: the second search is given what the first found, and that
      is right exactly when the hints make no difference. */
  method SearchWithHints(w: World, from: Origin, other: Origin, part: Part) returns (found: seq<Step>)
    requires from.owner == other.owner
    ensures ToSet(found) == ToSet(FirstSteps(w, from, part))
    ensures Correct(w, Query(other, [part], None), Outcome(found, false)) <==>
            ToSet(FirstSteps(w, from, part)) == ToSet(FirstSteps(w, other, part))
  {
    var cache := new ResolveCache();
    ghost var l, l', key := LookupsOf(w, from), LookupsOf(w, other), First(from.owner, part);
    var found1, stopped := cache.ResolveAll(w, from, [part], None);
    ghost var memo := cache.memo;
    FirstIsSteps(w, from, part);
    FirstIsSteps(w, other, part);
    OnePart(map[], l, from.owner, part);
    AnswersKept(map[], memo, l, key);
    found, stopped := cache.ResolveAll(w, other, [part], None);
    OnePart(memo, l', other.owner, part);
    OnePart(map[], l', other.owner, part);
    MemoIsTransparent(map[], l', other.owner, [part]);
    assert forall s :: s in found <==> s in memo[key];
  }

  // ---- owners that mislead each other ----

  /** Two users have bridges to the same step, whose owner has one container, stored here. */
  function Bridged(users: set<Owner>, first: Part, step: Step, part: Part, container: nat): World {
    World((o, p) => if o == step.owner && p == part then [container] else [],
          (o, p) => if o in users && p == first then [step] else [],
          (s, p) => [], o => [], (h, o) => [])
  }

  lemma BridgedLookups(from: Origin, users: set<Owner>, first: Part, step: Step, part: Part, container: nat)
    requires from.owner in users && from.hint.None? && first != part && step.container.Some?
    ensures var w := Bridged(users, first, step, part, container);
            OneStep(w, from, first, step) && LookupsOf(w, from)(After(step, part)) == [Step(from.owner, Some(container), None)]
  {
    var w := Bridged(users, first, step, part, container);
    assert w.local(from.owner, first) == [] && Located([], from.owner) == [];
    assert FirstSteps(w, from, first) == [step];
    assert Located([container], from.owner) == [Step(from.owner, Some(container), None)];
  }

  /** Two searches by which the second owner is given a step of the first one's. */
  method SecondOwnerMisled(owner: Owner, other: Owner, first: Part, step: Step, part: Part, container: nat)
    returns (found: seq<Step>)
    requires owner != other && first != part && step.container.Some?
    ensures ToSet(found) == {Step(owner, Some(container), None)}
    ensures !Correct(Bridged({owner, other}, first, step, part, container),
                     Query(Origin(other, None), [first, part], None), Outcome(found, false))
  {
    var w := Bridged({owner, other}, first, step, part, container);
    BridgedLookups(Origin(owner, None), {owner, other}, first, step, part, container);
    BridgedLookups(Origin(other, None), {owner, other}, first, step, part, container);
    found := SearchTwice(w, Origin(owner, None), Origin(other, None), first, first, part, step);
    assert Step(owner, Some(container), None) in ToSet([Step(owner, Some(container), None)]);
    assert Step(owner, Some(container), None) !in ToSet([Step(other, Some(container), None)]);
  }
}
