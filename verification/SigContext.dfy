/** The keys a signing context knows: who owns which, which key signs for an owner, and who may have signed. */
module SigContexts {
  import opened Prelude

  type KeyId = string

  /** A public key, which its fingerprint identifies. */
  datatype Pubkey = Pubkey(fingerprint: KeyId)

  /** One entry of the ownership table: a key and those who share it, in the order they were added. */
  datatype Owned = Owned(keyId: KeyId, owners: seq<KeyId>)

  datatype Context = Context(keys: map<KeyId, Pubkey>, privateKeys: set<KeyId>, ownership: seq<Owned>)

  const EMPTY := Context(map[], {}, [])

  // ---- queries ----

  /** The owners of a key, as the table has them. */
  function OwnersOf(table: seq<Owned>, keyId: KeyId): Option<seq<KeyId>> {
    if table == [] then None
    else if table[0].keyId == keyId then Some(table[0].owners)
    else OwnersOf(table[1..], keyId)
  }

  /** get_possible_owners */
  function PossibleOwners(c: Context, signer: KeyId): seq<KeyId> {
    [signer] + match OwnersOf(c.ownership, signer) case Some(os) => os case None => []
  }

  /** The keys an owner shares, in table order. */
  function SharedKeys(table: seq<Owned>, owner: KeyId): seq<KeyId> {
    if table == [] then []
    else (if owner in table[0].owners then [table[0].keyId] else []) + SharedKeys(table[1..], owner)
  }

  /** get_all_pubkeys; None stands for the error when the owner's primary key, or that of the table, is missing. */
  function AllPubkeys(c: Context, owner: KeyId): Option<set<KeyId>> {
    var shared := SharedKeys(c.ownership, owner);
    if owner in c.keys && forall k :: k in shared ==> k in c.keys
    then Some((set k | k in shared :: c.keys[k].fingerprint) + {c.keys[owner].fingerprint})
    else None
  }

  function Candidates(c: Context, owner: KeyId, onlyPrimary: bool): seq<KeyId> {
    (if owner in c.keys then [owner] else []) + if onlyPrimary then [] else SharedKeys(c.ownership, owner)
  }

  function FirstPrivate(c: Context, candidates: seq<KeyId>): Option<KeyId> {
    if candidates == [] then None
    else if candidates[0] in c.privateKeys then Some(candidates[0])
    else FirstPrivate(c, candidates[1..])
  }

  /** _get_private_key: the key that signs for an owner. */
  function SigningKey(c: Context, owner: KeyId, onlyPrimary: bool): Option<KeyId> {
    FirstPrivate(c, Candidates(c, owner, onlyPrimary))
  }

  // ---- changes ----

  function WithOwner(table: seq<Owned>, keyId: KeyId, owner: KeyId): seq<Owned> {
    if table == [] then [Owned(keyId, [owner])]
    else if table[0].keyId == keyId then
      [if owner in table[0].owners then table[0] else Owned(keyId, table[0].owners + [owner])] + table[1..]
    else [table[0]] + WithOwner(table[1..], keyId, owner)
  }

  function WithoutOwner(table: seq<Owned>, owner: KeyId): seq<Owned> {
    if table == [] then []
    else [Owned(table[0].keyId, RemoveFirst(table[0].owners, owner))] + WithoutOwner(table[1..], owner)
  }

  function RemoveFirst(s: seq<KeyId>, x: KeyId): seq<KeyId> {
    if s == [] then [] else if s[0] == x then s[1..] else [s[0]] + RemoveFirst(s[1..], x)
  }

  function WithoutKey(table: seq<Owned>, keyId: KeyId): seq<Owned> {
    if table == [] then []
    else if table[0].keyId == keyId then table[1..]
    else [table[0]] + WithoutKey(table[1..], keyId)
  }

  datatype Change =
    | AddPubkey(key: Pubkey, owner: Option<KeyId>, hasPrivate: bool)
    | RemoveOwner(ownerId: KeyId)
    | RemoveKey(keyId: KeyId)
    | LoadPrimary(primary: Pubkey)

  /** LoadPrimary is what verifying a self-signed user or bridge manifest enters. */
  function Apply(c: Context, ch: Change): Context {
    match ch
    case AddPubkey(key, owner, hasPrivate) =>
      var id := key.fingerprint;
      Context(c.keys[id := key],
              if hasPrivate then c.privateKeys + {id} else c.privateKeys,
              if owner.Some? && owner.value != "" then WithOwner(c.ownership, id, owner.value) else c.ownership)
    case RemoveOwner(owner) => c.(ownership := WithoutOwner(c.ownership, owner))
    case RemoveKey(id) => c.(keys := c.keys - {id}, ownership := WithoutKey(c.ownership, id))
    case LoadPrimary(key) => c.(keys := c.keys[key.fingerprint := key])
  }

  function ApplyAll(c: Context, changes: seq<Change>): Context {
    if changes == [] then c else Apply(ApplyAll(c, changes[..|changes| - 1]), changes[|changes| - 1])
  }

  /** The dictionaries of a signing context, changed in place. */
  class SigContext {
    var keys: map<KeyId, Pubkey>
    var privateKeys: set<KeyId>
    var keyOwnership: seq<Owned>

    function State(): Context
      reads this
    {
      Context(keys, privateKeys, keyOwnership)
    }

    constructor ()
      ensures State() == EMPTY
    {
      keys, privateKeys, keyOwnership := map[], {}, [];
    }

    method AddPubkey(key: Pubkey, owner: Option<KeyId>, hasPrivate: bool) returns (id: KeyId)
      modifies this
      ensures State() == Apply(old(State()), Change.AddPubkey(key, owner, hasPrivate)) && id == key.fingerprint
    {
      id := key.fingerprint;
      keys := keys[id := key];
      if owner.Some? && owner.value != "" {
        keyOwnership := WithOwner(keyOwnership, id, owner.value);
      }
      if hasPrivate {
        privateKeys := privateKeys + {id};
      }
    }

    method RemoveOwner(owner: KeyId)
      modifies this
      ensures State() == Apply(old(State()), Change.RemoveOwner(owner))
    {
      var done: seq<Owned> := [];
      var i := 0;
      while i < |keyOwnership|
        invariant i <= |keyOwnership| && keyOwnership == old(keyOwnership) && keys == old(keys) && privateKeys == old(privateKeys)
        invariant done + WithoutOwner(keyOwnership[i..], owner) == WithoutOwner(keyOwnership, owner)
      {
        done := done + [Owned(keyOwnership[i].keyId, RemoveFirst(keyOwnership[i].owners, owner))];
        i := i + 1;
      }
      keyOwnership := done;
    }

    method RemoveKey(keyId: KeyId)
      modifies this
      ensures State() == Apply(old(State()), Change.RemoveKey(keyId))
    {
      keys := keys - {keyId};
      keyOwnership := WithoutKey(keyOwnership, keyId);
    }
  }

  // ---- what every reachable context keeps ----

  ghost predicate Lists(table: seq<Owned>, id: KeyId) { exists o :: o in table && o.keyId == id }

  /** Every owned key is known, known keys are filed under their fingerprints, and no key is listed twice. */
  ghost predicate WellKept(c: Context) {
    && (forall o :: o in c.ownership ==> o.keyId in c.keys)
    && (forall k :: k in c.keys ==> c.keys[k].fingerprint == k)
    && (forall i, j :: 0 <= i < j < |c.ownership| ==> c.ownership[i].keyId != c.ownership[j].keyId)
  }

  ghost predicate DistinctKeys(t: seq<Owned>) {
    forall i, j :: 0 <= i < j < |t| ==> t[i].keyId != t[j].keyId
  }

  lemma {:induction false} WithOwnerKeys(t: seq<Owned>, id: KeyId, owner: KeyId)
    requires DistinctKeys(t)
    ensures DistinctKeys(WithOwner(t, id, owner))
    ensures forall k :: Lists(WithOwner(t, id, owner), k) <==> Lists(t, k) || k == id
  {
    var r := WithOwner(t, id, owner);
    if t == [] {
      assert Owned(id, [owner]) in r;
    } else {
      var rest := t[1..];
      assert t == [t[0]] + rest;
      if t[0].keyId == id {
        assert r[0] in r && r == [r[0]] + rest;
      } else {
        WithOwnerKeys(rest, id, owner);
        var r' := WithOwner(rest, id, owner);
        assert r == [t[0]] + r';
        assert !Lists(rest, t[0].keyId);
        assert forall i :: 0 <= i < |r'| ==> r'[i] in r';
        assert forall k :: Lists(r, k) <==> k == t[0].keyId || Lists(r', k) by { ListsCons(t[0], r'); }
        assert forall k :: Lists(t, k) <==> k == t[0].keyId || Lists(rest, k) by { ListsCons(t[0], rest); }
      }
    }
  }

  lemma ListsCons(o: Owned, t: seq<Owned>)
    ensures forall k :: Lists([o] + t, k) <==> k == o.keyId || Lists(t, k)
  {
    assert o in [o] + t;
    assert forall x :: x in t ==> x in [o] + t;
  }

  lemma {:induction false} WithoutOwnerKeys(t: seq<Owned>, owner: KeyId)
    ensures |WithoutOwner(t, owner)| == |t|
    ensures forall i :: 0 <= i < |t| ==> WithoutOwner(t, owner)[i].keyId == t[i].keyId
  {
    if t != [] { WithoutOwnerKeys(t[1..], owner); }
  }

  lemma {:induction false} WithoutKeyKeys(t: seq<Owned>, id: KeyId)
    requires DistinctKeys(t)
    ensures DistinctKeys(WithoutKey(t, id))
    ensures forall o :: o in WithoutKey(t, id) <==> o in t && o.keyId != id
  {
    if t != [] {
      var rest := t[1..];
      assert t == [t[0]] + rest;
      WithoutKeyKeys(rest, id);
      var r := WithoutKey(rest, id);
      assert forall i :: 0 <= i < |rest| ==> rest[i].keyId != t[0].keyId;
      if t[0].keyId != id {
        forall i | 0 <= i < |r| ensures r[i].keyId != t[0].keyId {
          assert r[i] in r && r[i] in rest;
        }
      }
    }
  }

  lemma ApplyKeeps(c: Context, ch: Change)
    requires WellKept(c)
    ensures WellKept(Apply(c, ch))
  {
    match ch {
      case AddPubkey(key, owner, _) =>
        if owner.Some? && owner.value != "" {
          var t := WithOwner(c.ownership, key.fingerprint, owner.value);
          WithOwnerKeys(c.ownership, key.fingerprint, owner.value);
          forall o | o in t ensures o.keyId in c.keys || o.keyId == key.fingerprint {
            assert Lists(t, o.keyId);
          }
        }
      case RemoveOwner(owner) =>
        WithoutOwnerKeys(c.ownership, owner);
        var t := WithoutOwner(c.ownership, owner);
        forall o | o in t ensures o.keyId in c.keys {
          var i :| 0 <= i < |t| && t[i] == o;
          assert c.ownership[i] in c.ownership;
        }
      case RemoveKey(id) => WithoutKeyKeys(c.ownership, id);
      case LoadPrimary(_) =>
    }
  }

  /** In every context that can be reached, every owned key is known. */
  lemma {:induction false} ReachableIsWellKept(changes: seq<Change>)
    ensures WellKept(ApplyAll(EMPTY, changes))
  {
    if changes != [] {
      ReachableIsWellKept(changes[..|changes| - 1]);
      ApplyKeeps(ApplyAll(EMPTY, changes[..|changes| - 1]), changes[|changes| - 1]);
    }
  }

  lemma {:induction false} SharedKeysList(t: seq<Owned>, owner: KeyId, k: KeyId)
    requires DistinctKeys(t) && k in SharedKeys(t, owner)
    ensures OwnersOf(t, k).Some? && owner in OwnersOf(t, k).value && Lists(t, k)
  {
    var rest := t[1..];
    assert t == [t[0]] + rest;
    if k in SharedKeys(rest, owner) {
      SharedKeysList(rest, owner, k);
      var o :| o in rest && o.keyId == k;
      var i :| 0 <= i < |rest| && rest[i] == o;
      assert t[i + 1] == o;
      ListsCons(t[0], rest);
    }
  }

  lemma {:induction false} FirstPrivateIsOne(c: Context, cs: seq<KeyId>)
    ensures FirstPrivate(c, cs).Some? ==> FirstPrivate(c, cs).value in cs && FirstPrivate(c, cs).value in c.privateKeys
    ensures FirstPrivate(c, cs).None? ==> forall k :: k in cs ==> k !in c.privateKeys
  {
    if cs != [] && cs[0] !in c.privateKeys { FirstPrivateIsOne(c, cs[1..]); }
  }

  /** The key that signs for an owner is a known one, and the owner is among those who may have signed with it:
      verification finds the key and accepts the owner. */
  lemma SignerMayOwn(c: Context, owner: KeyId, onlyPrimary: bool)
    requires WellKept(c) && SigningKey(c, owner, onlyPrimary).Some?
    ensures var k := SigningKey(c, owner, onlyPrimary).value;
            && k in c.keys && c.keys[k].fingerprint == k && k in c.privateKeys
            && owner in PossibleOwners(c, k)
            && (onlyPrimary ==> k == owner)
            && (AllPubkeys(c, owner).Some? ==> k in AllPubkeys(c, owner).value)
  {
    var cs := Candidates(c, owner, onlyPrimary);
    FirstPrivateIsOne(c, cs);
    var k := SigningKey(c, owner, onlyPrimary).value;
    if k in SharedKeys(c.ownership, owner) {
      SharedKeysList(c.ownership, owner, k);
    }
  }

  /** All keys of an owner can be listed exactly when its primary key is known. */
  lemma OwnedKeysAreKnown(c: Context, owner: KeyId)
    requires WellKept(c)
    ensures AllPubkeys(c, owner).Some? <==> owner in c.keys
  {
    forall k | k in SharedKeys(c.ownership, owner) ensures k in c.keys {
      SharedKeysList(c.ownership, owner, k);
      var o :| o in c.ownership && o.keyId == k;
    }
  }
}
