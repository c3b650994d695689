/** Encryption and decryption of nested manifests. Cryptography is ideal: what is encrypted to a set of keys
    is read with one of these, and in no other way. */
module Encryption {
  import opened Prelude

  type Key = string
  type Fields = map<string, Value>

  /** A YAML value; Cipher and Sealed are the texts encrypt returns, the latter for the list of keys. */
  datatype Value =
    | Scalar(text: string)
    | Cipher(plain: Value)
    | Sealed(message: Value, keys: set<Key>)
    | Items(items: seq<Value>)
    | Dict(fields: Fields)

  datatype Error = NoOwner | UnknownAccess | NoKeys | Malformed | CannotDecrypt

  /** The public keys of a user; None when there is no primary key. */
  type Keyring = string -> Option<set<Key>>

  // ---- access lists ----

  /** A field that is a non-empty text. */
  function TextAt(m: Fields, name: string): Option<string> {
    if name in m && m[name].Scalar? && m[name].text != "" then Some(m[name].text) else None
  }

  function PubkeysAt(m: Fields): set<Key> {
    if "pubkeys" in m && m["pubkeys"].Items? then set v | v in m["pubkeys"].items && v.Scalar? :: v.text else {}
  }

  /** What an access list comes to: everyone, or a set of keys; `entries` is the list after the call, in
      which some entries have lost their pubkeys. */
  datatype Access = Everyone(entries: seq<Value>) | Only(entries: seq<Value>, keys: set<Key>)

  /** One entry: the keys it adds, and the entry afterwards. */
  function EntryKeys(m: Fields, owner: string, ring: Keyring): Result<(Fields, set<Key>), Error> {
    var user, path := TextAt(m, "user"), TextAt(m, "user-path");
    if user == Some(owner) then Ok((m - {"pubkeys"}, {}))
    else
      var keys := if PubkeysAt(m) != {} then PubkeysAt(m)
                  else if user.Some? && ring(user.value).Some? then ring(user.value).value
                  else {};
      if keys == {} then Err(NoKeys)
      else Ok((if user.Some? then m - {"pubkeys"} else m, keys))
  }

  function ReadAccess(entries: seq<Value>, owner: string, ring: Keyring): (r: Result<Access, Error>)
    ensures r.Ok? ==> |r.value.entries| == |entries|
  {
    if entries == [] then Ok(Only([], {}))
    else if !entries[0].Dict? then Err(UnknownAccess)
    else
      var m := entries[0].fields;
      if TextAt(m, "user").None? && TextAt(m, "user-path").None? then Err(UnknownAccess)
      else if TextAt(m, "user") == Some("*") then Ok(Everyone(entries))
      else
        var (m', keys) :- EntryKeys(m, owner, ring);
        var rest :- ReadAccess(entries[1..], owner, ring);
        match rest
        case Everyone(es) => Ok(Everyone([Dict(m')] + es))
        case Only(es, ks) => Ok(Only([Dict(m')] + es, keys + ks))
  }

  /** The access of a node; a node without a list is for its owner only. */
  function AccessOf(m: Fields, owner: string, ring: Keyring): Result<Access, Error> {
    if "access" !in m then Ok(Only([], {}))
    else if !m["access"].Items? then Err(UnknownAccess)
    else ReadAccess(m["access"].items, owner, ring)
  }

  function WithEntries(m: Fields, entries: seq<Value>): Fields {
    if "access" in m then m["access" := Items(entries)] else m
  }

  // ---- encryption ----

  function Envelope(plain: Value, keys: set<Key>): Value {
    Dict(map["encrypted" := Dict(map["encrypted-data" := Cipher(plain), "encrypted-keys" := Sealed(plain, keys)])])
  }

  function EncryptDict(m: Fields, owner: string, ring: Keyring): Result<Value, Error> {
    if ring(owner).None? then Err(NoKeys)
    else
      var access :- AccessOf(m, owner, ring);
      var plain := Dict(WithEntries(m, access.entries));
      match access
      case Everyone(_) => Ok(plain)
      case Only(_, keys) => Ok(Envelope(plain, ring(owner).value + keys))
  }

  function EncryptFields(m: Fields, owner: string, ring: Keyring): (r: Result<Fields, Error>)
    ensures r.Ok? ==> r.value.Keys == m.Keys
    decreases Dict(m), 0
  {
    if forall k :: k in m ==> EncryptValue(m[k], owner, ring).Ok?
    then Ok(map k | k in m :: EncryptValue(m[k], owner, ring).value)
    else Err(NoKeys)
  }

  /** _encrypt_submanifests */
  function EncryptValue(v: Value, owner: string, ring: Keyring): Result<Value, Error>
    decreases v, 1
  {
    match v
    case Dict(m) =>
      var m' :- EncryptFields(m, owner, ring);
      if "access" in m' then EncryptDict(m', owner, ring) else Ok(Dict(m'))
    case Items(vs) =>
      if forall i :: 0 <= i < |vs| ==> EncryptValue(vs[i], owner, ring).Ok?
      then Ok(Items(seq(|vs|, i requires 0 <= i < |vs| => EncryptValue(vs[i], owner, ring).value)))
      else Err(NoKeys)
    case _ => Ok(v)
  }

  /** Manifest.encrypt: users and bridges stay in clear. */
  function Encrypt(m: Fields, ring: Keyring): Result<Value, Error> {
    match TextAt(m, "owner")
    case None => Err(NoOwner)
    case Some(owner) =>
      var m' :- EncryptFields(m, owner, ring);
      if TextAt(m', "object") in {Some("user"), Some("bridge")} then Ok(Dict(m'))
      else EncryptDict(m', owner, ring)
  }

  // ---- decryption ----

  /** _decrypt_dict: a dictionary that is an envelope is opened, any other is left alone. */
  function DecryptDict(m: Fields, holder: set<Key>): (r: Result<Fields, Error>)
    ensures r.Ok? ==> r.value == m || (m.Keys == {"encrypted"} && Dict(r.value) < m["encrypted"])
  {
    if m.Keys != {"encrypted"} then Ok(m)
    else
      var e := m["encrypted"];
      if !e.Dict? || e.fields.Keys != {"encrypted-data", "encrypted-keys"} then Err(Malformed)
      else
        var data, keys := e.fields["encrypted-data"], e.fields["encrypted-keys"];
        if data.Cipher? && keys.Sealed? && keys.message == data.plain && keys.keys * holder != {} && data.plain.Dict?
        then Ok(data.plain.fields)
        else Err(CannotDecrypt)
  }

  /** _decrypt_submanifests: what cannot be opened is left as it is. */
  function DecryptValue(v: Value, holder: set<Key>): Value
    decreases v, 1
  {
    match v
    case Dict(m) =>
      (match DecryptDict(m, holder)
       case Err(_) => v
       case Ok(m') => Dict(DecryptFields(m', holder)))
    case Items(vs) => Items(seq(|vs|, i requires 0 <= i < |vs| => DecryptValue(vs[i], holder)))
    case _ => v
  }

  function DecryptFields(m: Fields, holder: set<Key>): Fields
    decreases Dict(m), 0
  {
    map k | k in m :: DecryptValue(m[k], holder)
  }

  function Decrypt(m: Fields, holder: set<Key>): Result<Fields, Error> {
    var m' :- DecryptDict(m, holder);
    Ok(DecryptFields(m', holder))
  }

  // ---- whom an access list is for ----

  /** The entry at a place opens the node to everyone. */
  ghost predicate StarAt(entries: seq<Value>, i: nat) {
    i < |entries| && entries[i].Dict? && TextAt(entries[i].fields, "user") == Some("*")
  }

  /** The entry at a place is read, as no entry up to it is for everyone. */
  ghost predicate Reached(entries: seq<Value>, i: nat) {
    i < |entries| && forall j :: 0 <= j <= i ==> !StarAt(entries, j)
  }

  ghost predicate ForOwner(m: Fields, owner: string) { TextAt(m, "user") == Some(owner) }

  /** An entry lists a key, or lists none and the key is its user's. */
  ghost predicate Grants(m: Fields, ring: Keyring, key: Key) {
    || key in PubkeysAt(m)
    || (PubkeysAt(m) == {} && TextAt(m, "user").Some? && ring(TextAt(m, "user").value).Some? &&
        key in ring(TextAt(m, "user").value).value)
  }

  /** An entry that names someone, and is the owner's or grants a key. */
  ghost predicate Usable(v: Value, owner: string, ring: Keyring) {
    && v.Dict? && (TextAt(v.fields, "user").Some? || TextAt(v.fields, "user-path").Some?)
    && (ForOwner(v.fields, owner) || exists key :: Grants(v.fields, ring, key))
  }

  /** The entry at a place grants a key to someone else than the owner. */
  ghost predicate GrantsAt(entries: seq<Value>, owner: string, ring: Keyring, key: Key, i: nat) {
    i < |entries| && entries[i].Dict? && !ForOwner(entries[i].fields, owner) && Grants(entries[i].fields, ring, key)
  }

  ghost predicate Granted(entries: seq<Value>, owner: string, ring: Keyring, key: Key) {
    exists i: nat :: GrantsAt(entries, owner, ring, key, i)
  }

  ghost predicate HasStar(entries: seq<Value>) { exists i: nat :: StarAt(entries, i) }

  /** What encryption makes of an entry: one that is read and names a user loses its pubkeys. */
  ghost function Stripped(entries: seq<Value>, i: nat): Value
    requires i < |entries|
  {
    if Reached(entries, i) && entries[i].Dict? && TextAt(entries[i].fields, "user").Some?
    then Dict(entries[i].fields - {"pubkeys"})
    else entries[i]
  }

  ghost function StrippedList(v: Value): Value {
    if v.Items? then Items(seq(|v.items|, i requires 0 <= i < |v.items| => Stripped(v.items, i))) else v
  }

  lemma EntryKeysAre(m: Fields, owner: string, ring: Keyring)
    ensures var r := EntryKeys(m, owner, ring);
            && (r.Ok? <==> ForOwner(m, owner) || exists key :: Grants(m, ring, key))
            && (r.Ok? ==>
                  && (forall key :: key in r.value.1 <==> !ForOwner(m, owner) && Grants(m, ring, key))
                  && r.value.0 == if TextAt(m, "user").Some? then m - {"pubkeys"} else m)
  {
    hide TextAt, PubkeysAt;
    if r :| EntryKeys(m, owner, ring) == Ok(r) && !ForOwner(m, owner) {
      var key :| key in r.1;
      assert Grants(m, ring, key);
    }
  }

  /** Entries after the first are read as the list of them is. */
  lemma RestOfEntries(entries: seq<Value>, owner: string, ring: Keyring, i: nat)
    requires 0 < i < |entries| && !StarAt(entries, 0)
    ensures StarAt(entries, i) <==> StarAt(entries[1..], i - 1)
    ensures Reached(entries, i) <==> Reached(entries[1..], i - 1)
    ensures Stripped(entries, i) == Stripped(entries[1..], i - 1)
    ensures forall key :: GrantsAt(entries, owner, ring, key, i) <==> GrantsAt(entries[1..], owner, ring, key, i - 1)
  {
    hide TextAt;
    forall j | 0 < j < |entries|
      ensures StarAt(entries, j) <==> StarAt(entries[1..], j - 1)
    {
    }
    hide StarAt;
    if Reached(entries[1..], i - 1) {
      forall j | 0 <= j <= i ensures !StarAt(entries, j) {
        if j > 0 { assert !StarAt(entries[1..], j - 1); }
      }
    }
    if Reached(entries, i) {
      forall j | 0 <= j <= i - 1 ensures !StarAt(entries[1..], j) { assert !StarAt(entries, j + 1); }
    }
  }

  /** What is to come of an access list. */
  ghost predicate ReadAs(entries: seq<Value>, owner: string, ring: Keyring, r: Result<Access, Error>) {
    && (r.Ok? <==> forall i: nat :: Reached(entries, i) ==> Usable(entries[i], owner, ring))
    && (r.Ok? ==>
          && (r.value.Everyone? <==> HasStar(entries))
          && (r.value.Only? ==> forall key :: key in r.value.keys <==> Granted(entries, owner, ring, key))
          && |r.value.entries| == |entries| && forall i :: 0 <= i < |entries| ==> r.value.entries[i] == Stripped(entries, i))
  }

  lemma NothingListed(owner: string, ring: Keyring)
    ensures ReadAs([], owner, ring, ReadAccess([], owner, ring))
  {
    assert ReadAccess([], owner, ring) == Ok(Only([], {}));
    assert forall i: nat :: !Reached([], i);
    assert forall key, i: nat :: !GrantsAt([], owner, ring, key, i);
    assert forall i: nat :: !StarAt([], i);
  }

  /** Reading an access list: it can be read exactly when every entry read is usable; it is for everyone exactly when
      an entry says so; otherwise its keys are exactly those that entries grant to others than the owner; and
      exactly the pubkeys of entries read that name a user are dropped. */
  lemma {:induction false} ReadAccessIs(entries: seq<Value>, owner: string, ring: Keyring)
    ensures ReadAs(entries, owner, ring, ReadAccess(entries, owner, ring))
  {
    if entries == [] {
      NothingListed(owner, ring);
    } else if StarAt(entries, 0) {
      StarFirst(entries, owner, ring);
    } else {
      ReadAccessIs(entries[1..], owner, ring);
      forall i | 0 < i < |entries|
        ensures RestAt(entries, owner, ring, i)
      {
        RestOfEntries(entries, owner, ring, i);
      }
      if entries[0].Dict? { EntryKeysAre(entries[0].fields, owner, ring); }
      ReadFirst(entries, owner, ring);
    }
  }

  ghost predicate RestAt(entries: seq<Value>, owner: string, ring: Keyring, i: nat)
    requires 0 < i < |entries|
  {
    && (StarAt(entries, i) <==> StarAt(entries[1..], i - 1))
    && (Reached(entries, i) <==> Reached(entries[1..], i - 1))
    && Stripped(entries, i) == Stripped(entries[1..], i - 1)
    && forall key :: GrantsAt(entries, owner, ring, key, i) <==> GrantsAt(entries[1..], owner, ring, key, i - 1)
  }

  lemma StarFirst(entries: seq<Value>, owner: string, ring: Keyring)
    requires StarAt(entries, 0)
    ensures ReadAs(entries, owner, ring, ReadAccess(entries, owner, ring))
  {
    assert ReadAccess(entries, owner, ring) == Ok(Everyone(entries));
    hide ReadAccess, Usable;
    assert forall i: nat :: !Reached(entries, i);
  }

  /** One entry more. */
  lemma ReadFirst(entries: seq<Value>, owner: string, ring: Keyring)
    requires entries != [] && !StarAt(entries, 0) && ReadAs(entries[1..], owner, ring, ReadAccess(entries[1..], owner, ring))
    requires forall i :: 0 < i < |entries| ==> RestAt(entries, owner, ring, i)
    ensures ReadAs(entries, owner, ring, ReadAccess(entries, owner, ring))
  {
    ReadFirstOk(entries, owner, ring);
    UsableFirst(entries, owner, ring);
    GrantsFirst(entries, owner, ring);
    var r, rest := ReadAccess(entries, owner, ring), ReadAccess(entries[1..], owner, ring);
    hide ReadAccess, Usable, StarAt, Reached, Stripped, GrantsAt, EntryKeys, TextAt, Grants, ForOwner, RestAt;
    if r.Ok? {
      FirstRead(entries, owner, ring);
      StripsFirst(entries, owner, ring, r.value.entries);
    }
  }

  lemma FirstRead(entries: seq<Value>, owner: string, ring: Keyring)
    requires entries != [] && !StarAt(entries, 0) && ReadAccess(entries, owner, ring).Ok?
    ensures ReadAccess(entries[1..], owner, ring).Ok?
    ensures var r, rest := ReadAccess(entries, owner, ring).value, ReadAccess(entries[1..], owner, ring).value;
            && r.entries[0] == Stripped(entries, 0) && r.entries[1..] == rest.entries
            && (r.Only? ==> rest.Only? && forall key :: key in r.keys <==> GrantsAt(entries, owner, ring, key, 0) || key in rest.keys)
  {
    ReadAccessStep(entries, owner, ring);
    ReadFirstOk(entries, owner, ring);
    EntryKeysAre(entries[0].fields, owner, ring);
    assert Reached(entries, 0);
    hide ReadAccess, EntryKeys, Grants, ForOwner;
  }

  lemma ReadFirstOk(entries: seq<Value>, owner: string, ring: Keyring)
    requires entries != [] && !StarAt(entries, 0)
    ensures var r, rest := ReadAccess(entries, owner, ring), ReadAccess(entries[1..], owner, ring);
            && (r.Ok? <==> Usable(entries[0], owner, ring) && rest.Ok?)
            && (r.Ok? ==> (r.value.Everyone? <==> rest.value.Everyone?))
            && (r.Ok? && r.value.Only? ==>
                  r.value.keys == EntryKeys(entries[0].fields, owner, ring).value.1 + rest.value.keys)
  {
    if entries[0].Dict? { EntryKeysAre(entries[0].fields, owner, ring); }
    hide EntryKeys, Grants, ForOwner;
  }

  lemma UsableFirst(entries: seq<Value>, owner: string, ring: Keyring)
    requires entries != [] && !StarAt(entries, 0)
    requires forall i :: 0 < i < |entries| ==> RestAt(entries, owner, ring, i)
    ensures (forall i: nat :: Reached(entries, i) ==> Usable(entries[i], owner, ring)) <==>
            Usable(entries[0], owner, ring) && forall i: nat :: Reached(entries[1..], i) ==> Usable(entries[1..][i], owner, ring)
    ensures HasStar(entries) <==> HasStar(entries[1..])
  {
    assert Reached(entries, 0);
    hide Usable, GrantsAt, Stripped;
    var rest := entries[1..];
    forall i: nat | Reached(rest, i)
      ensures Reached(entries, i + 1) && entries[i + 1] == rest[i]
    {
      assert RestAt(entries, owner, ring, i + 1);
    }
    forall i: nat | Reached(entries, i) && i > 0
      ensures Reached(rest, i - 1) && entries[i] == rest[i - 1]
    {
      assert RestAt(entries, owner, ring, i);
    }
    if i: nat :| StarAt(rest, i) { assert RestAt(entries, owner, ring, i + 1) && StarAt(entries, i + 1); }
    if i: nat :| StarAt(entries, i) { assert RestAt(entries, owner, ring, i) && StarAt(rest, i - 1); }
  }

  lemma GrantsFirst(entries: seq<Value>, owner: string, ring: Keyring)
    requires entries != []
    requires forall i :: 0 < i < |entries| ==> RestAt(entries, owner, ring, i)
    ensures forall key :: Granted(entries, owner, ring, key) <==>
              GrantsAt(entries, owner, ring, key, 0) || Granted(entries[1..], owner, ring, key)
  {
    hide Grants, ForOwner, StarAt, Reached, Stripped;
    forall key
      ensures Granted(entries, owner, ring, key) <==>
                GrantsAt(entries, owner, ring, key, 0) || Granted(entries[1..], owner, ring, key)
    {
      if i: nat :| GrantsAt(entries[1..], owner, ring, key, i) { assert RestAt(entries, owner, ring, i + 1) && GrantsAt(entries, owner, ring, key, i + 1); }
      if i: nat :| i > 0 && GrantsAt(entries, owner, ring, key, i) { assert RestAt(entries, owner, ring, i) && GrantsAt(entries[1..], owner, ring, key, i - 1); }
    }
  }

  lemma StripsFirst(entries: seq<Value>, owner: string, ring: Keyring, es: seq<Value>)
    requires entries != [] && |es| == |entries| && es[0] == Stripped(entries, 0)
    requires forall i :: 0 < i < |entries| ==> RestAt(entries, owner, ring, i)
    requires forall i :: 0 <= i < |entries[1..]| ==> es[1..][i] == Stripped(entries[1..], i)
    ensures forall i :: 0 <= i < |entries| ==> es[i] == Stripped(entries, i)
  {
    hide StarAt, Reached, Stripped, GrantsAt;
    forall i | 0 < i < |entries|
      ensures es[i] == Stripped(entries, i)
    {
      assert RestAt(entries, owner, ring, i) && es[i] == es[1..][i - 1];
    }
  }

  predicate Listed(m: Fields) { "access" in m && m["access"].Items? }

  /** A node's list can be read. */
  ghost predicate AccessUsable(m: Fields, owner: string, ring: Keyring) {
    "access" in m ==>
      m["access"].Items? && forall i: nat :: Reached(m["access"].items, i) ==> Usable(m["access"].items[i], owner, ring)
  }

  /** A key is one of the owner's, or an entry grants it. */
  ghost predicate Reader(m: Fields, owner: string, ring: Keyring, key: Key) {
    || (ring(owner).Some? && key in ring(owner).value)
    || (Listed(m) && Granted(m["access"].items, owner, ring, key))
  }

  /** Who can read a node: everyone, if an entry says so, or who holds the key of a reader. */
  ghost predicate CanRead(m: Fields, owner: string, ring: Keyring, holder: set<Key>) {
    (Listed(m) && HasStar(m["access"].items)) || exists key :: key in holder && Reader(m, owner, ring, key)
  }

  /** What encryption computes for a node's list. */
  lemma AccessIs(m: Fields, owner: string, ring: Keyring, holder: set<Key>)
    ensures AccessOf(m, owner, ring).Ok? <==> AccessUsable(m, owner, ring)
    ensures AccessOf(m, owner, ring).Ok? && "access" in m ==>
              m["access"].Items? && Items(AccessOf(m, owner, ring).value.entries) == StrippedList(m["access"])
    ensures AccessOf(m, owner, ring).Ok? && ring(owner).Some? ==>
              (CanRead(m, owner, ring, holder) <==>
                 match AccessOf(m, owner, ring).value
                 case Everyone(_) => true
                 case Only(_, keys) => (ring(owner).value + keys) * holder != {})
    ensures AccessOf(m, owner, ring).Ok? && ring(owner).Some? ==>
              match AccessOf(m, owner, ring).value
              case Everyone(_) => Listed(m) && HasStar(m["access"].items)
              case Only(_, keys) => !(Listed(m) && HasStar(m["access"].items)) &&
                                    forall key :: key in ring(owner).value + keys <==> Reader(m, owner, ring, key)
  {
    if Listed(m) { ReadAccessIs(m["access"].items, owner, ring); }
    hide ReadAccess, Reached, Usable, Granted, HasStar, Stripped;
    if AccessOf(m, owner, ring).Ok? {
      var access := AccessOf(m, owner, ring).value;
      if Listed(m) {
        assert StrippedList(m["access"]).items == access.entries;
      }
      if access.Only? && ring(owner).Some? {
        if key :| key in (ring(owner).value + access.keys) * holder { assert Reader(m, owner, ring, key); }
        if key :| key in holder && Reader(m, owner, ring, key) { assert key in (ring(owner).value + access.keys) * holder; }
      }
    }
  }

  // ---- what a holder of some keys is to see ----

  /** A node encrypted to some keys. */
  ghost predicate IsEnvelope(v: Value) {
    && v.Dict? && v.fields.Keys == {"encrypted"} && v.fields["encrypted"].Dict?
    && var e := v.fields["encrypted"].fields;
       && e.Keys == {"encrypted-data", "encrypted-keys"} && e["encrypted-data"].Cipher? && e["encrypted-data"].plain.Dict?
       && e["encrypted-keys"].Sealed? && e["encrypted-keys"].message == e["encrypted-data"].plain
  }

  /** A tree as it is written before encryption: nodes may be envelopes already, no other dictionary looks like one,
      and the entries of access lists are flat. */
  ghost predicate PlainTree(v: Value) {
    match v
    case Dict(m) =>
      && (m.Keys == {"encrypted"} ==> IsEnvelope(v))
      && ("access" in m ==> FlatList(m["access"]))
      && forall k :: k in m ==> PlainTree(m[k])
    case Items(vs) => forall i :: 0 <= i < |vs| ==> PlainTree(vs[i])
    case _ => true
  }

  /** A value that has no dictionary in it. */
  ghost predicate Leafy(v: Value) {
    match v
    case Dict(_) => false
    case Items(vs) => forall i :: 0 <= i < |vs| ==> Leafy(vs[i])
    case _ => true
  }

  ghost predicate FlatEntry(v: Value) {
    v.Dict? && v.fields.Keys != {"encrypted"} && "access" !in v.fields && forall k :: k in v.fields ==> Leafy(v.fields[k])
  }

  ghost predicate FlatList(v: Value) {
    v.Items? && forall i :: 0 <= i < |v.items| ==> FlatEntry(v.items[i])
  }

  /** The tree with the pubkeys that encryption drops from access lists dropped, and nothing hidden. */
  ghost function Erased(v: Value, owner: string, ring: Keyring): Value {
    match v
    case Dict(m) =>
      Dict(map k | k in m :: if k == "access" then StrippedList(m[k]) else Erased(m[k], owner, ring))
    case Items(vs) => Items(seq(|vs|, i requires 0 <= i < |vs| => Erased(vs[i], owner, ring)))
    case _ => v
  }

  /** What a holder of some keys is to see of a tree: every node in clear, but for those with an access list
      that leaves him out, which stay encrypted, and for those that were envelopes before. */
  ghost function Seen(v: Value, owner: string, ring: Keyring, holder: set<Key>): Value
    decreases v, 1
  {
    match v
    case Dict(m) =>
      if IsEnvelope(v) then DecryptValue(v, holder)
      else if "access" in m && !CanRead(m, owner, ring, holder) && EncryptValue(v, owner, ring).Ok?
      then EncryptValue(v, owner, ring).value
      else SeenFields(v, owner, ring, holder)
    case Items(vs) => Items(seq(|vs|, i requires 0 <= i < |vs| => Seen(vs[i], owner, ring, holder)))
    case _ => v
  }

  ghost function SeenFields(v: Value, owner: string, ring: Keyring, holder: set<Key>): Value
    requires v.Dict?
    decreases v, 0
  {
    Dict(map k | k in v.fields ::
           if k == "access" then StrippedList(v.fields[k]) else Seen(v.fields[k], owner, ring, holder))
  }

  // ---- leaves ----

  lemma {:induction false} LeafyStays(v: Value, owner: string, ring: Keyring, holder: set<Key>)
    requires Leafy(v)
    ensures EncryptValue(v, owner, ring) == Ok(v) && DecryptValue(v, holder) == v
  {
    match v {
      case Items(vs) =>
        forall i | 0 <= i < |vs| { LeafyStays(vs[i], owner, ring, holder); }
        ItemsStay(vs, owner, ring, holder);
      case _ =>
    }
  }

  lemma ItemsStay(vs: seq<Value>, owner: string, ring: Keyring, holder: set<Key>)
    requires forall i :: 0 <= i < |vs| ==> EncryptValue(vs[i], owner, ring) == Ok(vs[i]) && DecryptValue(vs[i], holder) == vs[i]
    ensures EncryptValue(Items(vs), owner, ring) == Ok(Items(vs)) && DecryptValue(Items(vs), holder) == Items(vs)
  {
    assert EncryptValue(Items(vs), owner, ring).value.items == vs;
    assert DecryptValue(Items(vs), holder).items == vs;
  }

  lemma FieldsStay(m: Fields, owner: string, ring: Keyring, holder: set<Key>)
    requires m.Keys != {"encrypted"} && "access" !in m
    requires forall k :: k in m ==> EncryptValue(m[k], owner, ring) == Ok(m[k]) && DecryptValue(m[k], holder) == m[k]
    ensures EncryptValue(Dict(m), owner, ring) == Ok(Dict(m)) && DecryptValue(Dict(m), holder) == Dict(m)
  {
    assert EncryptFields(m, owner, ring).value == m;
    assert DecryptValue(Dict(m), holder).fields == m;
  }

  lemma FlatEntryStays(v: Value, owner: string, ring: Keyring, holder: set<Key>)
    requires FlatEntry(v)
    ensures EncryptValue(v, owner, ring) == Ok(v) && DecryptValue(v, holder) == v
  {
    var m := v.fields;
    forall k | k in m { LeafyStays(m[k], owner, ring, holder); }
    FieldsStay(m, owner, ring, holder);
  }

  lemma FlatListStays(v: Value, owner: string, ring: Keyring, holder: set<Key>)
    requires FlatList(v)
    ensures EncryptValue(v, owner, ring) == Ok(v) && DecryptValue(v, holder) == v
  {
    forall i | 0 <= i < |v.items| { FlatEntryStays(v.items[i], owner, ring, holder); }
    ItemsStay(v.items, owner, ring, holder);
  }

  lemma EntryKeepsFlat(m: Fields, owner: string, ring: Keyring)
    requires FlatEntry(Dict(m)) && (TextAt(m, "user").Some? || TextAt(m, "user-path").Some?) && EntryKeys(m, owner, ring).Ok?
    ensures FlatEntry(Dict(EntryKeys(m, owner, ring).value.0))
  {
    var m' := EntryKeys(m, owner, ring).value.0;
    assert m' == m || m' == m - {"pubkeys"};
    assert "user" in m'.Keys || "user-path" in m'.Keys;
    assert "user" !in {"encrypted"} && "user-path" !in {"encrypted"};
    assert m'.Keys != {"encrypted"};
    assert forall k :: k in m' ==> k in m && m'[k] == m[k];
  }

  lemma ReadAccessStep(entries: seq<Value>, owner: string, ring: Keyring)
    requires entries != [] && entries[0].Dict? && ReadAccess(entries, owner, ring).Ok?
    requires TextAt(entries[0].fields, "user") != Some("*")
    ensures EntryKeys(entries[0].fields, owner, ring).Ok? && ReadAccess(entries[1..], owner, ring).Ok?
    ensures TextAt(entries[0].fields, "user").Some? || TextAt(entries[0].fields, "user-path").Some?
    ensures ReadAccess(entries, owner, ring).value.entries
         == [Dict(EntryKeys(entries[0].fields, owner, ring).value.0)] + ReadAccess(entries[1..], owner, ring).value.entries
  {
  }

  lemma {:induction false} ReadAccessKeepsFlat(entries: seq<Value>, owner: string, ring: Keyring)
    requires forall i :: 0 <= i < |entries| ==> FlatEntry(entries[i])
    ensures var r := ReadAccess(entries, owner, ring);
            r.Ok? ==> forall i :: 0 <= i < |entries| ==> FlatEntry(r.value.entries[i])
  {
    hide EntryKeys, TextAt;
    if entries != [] && ReadAccess(entries, owner, ring).Ok? && TextAt(entries[0].fields, "user") != Some("*") {
      ReadAccessKeepsFlat(entries[1..], owner, ring);
      ReadAccessStep(entries, owner, ring);
      EntryKeepsFlat(entries[0].fields, owner, ring);
      hide ReadAccess, FlatEntry;
      var rest := ReadAccess(entries[1..], owner, ring).value.entries;
      assert forall i :: 0 <= i < |rest| ==> FlatEntry(rest[i]);
    }
  }

  // ---- decryption undoes encryption ----

  lemma OpenEnvelope(plain: Fields, keys: set<Key>, holder: set<Key>)
    ensures Envelope(Dict(plain), keys).Dict?
    ensures var e := Envelope(Dict(plain), keys);
            && (keys * holder != {} ==> DecryptDict(e.fields, holder) == Ok(plain))
            && (keys * holder == {} ==> DecryptDict(e.fields, holder) == Err(CannotDecrypt) && DecryptValue(e, holder) == e)
  {
  }

  /** The fields a node has when it is encrypted: its children encrypted, its access list stripped. */
  ghost function Inner(m: Fields, owner: string, ring: Keyring): Fields
    requires EncryptFields(m, owner, ring).Ok? && AccessOf(EncryptFields(m, owner, ring).value, owner, ring).Ok?
  {
    var m' := EncryptFields(m, owner, ring).value;
    WithEntries(m', AccessOf(m', owner, ring).value.entries)
  }

  lemma AccessSurvives(m: Fields, owner: string, ring: Keyring)
    requires PlainTree(Dict(m)) && EncryptFields(m, owner, ring).Ok?
    ensures AccessOf(EncryptFields(m, owner, ring).value, owner, ring) == AccessOf(m, owner, ring)
  {
    if "access" in m { FlatListStays(m["access"], owner, ring, {}); }
  }

  lemma InnerFields(m: Fields, owner: string, ring: Keyring)
    requires EncryptFields(m, owner, ring).Ok? && AccessOf(m, owner, ring).Ok?
    requires AccessOf(EncryptFields(m, owner, ring).value, owner, ring) == AccessOf(m, owner, ring)
    ensures var inner := Inner(m, owner, ring);
            && inner.Keys == m.Keys
            && forall k :: k in m ==>
                 inner[k] == if k == "access" then Items(AccessOf(m, owner, ring).value.entries)
                             else EncryptValue(m[k], owner, ring).value
  {
    hide AccessOf, EncryptValue;
  }

  /** Decrypting the inner fields of a node gives what is to be seen of its fields. */
  lemma InnerIsSeen(m: Fields, owner: string, ring: Keyring, holder: set<Key>)
    requires PlainTree(Dict(m)) && EncryptFields(m, owner, ring).Ok? && AccessOf(m, owner, ring).Ok?
    requires AccessOf(EncryptFields(m, owner, ring).value, owner, ring) == AccessOf(m, owner, ring)
    requires forall k :: k in m ==> DecryptValue(EncryptValue(m[k], owner, ring).value, holder) == Seen(m[k], owner, ring, holder)
    ensures var inner := Inner(m, owner, ring);
            && inner.Keys == m.Keys
            && Dict(DecryptFields(inner, holder)) == SeenFields(Dict(m), owner, ring, holder)
  {
    hide AccessOf, EncryptValue, Seen, DecryptValue, PlainTree, Inner, EncryptFields;
    InnerFields(m, owner, ring);
    hide CanRead, AccessUsable, StrippedList;
    AccessIs(m, owner, ring, holder);
    if "access" in m { StrippedStays(m, owner, ring, holder); }
    var inner := Inner(m, owner, ring);
    assert DecryptFields(inner, holder) == SeenFields(Dict(m), owner, ring, holder).fields;
  }

  lemma StrippedStays(m: Fields, owner: string, ring: Keyring, holder: set<Key>)
    requires PlainTree(Dict(m)) && "access" in m && AccessOf(m, owner, ring).Ok?
    ensures var l := Items(AccessOf(m, owner, ring).value.entries); DecryptValue(l, holder) == l
  {
    ReadAccessKeepsFlat(m["access"].items, owner, ring);
    FlatListStays(Items(AccessOf(m, owner, ring).value.entries), owner, ring, holder);
  }

  lemma ItemsSeen(vs: seq<Value>, owner: string, ring: Keyring, holder: set<Key>)
    requires EncryptValue(Items(vs), owner, ring).Ok?
    requires forall i :: 0 <= i < |vs| ==> DecryptValue(EncryptValue(vs[i], owner, ring).value, holder) == Seen(vs[i], owner, ring, holder)
    ensures DecryptValue(EncryptValue(Items(vs), owner, ring).value, holder) == Seen(Items(vs), owner, ring, holder)
  {
    assert DecryptValue(EncryptValue(Items(vs), owner, ring).value, holder).items == Seen(Items(vs), owner, ring, holder).items;
  }

  /** Whatever keys the holder has: what he gets back from an encrypted tree is exactly what he is to see. */
  lemma {:induction false} DecryptUndoesEncrypt(v: Value, owner: string, ring: Keyring, holder: set<Key>)
    requires PlainTree(v) && EncryptValue(v, owner, ring).Ok?
    ensures DecryptValue(EncryptValue(v, owner, ring).value, holder) == Seen(v, owner, ring, holder)
  {
    match v {
      case Items(vs) =>
        forall i | 0 <= i < |vs| { DecryptUndoesEncrypt(vs[i], owner, ring, holder); }
        ItemsSeen(vs, owner, ring, holder);
      case Dict(m) =>
        if IsEnvelope(v) {
          EnvelopeStays(v, owner, ring);
          return;
        }
        forall k | k in m { DecryptUndoesEncrypt(m[k], owner, ring, holder); }
        AccessSurvives(m, owner, ring);
        InnerIsSeen(m, owner, ring, holder);
        NodeIsSeen(m, owner, ring, holder);
      case _ =>
    }
  }

  /** What is an envelope already is not encrypted again. */
  lemma EnvelopeStays(v: Value, owner: string, ring: Keyring)
    requires IsEnvelope(v)
    ensures EncryptValue(v, owner, ring) == Ok(v) && Erased(v, owner, ring) == v
  {
    var m := v.fields;
    var e := m["encrypted"].fields;
    assert forall k :: k in e ==> EncryptValue(e[k], owner, ring) == Ok(e[k]);
    assert EncryptFields(e, owner, ring).value == e;
    assert EncryptValue(m["encrypted"], owner, ring) == Ok(m["encrypted"]);
    assert EncryptFields(m, owner, ring).value == m;
    assert Erased(m["encrypted"], owner, ring).fields == e;
    assert Erased(v, owner, ring).fields == m;
  }

  lemma NodeIsSeen(m: Fields, owner: string, ring: Keyring, holder: set<Key>)
    requires PlainTree(Dict(m)) && m.Keys != {"encrypted"} && EncryptValue(Dict(m), owner, ring).Ok?
    requires AccessOf(EncryptFields(m, owner, ring).value, owner, ring) == AccessOf(m, owner, ring)
    requires AccessOf(m, owner, ring).Ok?
    requires var inner := Inner(m, owner, ring);
             && inner.Keys == m.Keys
             && Dict(DecryptFields(inner, holder)) == SeenFields(Dict(m), owner, ring, holder)
    ensures DecryptValue(EncryptValue(Dict(m), owner, ring).value, holder) == Seen(Dict(m), owner, ring, holder)
  {
    var inner := Inner(m, owner, ring);
    assert DecryptValue(Dict(inner), holder) == SeenFields(Dict(m), owner, ring, holder);
    AccessIs(m, owner, ring, holder);
    hide CanRead, AccessUsable, StrippedList, AccessOf, PlainTree;
    if "access" in m {
      match AccessOf(m, owner, ring).value {
        case Everyone(_) =>
        case Only(_, keys) => OpenEnvelope(inner, ring(owner).value + keys, holder);
      }
    }
  }

  // ---- when there is something to decrypt ----

  /** Every list in the tree, outside envelopes, can be read, and the owner's keys are known where there is one. */
  ghost predicate Encryptable(v: Value, owner: string, ring: Keyring) {
    match v
    case Dict(m) =>
      IsEnvelope(v) ||
      (&& (forall k :: k in m ==> Encryptable(m[k], owner, ring))
       && ("access" in m ==> ring(owner).Some? && AccessUsable(m, owner, ring)))
    case Items(vs) => forall i :: 0 <= i < |vs| ==> Encryptable(vs[i], owner, ring)
    case _ => true
  }

  /** A tree is encrypted exactly when every list in it can be read and the owner's keys are known. */
  lemma {:induction false} EncryptsIff(v: Value, owner: string, ring: Keyring)
    requires PlainTree(v)
    ensures EncryptValue(v, owner, ring).Ok? <==> Encryptable(v, owner, ring)
  {
    match v {
      case Items(vs) => forall i | 0 <= i < |vs| { EncryptsIff(vs[i], owner, ring); }
      case Dict(m) =>
        if IsEnvelope(v) {
          EnvelopeStays(v, owner, ring);
          return;
        }
        forall k | k in m { EncryptsIff(m[k], owner, ring); }
        NodeEncryptsIff(m, owner, ring);
      case _ =>
    }
  }

  lemma NodeEncryptsIff(m: Fields, owner: string, ring: Keyring)
    requires PlainTree(Dict(m)) && !IsEnvelope(Dict(m))
    requires forall k :: k in m ==> (EncryptValue(m[k], owner, ring).Ok? <==> Encryptable(m[k], owner, ring))
    ensures EncryptValue(Dict(m), owner, ring).Ok? <==> Encryptable(Dict(m), owner, ring)
  {
    if EncryptFields(m, owner, ring).Ok? {
      AccessSurvives(m, owner, ring);
      AccessIs(m, owner, ring, {});
    }
    hide PlainTree, AccessOf, AccessUsable, CanRead, StrippedList, IsEnvelope;
  }

  /** A node with a list that is not for everyone is sealed to its readers and to no other key. */
  lemma NodeIsSealed(m: Fields, owner: string, ring: Keyring)
    requires PlainTree(Dict(m)) && "access" in m && EncryptValue(Dict(m), owner, ring).Ok?
    ensures var v := EncryptValue(Dict(m), owner, ring).value;
            if Listed(m) && HasStar(m["access"].items) then v.Dict? && v.fields.Keys == m.Keys
            else IsEnvelope(v) &&
                 forall key :: key in v.fields["encrypted"].fields["encrypted-keys"].keys <==> Reader(m, owner, ring, key)
  {
    AccessSurvives(m, owner, ring);
    AccessIs(m, owner, ring, {});
    hide Reader, HasStar, AccessUsable, StrippedList, PlainTree, CanRead, AccessOf, Listed;
    InnerFields(m, owner, ring);
  }

  // ---- whole manifests ----

  /** Users and bridges are not encrypted as a whole, only inside. */
  predicate StaysClear(m: Fields) { TextAt(m, "object") in {Some("user"), Some("bridge")} }

  /** The fields a holder is to see of a manifest; None when he is to see nothing. */
  ghost function SeenManifest(m: Fields, owner: string, ring: Keyring, holder: set<Key>): Option<Fields> {
    if StaysClear(m) then Some(map k | k in m :: Seen(m[k], owner, ring, holder))
    else if CanRead(m, owner, ring, holder) then Some(SeenFields(Dict(m), owner, ring, holder).fields)
    else None
  }

  lemma ScalarsStay(m: Fields, owner: string, ring: Keyring, name: string)
    requires EncryptFields(m, owner, ring).Ok?
    ensures TextAt(EncryptFields(m, owner, ring).value, name) == TextAt(m, name)
  {
  }

  /** A manifest is encrypted exactly when it names an owner, whose keys are known unless it stays clear, and every
      list in it can be read. */
  lemma ManifestEncryptsIff(m: Fields, ring: Keyring)
    requires PlainTree(Dict(m))
    ensures Encrypt(m, ring).Ok? <==>
            && TextAt(m, "owner").Some?
            && var owner := TextAt(m, "owner").value;
               && (forall k :: k in m ==> Encryptable(m[k], owner, ring))
               && (StaysClear(m) || (ring(owner).Some? && AccessUsable(m, owner, ring)))
  {
    hide Encryptable, AccessUsable, CanRead, StrippedList, TextAt;
    if TextAt(m, "owner").Some? {
      var owner := TextAt(m, "owner").value;
      forall k | k in m { EncryptsIff(m[k], owner, ring); }
      AccessIs(m, owner, ring, {});
      if EncryptFields(m, owner, ring).Ok? {
        AccessSurvives(m, owner, ring);
        ScalarsStay(m, owner, ring, "object");
      }
    }
    hide PlainTree, AccessOf;
  }

  /** A reader of a manifest gets from it exactly what he is to see; for any other it is closed. */
  lemma ManifestRoundTrip(m: Fields, owner: string, ring: Keyring, holder: set<Key>)
    requires PlainTree(Dict(m)) && TextAt(m, "owner") == Some(owner) && Encrypt(m, ring).Ok?
    ensures Encrypt(m, ring).value.Dict?
    ensures var seen := SeenManifest(m, owner, ring, holder);
            Decrypt(Encrypt(m, ring).value.fields, holder) == if seen.Some? then Ok(seen.value) else Err(CannotDecrypt)
  {
    var m' := EncryptFields(m, owner, ring).value;
    ScalarsStay(m, owner, ring, "object");
    forall k | k in m { DecryptUndoesEncrypt(m[k], owner, ring, holder); }
    if StaysClear(m) {
      assert Decrypt(m', holder).value == SeenManifest(m, owner, ring, holder).value;
    } else {
      AccessSurvives(m, owner, ring);
      InnerIsSeen(m, owner, ring, holder);
      ClosedManifest(m, owner, ring, holder);
    }
  }

  lemma EncryptedForm(m: Fields, owner: string, ring: Keyring)
    requires TextAt(m, "owner") == Some(owner) && Encrypt(m, ring).Ok? && !StaysClear(m)
    requires AccessOf(EncryptFields(m, owner, ring).value, owner, ring) == AccessOf(m, owner, ring)
    requires AccessOf(m, owner, ring).Ok?
    ensures ring(owner).Some?
    ensures var inner := Dict(Inner(m, owner, ring));
            Encrypt(m, ring).value ==
            match AccessOf(m, owner, ring).value
            case Everyone(_) => inner
            case Only(_, keys) => Envelope(inner, ring(owner).value + keys)
  {
    hide EncryptFields, AccessOf, Envelope, WithEntries;
    ScalarsStay(m, owner, ring, "object");
  }

  lemma ClosedManifest(m: Fields, owner: string, ring: Keyring, holder: set<Key>)
    requires TextAt(m, "owner") == Some(owner) && Encrypt(m, ring).Ok? && !StaysClear(m) && m.Keys != {"encrypted"}
    requires AccessOf(EncryptFields(m, owner, ring).value, owner, ring) == AccessOf(m, owner, ring)
    requires AccessOf(m, owner, ring).Ok?
    requires var inner := Inner(m, owner, ring);
             && inner.Keys == m.Keys
             && Dict(DecryptFields(inner, holder)) == SeenFields(Dict(m), owner, ring, holder)
    ensures Encrypt(m, ring).value.Dict?
    ensures Decrypt(Encrypt(m, ring).value.fields, holder) ==
            if CanRead(m, owner, ring, holder) then Ok(SeenFields(Dict(m), owner, ring, holder).fields) else Err(CannotDecrypt)
  {
    assert EncryptFields(m, owner, ring).Ok?;
    hide Encrypt, EncryptFields, AccessOf, Inner, Envelope, SeenFields, DecryptValue, Decrypt;
    EncryptedForm(m, owner, ring);
    hide CanRead, AccessUsable, StrippedList;
    AccessIs(m, owner, ring, holder);
    OpenManifest(Inner(m, owner, ring), AccessOf(m, owner, ring).value, ring(owner).value, holder);
  }

  /** Reading a manifest whose fields are in clear or in an envelope. */
  lemma OpenManifest(inner: Fields, access: Access, own: set<Key>, holder: set<Key>)
    requires inner.Keys != {"encrypted"}
    ensures var e := if access.Everyone? then Dict(inner) else Envelope(Dict(inner), own + access.keys);
            e.Dict? &&
            Decrypt(e.fields, holder) ==
            if access.Everyone? || (own + access.keys) * holder != {}
            then Ok(DecryptFields(inner, holder)) else Err(CannotDecrypt)
  {
    if access.Only? {
      OpenEnvelope(inner, own + access.keys, holder);
    } else {
      assert DecryptDict(inner, holder) == Ok(inner);
    }
  }

  /** Nodes that were envelopes before encryption are closed to the holder. */
  ghost predicate Shut(v: Value, holder: set<Key>) {
    match v
    case Dict(m) =>
      if IsEnvelope(v) then m["encrypted"].fields["encrypted-keys"].keys * holder == {}
      else forall k :: k in m ==> Shut(m[k], holder)
    case Items(vs) => forall i :: 0 <= i < |vs| ==> Shut(vs[i], holder)
    case _ => true
  }

  /** A holder of one of the owner's keys can read every node but those that were envelopes before. */
  lemma {:induction false} OwnerSeesAll(v: Value, owner: string, ring: Keyring, holder: set<Key>)
    requires ring(owner).Some? && ring(owner).value * holder != {} && EncryptValue(v, owner, ring).Ok? && PlainTree(v)
    requires Shut(v, holder)
    ensures Seen(v, owner, ring, holder) == Erased(v, owner, ring)
  {
    match v {
      case Items(vs) =>
        forall i | 0 <= i < |vs| { OwnerSeesAll(vs[i], owner, ring, holder); }
        assert Seen(v, owner, ring, holder).items == Erased(v, owner, ring).items;
      case Dict(m) =>
        if IsEnvelope(v) {
          EnvelopeStays(v, owner, ring);
          return;
        }
        forall k | k in m { OwnerSeesAll(m[k], owner, ring, holder); }
        AccessSurvives(m, owner, ring);
        ErasedFields(m, owner, ring, holder);
        if "access" in m { OwnerCanRead(m, owner, ring, holder); }
      case _ =>
    }
  }

  lemma OwnerCanRead(m: Fields, owner: string, ring: Keyring, holder: set<Key>)
    requires ring(owner).Some? && ring(owner).value * holder != {}
    ensures CanRead(m, owner, ring, holder)
  {
    var key :| key in ring(owner).value * holder;
    assert Reader(m, owner, ring, key);
  }

  /** The manifest with only the dropped pubkeys missing. */
  ghost function ErasedManifest(m: Fields, owner: string, ring: Keyring): Fields {
    if StaysClear(m) then map k | k in m :: Erased(m[k], owner, ring)
    else Erased(Dict(m), owner, ring).fields
  }

  /** A holder of one of the owner's keys recovers the whole manifest, up to the dropped pubkeys. */
  lemma OwnerRecoversAll(m: Fields, owner: string, ring: Keyring, holder: set<Key>)
    requires PlainTree(Dict(m)) && TextAt(m, "owner") == Some(owner) && Encrypt(m, ring).Ok?
    requires ring(owner).Some? && ring(owner).value * holder != {} && Shut(Dict(m), holder)
    ensures Encrypt(m, ring).value.Dict?
    ensures Decrypt(Encrypt(m, ring).value.fields, holder) == Ok(ErasedManifest(m, owner, ring))
  {
    hide EncryptValue, AccessOf, Decrypt, PlainTree;
    ManifestRoundTrip(m, owner, ring, holder);
    OwnerSeesManifest(m, owner, ring, holder);
  }

  lemma OwnerSeesManifest(m: Fields, owner: string, ring: Keyring, holder: set<Key>)
    requires PlainTree(Dict(m)) && TextAt(m, "owner") == Some(owner) && Encrypt(m, ring).Ok?
    requires ring(owner).Some? && ring(owner).value * holder != {} && Shut(Dict(m), holder)
    ensures SeenManifest(m, owner, ring, holder) == Some(ErasedManifest(m, owner, ring))
  {
    forall k | k in m { OwnerSeesAll(m[k], owner, ring, holder); }
    hide EncryptValue, Seen, Erased, PlainTree, ReadAccess;
    if StaysClear(m) {
      assert SeenManifest(m, owner, ring, holder).value == ErasedManifest(m, owner, ring);
    } else {
      AccessIsReadable(m, owner, ring);
      OwnerCanRead(m, owner, ring, holder);
      ErasedFields(m, owner, ring, holder);
    }
  }

  lemma AccessIsReadable(m: Fields, owner: string, ring: Keyring)
    requires PlainTree(Dict(m)) && TextAt(m, "owner") == Some(owner) && Encrypt(m, ring).Ok? && !StaysClear(m)
    ensures AccessOf(m, owner, ring).Ok?
  {
    AccessSurvives(m, owner, ring);
    ScalarsStay(m, owner, ring, "object");
  }

  lemma ErasedFields(m: Fields, owner: string, ring: Keyring, holder: set<Key>)
    requires forall k :: k in m ==> Seen(m[k], owner, ring, holder) == Erased(m[k], owner, ring)
    ensures SeenFields(Dict(m), owner, ring, holder) == Erased(Dict(m), owner, ring)
  {
    hide Seen, AccessOf;
    assert SeenFields(Dict(m), owner, ring, holder).fields == Erased(Dict(m), owner, ring).fields;
  }
}
