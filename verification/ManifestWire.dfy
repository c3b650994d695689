/** Signed manifests on the wire: encrypt and sign, print, split, verify, decrypt, migrate, check the owner. */
module ManifestWire {
  import opened Prelude
  import H = Header
  import opened Encryption
  import opened SigContexts
  import M = Migration

  /** YAML and the signature scheme, as given functions. `signer` reads the key id off a signature's text;
      `valid` says whether it is a signature of the data under that key. */
  datatype Codec = Codec(
    dump: Fields -> H.Text,
    load: H.Text -> Option<Fields>,
    sign: (KeyId, H.Text) -> H.Text,
    signer: H.Text -> Option<KeyId>,
    valid: (H.Text, H.Text, Pubkey) -> bool)

  /** Loading undoes dumping; a signature can be printed in a header, names its key, and is valid under it. */
  ghost predicate Ideal(c: Codec) {
    && (forall m :: c.load(c.dump(m)) == Some(m))
    && (forall k, d :: H.Clean(c.sign(k, d)) && c.signer(c.sign(k, d)) == Some(k) && c.valid(c.sign(k, d), d, Pubkey(k)))
  }

  datatype WireError = BadHeader | SignatureExpected | BadSignature | BadYaml | Locked | BadVersion | WrongOwner

  datatype Manifest = Manifest(signature: Option<H.Text>, fields: Fields, data: H.Text)

  /** The keyring of a context: all public keys of a user. */
  function Ring(ctx: Context): Keyring {
    user => AllPubkeys(ctx, user)
  }

  // ---- writing ----

  /** encrypt_and_sign, then to_bytes; None stands for an exception. */
  function Write(c: Codec, ctx: Context, m: Fields, onlyPrimary: bool): Option<H.Text> {
    match (TextAt(m, "owner"), Encrypt(m, Ring(ctx)))
    case (Some(owner), Ok(Dict(fields))) =>
      var data := c.dump(fields);
      (match SigningKey(ctx, owner, onlyPrimary)
       case None => None
       case Some(k) =>
         match H.ToBytes(Some(H.StripNewlines(c.sign(k, data))))
         case None => None
         case Some(header) => Some(header + H.SEPARATOR + data))
    case _ => None
  }

  // ---- reading ----

  /** Header.verify_rest with SigContext.verify: the key that signed, or who is trusted without a signature. */
  function VerifyRest(c: Codec, ctx: Context, signature: Option<H.Text>, data: H.Text, trusted: Option<KeyId>)
    : Result<KeyId, WireError>
  {
    match signature
    case None => if trusted.Some? then Ok(trusted.value) else Err(SignatureExpected)
    case Some(s) =>
      match c.signer(s)
      case None => Err(BadSignature)
      case Some(k) =>
        if k in ctx.keys && c.valid(s, data, ctx.keys[k]) then Ok(ctx.keys[k].fingerprint) else Err(BadSignature)
  }

  /** _parse_yaml */
  function Parse(c: Codec, ctx: Context, data: H.Text): Result<Fields, WireError> {
    match c.load(data)
    case None => Err(BadYaml)
    case Some(m) =>
      match Decrypt(m, ctx.privateKeys)
      case Err(_) => Err(Locked)
      case Ok(plain) =>
        match M.UpdateVersion(plain)
        case Err(_) => Err(BadVersion)
        case Ok(fields) => Ok(fields)
  }

  /** Manifest.from_bytes */
  function FromBytes(c: Codec, ctx: Context, bytes: H.Text, trusted: Option<KeyId>, onlyPrimary: bool)
    : Result<Manifest, WireError>
  {
    match H.SplitHeader(bytes)
    case None => Err(BadHeader)
    case Some((headerText, data)) =>
      match H.FromBytes(headerText)
      case Err(_) => Err(BadHeader)
      case Ok(signature) =>
        var signer :- VerifyRest(c, ctx, signature, data, trusted);
        var fields :- Parse(c, ctx, data);
        var owner := TextAt(fields, "owner");
        var accepted :=
          if signature.None? then owner == trusted
          else owner.Some? && (owner.value == signer || (!onlyPrimary && owner.value in PossibleOwners(ctx, signer)));
        if accepted then Ok(Manifest(signature, fields, data)) else Err(WrongOwner)
  }

  // ---- the round trip ----

  /** Whoever can sign for an owner has one of the owner's keys. */
  lemma SignerCanRead(ctx: Context, owner: KeyId, onlyPrimary: bool)
    requires WellKept(ctx) && SigningKey(ctx, owner, onlyPrimary).Some? && AllPubkeys(ctx, owner).Some?
    ensures Ring(ctx)(owner).Some? && Ring(ctx)(owner).value * ctx.privateKeys != {}
  {
    SignerMayOwn(ctx, owner, onlyPrimary);
    assert SigningKey(ctx, owner, onlyPrimary).value in Ring(ctx)(owner).value * ctx.privateKeys;
  }

  lemma OwnerKept(m: Fields, owner: string, ring: Keyring)
    requires TextAt(m, "owner") == Some(owner)
    ensures TextAt(ErasedManifest(m, owner, ring), "owner") == Some(owner)
  {
    assert Erased(m["owner"], owner, ring) == m["owner"];
    assert Erased(Dict(m), owner, ring).fields["owner"] == m["owner"];
    assert ErasedManifest(m, owner, ring)["owner"] == m["owner"];
  }

  // ---- migrated fields stay migrated when pubkeys are dropped ----

  /** The fields of a node with the pubkeys dropped; whether they go from its own access list does not matter here. */
  ghost predicate ErasedFrom(m: Fields, e: Fields, owner: string, ring: Keyring) {
    && e.Keys == m.Keys
    && forall k :: k in m ==> if k == "access" then m[k].Items? && e[k].Items? else e[k] == Erased(m[k], owner, ring)
  }

  lemma NodeErased(m: Fields, owner: string, ring: Keyring)
    requires PlainTree(Dict(m))
    ensures Erased(Dict(m), owner, ring).Dict? && ErasedFrom(m, Erased(Dict(m), owner, ring).fields, owner, ring)
  {
  }

  lemma ErasedShape(v: Value, owner: string, ring: Keyring)
    ensures var e := Erased(v, owner, ring);
            && (v.Dict? ==> e.Dict? && e.fields.Keys == v.fields.Keys)
            && (v.Items? ==> e.Items? && |e.items| == |v.items| &&
                             forall i :: 0 <= i < |v.items| ==> e.items[i] == Erased(v.items[i], owner, ring))
            && (!v.Dict? && !v.Items? ==> e == v)
  {
  }

  /** Dropping pubkeys changes no text. */
  lemma TextsStay(m: Fields, e: Fields, owner: string, ring: Keyring)
    requires ErasedFrom(m, e, owner, ring)
    ensures forall k, t :: M.Is(m, k, t) <==> M.Is(e, k, t)
    ensures forall k :: k in m && k != "access" ==> (M.Truthy(m[k]) <==> M.Truthy(e[k]))
  {
    hide Erased;
    forall k | k in m { ErasedShape(m[k], owner, ring); }
    forall k | k in m && k != "access"
      ensures M.Truthy(m[k]) <==> M.Truthy(e[k])
    {
      if m[k].Dict? { EmptyIffNoKeys(m[k].fields, e[k].fields); }
    }
  }

  lemma EmptyIffNoKeys(m: Fields, e: Fields)
    requires m.Keys == e.Keys
    ensures m == map[] <==> e == map[]
  {
    if m == map[] { assert e.Keys == {}; }
    if e == map[] { assert m.Keys == {}; }
  }

  lemma LinksStay(v: Value, owner: string, ring: Keyring)
    requires PlainTree(v)
    ensures M.IsLink(v) <==> M.IsLink(Erased(v, owner, ring))
  {
    hide Erased, PlainTree;
    ErasedShape(v, owner, ring);
    if v.Dict? {
      NodeErased(v.fields, owner, ring);
      TextsStay(v.fields, Erased(v, owner, ring).fields, owner, ring);
      assert M.Is(v.fields, "object", "link") <==> M.Is(Erased(v, owner, ring).fields, "object", "link");
    }
  }

  lemma StoragesErased(m: Fields, e: Fields, owner: string, ring: Keyring)
    requires PlainTree(Dict(m)) && ErasedFrom(m, e, owner, ring)
    ensures M.BadBackends(m) <==> M.BadBackends(e)
    ensures M.HasStorages(m) <==> M.HasStorages(e)
    ensures M.HasStorages(m) ==>
              e["backends"].fields["storage"] == Erased(m["backends"].fields["storage"], owner, ring)
              && PlainTree(m["backends"].fields["storage"])
  {
    if "backends" in m {
      assert PlainTree(m["backends"]);
      ErasedShape(m["backends"], owner, ring);
      match m["backends"] {
        case Dict(b) =>
          NodeErased(b, owner, ring);
          if "storage" in b { ErasedShape(b["storage"], owner, ring); }
        case Items(vs) =>
          hide Erased, PlainTree;
          forall i | 0 <= i < |vs|
            ensures vs[i] == Scalar("storage") <==> e["backends"].items[i] == Scalar("storage")
          {
            ErasedShape(vs[i], owner, ring);
          }
        case _ =>
      }
    }
  }

  lemma {:induction false} ErasedStaysMigrated(m: Fields, e: Fields, inline: bool, owner: string, ring: Keyring)
    requires PlainTree(Dict(m)) && ErasedFrom(m, e, owner, ring) && M.Migrated(m, inline)
    ensures M.Migrated(e, inline)
    decreases Dict(m), 1
  {
    assert forall k :: k in m ==> PlainTree(m[k]);
    hide Erased, PlainTree, M.BadBackends, M.HasStorages;
    TextsStay(m, e, owner, ring);
    StoragesErased(m, e, owner, ring);
    assert M.Current(e, inline);
    if M.HasStorages(m) { ErasedListStays(m["backends"].fields["storage"].items, owner, ring); }
    CatalogStays(m, e, owner, ring);
    forall k | k in m && k != "access" && m[k].Dict?
      ensures e[k] == Erased(m[k], owner, ring) && e[k].Dict? && ErasedFrom(m[k].fields, e[k].fields, owner, ring)
    {
      ErasedShape(m[k], owner, ring);
      NodeErased(m[k].fields, owner, ring);
    }
    if M.Is(m, "object", "link") && "storage" in m {
      ErasedShape(m["storage"], owner, ring);
      if m["storage"].Dict? { ErasedStaysMigrated(m["storage"].fields, e["storage"].fields, false, owner, ring); }
    }
    forall k | k in e && M.IsLink(e[k])
      ensures M.Migrated(e[k].fields, false)
    {
      LinksStay(m[k], owner, ring);
      ErasedStaysMigrated(m[k].fields, e[k].fields, false, owner, ring);
    }
    assert M.Is(m, "object", "link") <==> M.Is(e, "object", "link");
  }

  lemma {:induction false} CatalogStays(m: Fields, e: Fields, owner: string, ring: Keyring)
    requires PlainTree(Dict(m)) && ErasedFrom(m, e, owner, ring)
    requires "manifests-catalog" in m && m["manifests-catalog"].Items? ==> M.MigratedList(m["manifests-catalog"].items)
    ensures "manifests-catalog" in e && e["manifests-catalog"].Items? ==> M.MigratedList(e["manifests-catalog"].items)
    decreases Dict(m), 0
  {
    hide M.MigratedList, Erased;
    if "manifests-catalog" in m {
      ErasedShape(m["manifests-catalog"], owner, ring);
      if m["manifests-catalog"].Items? { ErasedListStays(m["manifests-catalog"].items, owner, ring); }
    }
  }

  lemma {:induction false} ErasedListStays(vs: seq<Value>, owner: string, ring: Keyring)
    requires PlainTree(Items(vs)) && M.MigratedList(vs)
    ensures M.MigratedList(Erased(Items(vs), owner, ring).items)
    decreases Items(vs), 0
  {
    var es := Erased(Items(vs), owner, ring).items;
    forall i | 0 <= i < |es| && es[i].Dict?
      ensures M.Migrated(es[i].fields, true)
    {
      ErasedShape(vs[i], owner, ring);
      NodeErased(vs[i].fields, owner, ring);
      ErasedStaysMigrated(vs[i].fields, es[i].fields, true, owner, ring);
    }
  }

  lemma ManifestErased(m: Fields, owner: string, ring: Keyring)
    requires PlainTree(Dict(m))
    ensures ErasedFrom(m, ErasedManifest(m, owner, ring), owner, ring)
  {
    if StaysClear(m) {
      if "access" in m { ErasedShape(m["access"], owner, ring); }
    } else {
      NodeErased(m, owner, ring);
    }
  }

  /** What is up to date before pubkeys are dropped is up to date afterwards. */
  lemma ErasedStaysCurrent(m: Fields, owner: string, ring: Keyring)
    requires PlainTree(Dict(m)) && M.UpdateVersion(m) == Ok(m)
    ensures M.UpdateVersion(ErasedManifest(m, owner, ring)) == Ok(ErasedManifest(m, owner, ring))
  {
    hide Erased, PlainTree, M.Migrated, M.Bounded, M.UpdateObsolete, ErasedManifest;
    M.MigrationIsIdempotent(m);
    ManifestErased(m, owner, ring);
    var e := ErasedManifest(m, owner, ring);
    ErasedStaysMigrated(m, e, false, owner, ring);
    M.MigratedStays(e, false, M.BoundOf(e));
  }

  /** What a written manifest is: a header that parses back, the separator, and the dumped fields. */
  lemma WrittenForm(c: Codec, ctx: Context, m: Fields, owner: string, onlyPrimary: bool)
    requires Ideal(c) && TextAt(m, "owner") == Some(owner)
    requires Encrypt(m, Ring(ctx)).Ok? && Encrypt(m, Ring(ctx)).value.Dict? && SigningKey(ctx, owner, onlyPrimary).Some?
    ensures var data := c.dump(Encrypt(m, Ring(ctx)).value.fields);
            var s := c.sign(SigningKey(ctx, owner, onlyPrimary).value, data);
            && H.ToBytes(Some(s)).Some?
            && Write(c, ctx, m, onlyPrimary) == Some(H.ToBytes(Some(s)).value + H.SEPARATOR + data)
            && H.SplitHeader(Write(c, ctx, m, onlyPrimary).value) == Some((H.ToBytes(Some(s)).value, data))
            && H.FromBytes(H.ToBytes(Some(s)).value) == Ok(Some(s))
  {
    hide Encrypt, SigningKey, H.ToBytes, H.FromBytes, H.SplitHeader;
    var data := c.dump(Encrypt(m, Ring(ctx)).value.fields);
    var s := c.sign(SigningKey(ctx, owner, onlyPrimary).value, data);
    assert H.StripNewlines(s) == s;
    H.HeaderRoundTrip(Some(s));
    H.SplitRoundTrip(Some(s), data);
  }

  /** What is encrypted and signed for its owner is accepted when read back, whole up to the erased pubkeys,
      by anyone with the same keys; reading with the primary key only, exactly when that is the one that signed. */
  lemma WireRoundTrip(c: Codec, ctx: Context, m: Fields, owner: string, signPrimary: bool, trusted: Option<KeyId>, readPrimary: bool)
    requires Ideal(c) && WellKept(ctx) && PlainTree(Dict(m)) && TextAt(m, "owner") == Some(owner)
    requires owner in ctx.keys && Encrypt(m, Ring(ctx)).Ok? && SigningKey(ctx, owner, signPrimary).Some?
    requires M.UpdateVersion(m) == Ok(m) && Shut(Dict(m), ctx.privateKeys)
    ensures Write(c, ctx, m, signPrimary).Some?
    ensures var r := FromBytes(c, ctx, Write(c, ctx, m, signPrimary).value, trusted, readPrimary);
            if readPrimary && SigningKey(ctx, owner, signPrimary).value != owner then r == Err(WrongOwner)
            else r.Ok? && r.value.fields == ErasedManifest(m, owner, Ring(ctx))
  {
    hide Encrypt, Decrypt, SigningKey, M.UpdateVersion, ErasedManifest, H.FromBytes, H.ToBytes, H.SplitHeader, Write,
      PlainTree, WellKept, PossibleOwners, AllPubkeys;
    ErasedStaysCurrent(m, owner, Ring(ctx));
    OwnedKeysAreKnown(ctx, owner);
    SignerCanRead(ctx, owner, signPrimary);
    OwnerRecoversAll(m, owner, Ring(ctx), ctx.privateKeys);
    WrittenForm(c, ctx, m, owner, signPrimary);
    SignerMayOwn(ctx, owner, signPrimary);
    OwnerKept(m, owner, Ring(ctx));
    var k := SigningKey(ctx, owner, signPrimary).value;
    var data := c.dump(Encrypt(m, Ring(ctx)).value.fields);
    assert ctx.keys[k] == Pubkey(k);
    assert VerifyRest(c, ctx, Some(c.sign(k, data)), data, trusted) == Ok(k);
    assert Parse(c, ctx, data) == Ok(ErasedManifest(m, owner, Ring(ctx)));
  }

  /** The same over every run of changes to a context. */
  lemma ReachableRoundTrip(c: Codec, changes: seq<Change>, m: Fields, owner: string, signPrimary: bool)
    requires Ideal(c) && PlainTree(Dict(m)) && TextAt(m, "owner") == Some(owner)
    ensures var ctx := ApplyAll(SigContexts.EMPTY, changes);
            CanWrite(ctx, m, owner, signPrimary) ==>
              && Write(c, ctx, m, signPrimary).Some?
              && var r := FromBytes(c, ctx, Write(c, ctx, m, signPrimary).value, None, false);
                 r.Ok? && r.value.fields == ErasedManifest(m, owner, Ring(ctx))
  {
    hide Write, FromBytes;
    ReachableIsWellKept(changes);
    var ctx := ApplyAll(SigContexts.EMPTY, changes);
    if CanWrite(ctx, m, owner, signPrimary) {
      WireRoundTrip(c, ctx, m, owner, signPrimary, None, false);
    }
  }

  /** The context has the keys to encrypt and sign the manifest, whose fields are up to date. */
  ghost predicate CanWrite(ctx: Context, m: Fields, owner: string, signPrimary: bool) {
    && owner in ctx.keys && Encrypt(m, Ring(ctx)).Ok? && SigningKey(ctx, owner, signPrimary).Some?
    && M.UpdateVersion(m) == Ok(m) && Shut(Dict(m), ctx.privateKeys)
  }

  // ---- what is refused ----

  /** The signature is valid for exactly this data, under a known key that the owner named in it may sign with. */
  ghost predicate SignedFor(c: Codec, ctx: Context, r: Manifest, onlyPrimary: bool) {
    && r.signature.Some? && c.signer(r.signature.value).Some?
    && var k := c.signer(r.signature.value).value;
       && k in ctx.keys && c.valid(r.signature.value, r.data, ctx.keys[k])
       && TextAt(r.fields, "owner").Some?
       && var owner := TextAt(r.fields, "owner").value;
          owner == ctx.keys[k].fingerprint || (!onlyPrimary && owner in PossibleOwners(ctx, ctx.keys[k].fingerprint))
  }

  /** Whatever is accepted is the data after a header that says its signature, and is signed for its owner; or it has
      no signature and its owner is the one trusted. Its fields are up to date. */
  lemma AcceptedIsSigned(c: Codec, ctx: Context, bytes: H.Text, trusted: Option<KeyId>, onlyPrimary: bool)
    requires FromBytes(c, ctx, bytes, trusted, onlyPrimary).Ok?
    ensures var r := FromBytes(c, ctx, bytes, trusted, onlyPrimary).value;
            && H.SplitHeader(bytes).Some? && H.SplitHeader(bytes).value.1 == r.data
            && H.FromBytes(H.SplitHeader(bytes).value.0) == Ok(r.signature)
            && (SignedFor(c, ctx, r, onlyPrimary) ||
                (r.signature.None? && trusted.Some? && TextAt(r.fields, "owner") == trusted))
            && M.UpdateVersion(r.fields) == Ok(r.fields)
  {
    hide H.SplitHeader, H.FromBytes, Decrypt, M.UpdateVersion, M.Migrated, PossibleOwners;
    var data := FromBytes(c, ctx, bytes, trusted, onlyPrimary).value.data;
    M.MigrationIsIdempotent(Decrypt(c.load(data).value, ctx.privateKeys).value);
  }

  /** A signature is valid for one text only, whatever key it is tried with. */
  ghost predicate Binding(c: Codec) {
    forall s, d, d', k, k' :: c.valid(s, d, k) && c.valid(s, d', k') ==> d == d'
  }

  /** A manifest with its data altered is refused by every context, whoever is trusted. */
  lemma AlteredIsRefused(c: Codec, ctx: Context, k: KeyId, data: H.Text, altered: H.Text, trusted: Option<KeyId>, onlyPrimary: bool)
    requires Ideal(c) && Binding(c) && altered != data
    ensures var header := H.ToBytes(Some(c.sign(k, data)));
            header.Some? && FromBytes(c, ctx, header.value + H.SEPARATOR + altered, trusted, onlyPrimary).Err?
  {
    hide H.SplitHeader, H.FromBytes, H.ToBytes, Parse;
    var s := c.sign(k, data);
    assert H.StripNewlines(s) == s;
    H.HeaderRoundTrip(Some(s));
    H.SplitRoundTrip(Some(s), altered);
    assert c.valid(s, data, Pubkey(k));
    assert VerifyRest(c, ctx, Some(s), altered, trusted).Err?;
  }
}
