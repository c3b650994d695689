/** Wildland paths: parsing, printing, and what survives the round trip. */
module WlPath {
  import opened Prelude

  type Text = string

  // ---- text ----

  function Split(s: Text): (r: seq<Text>)
    ensures r != [] && (':' !in s ==> r == [s])
  {
    if s == "" then [""]
    else
      var rest := Split(s[1..]);
      assert s == [s[0]] + s[1..];
      if s[0] == ':' then [""] + rest else [[s[0]] + rest[0]] + rest[1..]
  }

  function Joined(pieces: seq<Text>): Text {
    if pieces == [] then "" else if |pieces| == 1 then pieces[0] else pieces[0] + ":" + Joined(pieces[1..])
  }

  lemma HeadKept(c: char, a: seq<Text>, b: seq<Text>)
    requires a != []
    ensures [""] + (a + b) == [""] + a + b
    ensures [[c] + (a + b)[0]] + (a + b)[1..] == [[c] + a[0]] + a[1..] + b
  {
    assert (a + b)[1..] == a[1..] + b;
  }

  lemma FirstApart(a: Text, b: Text, c: char)
    ensures a == "" ==> a + [c] + b == [c] + b
    ensures a != "" ==> a == [a[0]] + a[1..] && a + [c] + b == [a[0]] + (a[1..] + [c] + b)
  {
  }

  lemma SplitStep(c: char, t: Text)
    ensures Split([c] + t) == if c == ':' then [""] + Split(t) else [[c] + Split(t)[0]] + Split(t)[1..]
  {
    assert ([c] + t)[0] == c && ([c] + t)[1..] == t;
  }

  lemma {:induction false} SplitAt(a: Text, b: Text)
    ensures Split(a + ":" + b) == Split(a) + Split(b)
  {
    assert Split("") == [""];
    hide Split;
    if a == "" {
      FirstApart(a, b, ':');
      SplitStep(':', b);
    } else {
      var t := a[1..] + ":" + b;
      FirstApart(a, b, ':');
      SplitAt(a[1..], b);
      SplitStep(a[0], a[1..]);
      SplitStep(a[0], t);
      HeadKept(a[0], Split(a[1..]), Split(b));
    }
  }

  lemma {:induction false} PiecesCount(s: Text)
    ensures |Split(s)| == 1 <==> ':' !in s
    ensures forall piece :: piece in Split(s) ==> ':' !in piece
    decreases |s|
  {
    if s != "" {
      PiecesCount(s[1..]);
      assert s == [s[0]] + s[1..];
      var rest := Split(s[1..]);
      assert rest[0] in rest;
    }
  }

  lemma {:induction false} SplitJoined(pieces: seq<Text>)
    requires pieces != [] && forall piece :: piece in pieces ==> ':' !in piece
    ensures Split(Joined(pieces)) == pieces
  {
    if |pieces| > 1 {
      SplitJoined(pieces[1..]);
      SplitAt(pieces[0], Joined(pieces[1..]));
      assert [pieces[0]] + pieces[1..] == pieces;
    }
  }

  // ---- file paths ----

  /** A PurePosixPath: its root ("", "/" or "//") and names. */
  datatype PosixPath = PosixPath(root: Text, names: seq<Text>)

  /** The names of a path text: its parts between slashes but empty ones and single dots. */
  function Names(s: Text): seq<Text> {
    Kept(Cut(s))
  }

  function Cut(s: Text): (r: seq<Text>)
    ensures r != [] && forall name :: name in r ==> '/' !in name
  {
    if s == "" then [""]
    else
      var rest := Cut(s[1..]);
      assert rest[0] in rest;
      if s[0] == '/' then [""] + rest else [[s[0]] + rest[0]] + rest[1..]
  }

  function Kept(names: seq<Text>): (r: seq<Text>)
    ensures forall name :: name in r <==> name in names && name != "" && name != "."
  {
    if names == [] then []
    else (if names[0] == "" || names[0] == "." then [] else [names[0]]) + Kept(names[1..])
  }

  /** Exactly two leading slashes are a root of their own. */
  function Root(s: Text): Text {
    if "//" <= s && !("///" <= s) then "//" else if "/" <= s then "/" else ""
  }

  function PosixOf(s: Text): PosixPath {
    PosixPath(Root(s), Names(s))
  }

  function Slashed(names: seq<Text>): Text {
    if names == [] then "" else if |names| == 1 then names[0] else names[0] + "/" + Slashed(names[1..])
  }

  function Show(p: PosixPath): Text {
    var s := p.root + Slashed(p.names);
    if s == "" then "." else s
  }

  predicate Normal(p: PosixPath) {
    (p.root == "" || p.root == "/" || p.root == "//") && forall name :: name in p.names ==> IsName(name)
  }

  predicate IsName(name: Text) {
    name != "" && name != "." && '/' !in name
  }

  lemma PosixIsNormal(s: Text)
    ensures Normal(PosixOf(s))
  {
  }

  lemma CutStep(c: char, t: Text)
    ensures Cut([c] + t) == if c == '/' then [""] + Cut(t) else [[c] + Cut(t)[0]] + Cut(t)[1..]
  {
    assert ([c] + t)[0] == c && ([c] + t)[1..] == t;
  }

  lemma {:induction false} CutAt(a: Text, b: Text)
    ensures Cut(a + "/" + b) == Cut(a) + Cut(b)
  {
    assert Cut("") == [""];
    hide Cut;
    if a == "" {
      FirstApart(a, b, '/');
      CutStep('/', b);
    } else {
      var t := a[1..] + "/" + b;
      FirstApart(a, b, '/');
      CutAt(a[1..], b);
      CutStep(a[0], a[1..]);
      CutStep(a[0], t);
      HeadKept(a[0], Cut(a[1..]), Cut(b));
    }
  }

  lemma {:induction false} CutName(name: Text)
    requires '/' !in name
    ensures Cut(name) == [name]
  {
    if name != "" {
      assert name == [name[0]] + name[1..];
      CutName(name[1..]);
    }
  }

  lemma {:induction false} KeptAppend(a: seq<Text>, b: seq<Text>)
    ensures Kept(a + b) == Kept(a) + Kept(b)
  {
    if a == [] {
      assert a + b == b;
    } else {
      assert (a + b)[0] == a[0] && (a + b)[1..] == a[1..] + b;
      KeptAppend(a[1..], b);
    }
  }

  lemma {:induction false} NamesOfSlashed(names: seq<Text>)
    requires forall name :: name in names ==> IsName(name)
    ensures Names(Slashed(names)) == names
  {
    if names == [] {
      assert Kept([""]) == [];
    } else {
      assert names[0] in names;
      CutName(names[0]);
      assert Kept([names[0]]) == [names[0]] + Kept([]);
      if |names| > 1 {
        NamesOfSlashed(names[1..]);
        CutAt(names[0], Slashed(names[1..]));
        KeptAppend(Cut(names[0]), Cut(Slashed(names[1..])));
      }
    }
  }

  /** Leading slashes leave the names alone. */
  lemma NamesAfterSlash(s: Text)
    ensures Names("/" + s) == Names(s)
  {
    CutAt("", s);
    assert "" + "/" + s == "/" + s;
    KeptAppend([""], Cut(s));
    assert Kept([""]) == Kept([]);
  }

  lemma SlashedStart(names: seq<Text>)
    requires forall name :: name in names ==> IsName(name)
    ensures names == [] ==> Slashed(names) == ""
    ensures names != [] ==> Slashed(names) != "" && Slashed(names)[0] != '/'
  {
    assert names != [] ==> names[0] in names;
  }

  /** Normalising is idempotent: a printed path is read back as itself. */
  lemma ShowIsRead(p: PosixPath)
    requires Normal(p)
    ensures PosixOf(Show(p)) == p
  {
    hide Names, Slashed;
    var t := Slashed(p.names);
    NamesOfSlashed(p.names);
    SlashedStart(p.names);
    RootStays(p.root, t);
    NamesAfterSlash(t);
    NamesAfterSlash("/" + t);
    assert "" + t == t && "/" + ("/" + t) == "//" + t;
    DotHasNoNames();
    assert t == "" ==> p.names == Names("");
    assert Names("") == [] by { NoNames(); }
  }

  lemma NoNames()
    ensures Names("") == []
  {
    var empty: Text := "";
    var one := [empty];
    CutName(empty);
    assert one[1..] == [] && one[0] == "";
    assert Kept(one) == Kept(one[1..]);
  }

  lemma RootStays(root: Text, t: Text)
    requires (root == "" || root == "/" || root == "//") && (t != "" ==> t[0] != '/')
    ensures Root(root + t) == root && Root(".") == ""
  {
    var s := root + t;
    assert "/" <= s ==> s[0] == '/';
    assert "//" <= s ==> s[0] == '/' && s[1] == '/';
    assert |s| > 2 && s[2] != '/' ==> !("///" <= s);
    assert t != "" ==> s[|root|] == t[0];
    var dot := ".";
    assert dot[0] != '/';
  }

  lemma DotHasNoNames()
    ensures Names(".") == []
  {
    CutName(".");
    assert Kept(["."]) == Kept([]);
  }

  // ---- patterns ----

  predicate Hex(c: char) { '0' <= c <= '9' || 'a' <= c <= 'f' }

  /** 0x and one or more hexadecimal digits. */
  predicate Fingerprint(s: Text) {
    |s| > 2 && s[..2] == "0x" && forall i :: 2 <= i < |s| ==> Hex(s[i])
  }

  /** @ and one or more lower-case letters or dashes. */
  predicate Alias(s: Text) {
    |s| > 1 && s[0] == '@' && forall i :: 1 <= i < |s| ==> 'a' <= s[i] <= 'z' || s[i] == '-'
  }

  /** What `$` may end a match at: the end of the text, or a newline there. */
  function Chomped(s: Text): Text {
    if s != "" && s[|s| - 1] == '\n' then s[..|s| - 1] else s
  }

  predicate OwnerField(s: Text) {
    Fingerprint(Chomped(s)) || Alias(Chomped(s))
  }

  predicate Absolute(s: Text) {
    "/" <= Chomped(s) && '\n' !in Chomped(s)
  }

  const PREFIX: Text := "wildland:"
  const HINT_START: Text := "https{"
  const HINT_SCHEME: Text := "https://"

  /** Position of the first @, or the length. */
  function At(s: Text): (k: nat)
    ensures k <= |s| && (forall i :: 0 <= i < k ==> s[i] != '@') && (k < |s| ==> s[k] == '@')
  {
    if s == "" || s[0] == '@' then 0 else 1 + At(s[1..])
  }

  /** A closing brace on the first line. */
  predicate ClosesOnLine(s: Text) {
    exists i :: 0 <= i < |s| && s[i] == '}' && '\n' !in s[..i]
  }

  /** HINT_RE: a fingerprint, @https{, and a closing brace; anything may follow. */
  predicate HintField(s: Text) {
    var k := At(s);
    && k < |s| && Fingerprint(s[..k])
    && HINT_START <= s[k + 1..] && ClosesOnLine(s[k + 1 + |HINT_START|..])
  }

  /** What WLPATH_RE allows before the first part. */
  predicate OwnerPattern(s: Text) {
    s == "" || Fingerprint(s) || Alias(s) || (HintField(s) && s[|s| - 1] == '}' && '\n' !in s)
  }

  /** match: the start of the text is like a Wildland path's. */
  ghost predicate Match(s: Text) {
    exists owner :: OwnerPattern(owner) && (owner + ":" <= s || PREFIX + owner + ":" <= s)
  }

  // ---- parsing ----

  datatype WlPath = WlPath(owner: Option<Text>, hint: Option<Text>, parts: seq<PosixPath>, file: Option<PosixPath>)

  datatype PathError =
    NoColon | HintNeedsOwner(field: Text) | BadOwner(field: Text) | NotAbsolute(part: Text) | NoContainers(text: Text)

  /** Percent-decoding, which never fails. */
  type Unquote = Text -> Text

  function Without(s: Text, prefix: Text): Text {
    if prefix <= s then s[|prefix|..] else s
  }

  predicate Contains(s: Text, sub: Text) {
    exists i :: 0 <= i <= |s| && sub <= s[i..]
  }

  function ParseOwner(unquote: Unquote, field: Text): Result<(Option<Text>, Option<Text>), PathError> {
    if field == "" then Ok((None, None))
    else if OwnerField(field) then Ok((Some(field), None))
    else if HintField(field) then
      var k := At(field);
      var hint := field[k + 1..];
      Ok((Some(field[..k]), Some(HINT_SCHEME + unquote(hint[|HINT_START|..|hint| - 1]))))
    else if Contains(field, "@https") && !Contains(field, "0x") then Err(HintNeedsOwner(field))
    else Err(BadOwner(field))
  }

  predicate PartText(s: Text) {
    s == "*" || Absolute(s)
  }

  function ParseParts(pieces: seq<Text>): (r: Result<seq<PosixPath>, PathError>)
    ensures r.Ok? <==> forall piece :: piece in pieces ==> PartText(piece)
    ensures r.Ok? ==> |r.value| == |pieces| && forall i :: 0 <= i < |pieces| ==> r.value[i] == PosixOf(pieces[i])
  {
    if pieces == [] then Ok([])
    else if !PartText(pieces[0]) then Err(NotAbsolute(pieces[0]))
    else
      var rest :- ParseParts(pieces[1..]);
      Ok([PosixOf(pieces[0])] + rest)
  }

  function ParseFile(piece: Text): Result<Option<PosixPath>, PathError> {
    if piece == "" then Ok(None)
    else if Absolute(piece) then Ok(Some(PosixOf(piece)))
    else Err(NotAbsolute(piece))
  }

  function Parse(unquote: Unquote, text: Text): Result<WlPath, PathError> {
    var s := Without(text, PREFIX);
    if ':' !in s then Err(NoColon)
    else ParsePieces(unquote, s, Split(s))
  }

  function ParsePieces(unquote: Unquote, s: Text, pieces: seq<Text>): Result<WlPath, PathError>
    requires |pieces| > 0
  {
    if |pieces| == 1 then Err(NoColon)
    else
      var owner :- ParseOwner(unquote, pieces[0]);
      var parts :- ParseParts(pieces[1..|pieces| - 1]);
      var file :- ParseFile(pieces[|pieces| - 1]);
      if parts == [] then Err(NoContainers(s)) else Ok(WlPath(owner.0, owner.1, parts, file))
  }

  // ---- printing ----

  function Shown(parts: seq<PosixPath>): (r: seq<Text>)
    ensures |r| == |parts| && forall i :: 0 <= i < |r| ==> r[i] == Show(parts[i])
  {
    seq(|parts|, i requires 0 <= i < |parts| => Show(parts[i]))
  }

  /** The text after the scheme of a hint. */
  function Address(hint: Text): Text {
    if |hint| >= |HINT_SCHEME| then hint[|HINT_SCHEME|..] else ""
  }

  function PrintOwner(owner: Option<Text>, hint: Option<Text>): Text {
    (if owner.Some? then owner.value else "")
    + (if hint.Some? then "@" + HINT_START + Address(hint.value) + "}" else "")
  }

  function PrintFile(file: Option<PosixPath>): Text {
    if file.Some? then Show(file.value) else ""
  }

  /** to_str. */
  function Print(p: WlPath, withPrefix: bool): Text {
    (if withPrefix then PREFIX else "")
    + (PrintOwner(p.owner, p.hint) + ":" + Joined(Shown(p.parts)) + ":" + PrintFile(p.file))
  }

  /** get_canonical_form. */
  function Canonical(unquote: Unquote, s: Text): Result<Text, PathError> {
    var p :- Parse(unquote, s);
    Ok(Print(p, true))
  }

  // ---- what survives ----

  /** A printed hint is read back when its address reads as itself. */
  predicate HintSurvives(unquote: Unquote, address: Text) {
    ':' !in address && ClosesOnLine(address + "}") && unquote(address) == address
  }

  predicate OwnerSurvives(unquote: Unquote, owner: Option<Text>, hint: Option<Text>) {
    match (owner, hint)
    case (None, None) => true
    case (Some(o), None) => OwnerField(o)
    case (Some(o), Some(h)) => Fingerprint(o) && HINT_SCHEME <= h && HintSurvives(unquote, Address(h))
    case (None, Some(_)) => false
  }

  predicate PathSurvives(p: PosixPath) {
    Normal(p) && ':' !in Show(p) && PartText(Show(p))
  }

  ghost predicate Survives(unquote: Unquote, p: WlPath) {
    && OwnerSurvives(unquote, p.owner, p.hint)
    && p.parts != [] && (forall part :: part in p.parts ==> PathSurvives(part))
    && (p.file.Some? ==> PathSurvives(p.file.value) && Absolute(Show(p.file.value)))
  }

  lemma OwnerFieldHas(s: Text)
    requires OwnerField(s)
    ensures s != "" && ':' !in s && (s[0] == '0' || s[0] == '@')
  {
    var t := Chomped(s);
    assert forall c :: c in s ==> c in t || c == '\n';
    assert t != "" && t[0] == s[0];
    if Fingerprint(t) {
      assert t[0] == t[..2][0] && t[1] == t[..2][1];
    }
  }

  lemma FingerprintHas(s: Text)
    requires Fingerprint(s)
    ensures s[0] == '0' && s[1] == 'x' && forall c :: c in s ==> c != ':' && c != '@' && c != '\n'
  {
    assert s[0] == s[..2][0] && s[1] == s[..2][1];
  }

  /** The owner field, printed, is one piece and is read back. */
  lemma OwnerIsRead(unquote: Unquote, owner: Option<Text>, hint: Option<Text>)
    requires OwnerSurvives(unquote, owner, hint)
    ensures var field := PrintOwner(owner, hint);
            && ':' !in field && (field == "" || field[0] == '0' || field[0] == '@')
            && ParseOwner(unquote, field) == Ok((owner, hint))
  {
    var field := PrintOwner(owner, hint);
    match (owner, hint) {
      case (None, None) =>
      case (Some(o), None) =>
        OwnerFieldHas(o);
        assert field == o;
      case (Some(o), Some(h)) => HintIsRead(unquote, o, h);
    }
  }

  lemma HintFieldShape(o: Text, rest: Text)
    requires Fingerprint(o)
    ensures var field := o + "@" + rest;
            && At(field) == |o| && field[..|o|] == o && field[|o| + 1..] == rest && !OwnerField(field) && field[0] == '0'
  {
    FingerprintHas(o);
    var field := o + "@" + rest;
    var k := At(field);
    assert field[|o|] == '@';
    assert forall i :: 0 <= i < |o| ==> field[i] == o[i] && o[i] in o;
    assert k >= |o|;
    var t := Chomped(field);
    assert |o| < |t| && t[|o|] == '@' && t[0] == '0';
  }

  lemma HintIsRead(unquote: Unquote, o: Text, h: Text)
    requires Fingerprint(o) && HINT_SCHEME <= h && HintSurvives(unquote, Address(h))
    ensures var field := PrintOwner(Some(o), Some(h));
            ':' !in field && field[0] == '0' && ParseOwner(unquote, field) == Ok((Some(o), Some(h)))
  {
    hide Fingerprint, ClosesOnLine, OwnerField;
    var field := PrintOwner(Some(o), Some(h));
    HintShape(o, h);
    FingerprintHas(o);
    var k, hint := |o|, HINT_START + Address(h) + "}";
    assert HintField(field);
    assert HINT_SCHEME + Address(h) == h;
  }

  /** How a printed owner with a hint looks to the parser. */
  lemma HintShape(o: Text, h: Text)
    requires Fingerprint(o)
    ensures var field, k := PrintOwner(Some(o), Some(h)), |o|;
            && At(field) == k < |field| && field[..k] == o && !OwnerField(field) && field[0] == '0'
            && HINT_START <= field[k + 1..] && field[k + 1 + |HINT_START|..] == Address(h) + "}"
            && field[k + 1..][|HINT_START|..|field[k + 1..]| - 1] == Address(h)
            && (':' in field <==> ':' in Address(h))
  {
    hide OwnerField, Fingerprint, HINT_START, PrintOwner, At, Address;
    var rest := HINT_START + Address(h) + "}";
    var field := PrintOwner(Some(o), Some(h));
    PrintedHint(o, h);
    HintFieldShape(o, rest);
    HintText(Address(h));
    JoinedHas(o, rest, ':');
    FingerprintIsPlain(o);
    HintPieces(field, |o|, rest, HINT_START, Address(h));
  }

  lemma PrintedHint(o: Text, h: Text)
    ensures PrintOwner(Some(o), Some(h)) == o + "@" + (HINT_START + Address(h) + "}")
  {
  }

  lemma FingerprintIsPlain(o: Text)
    requires Fingerprint(o)
    ensures ':' !in o
  {
    FingerprintHas(o);
  }

  lemma HintPieces(field: Text, k: nat, rest: Text, start: Text, address: Text)
    requires k < |field| && field[k + 1..] == rest && start <= rest
    requires rest[|start|..] == address + "}" && rest[|start|..|rest| - 1] == address
    ensures start <= field[k + 1..] && k + 1 + |start| <= |field| && field[k + 1 + |start|..] == address + "}"
    ensures field[k + 1..][|start|..|field[k + 1..]| - 1] == address
  {
    SuffixOfSuffix(field, k + 1, |start|);
  }

  lemma SuffixOfSuffix(s: Text, i: nat, j: nat)
    requires i + j <= |s|
    ensures s[i..][j..] == s[i + j..]
  {
  }

  lemma JoinedHas(o: Text, rest: Text, c: char)
    ensures c in o + "@" + rest <==> c in o || c == '@' || c in rest
  {
  }

  lemma HintText(address: Text)
    ensures var rest := HINT_START + address + "}";
            && HINT_START <= rest && rest[|HINT_START|..] == address + "}"
            && rest[|HINT_START|..|rest| - 1] == address && (':' in rest <==> ':' in address)
  {
  }

  /** Printing and parsing again gives the path back. */
  lemma PrintedIsRead(unquote: Unquote, p: WlPath, withPrefix: bool)
    requires Survives(unquote, p)
    ensures Parse(unquote, Print(p, withPrefix)) == Ok(p)
  {
    hide ParseOwner, Show, OwnerSurvives, PrintOwner, PartText, Absolute, Print, PrintFile, ParseFile;
    var field, parts, file := PrintOwner(p.owner, p.hint), Shown(p.parts), PrintFile(p.file);
    OwnerIsRead(unquote, p.owner, p.hint);
    PartsSurvive(unquote, p);
    PrintedPieces(unquote, p, withPrefix);
    FileIsRead(p.file);
    PiecesCount(field);
    var s := Without(Print(p, withPrefix), PREFIX);
    var pieces := Split(s);
    PiecesCount(s);
    assert pieces == [field] + parts + [file];
    assert pieces[1..|pieces| - 1] == parts;
    ShownAreRead(p.parts);
  }

  lemma PartsSurvive(unquote: Unquote, p: WlPath)
    requires Survives(unquote, p)
    ensures Survives(unquote, p.(owner := None, hint := None))
  {
  }

  lemma ShownAreRead(parts: seq<PosixPath>)
    requires forall part :: part in parts ==> PathSurvives(part)
    ensures ParseParts(Shown(parts)) == Ok(parts)
  {
    hide Show, PosixOf, PartText;
    var texts := Shown(parts);
    forall i | 0 <= i < |parts|
      ensures PosixOf(texts[i]) == parts[i] && PartText(texts[i])
    {
      assert parts[i] in parts;
      ShowIsRead(parts[i]);
    }
    assert forall piece :: piece in texts ==> PartText(piece);
    assert ParseParts(texts).value == parts;
  }

  lemma FileIsRead(file: Option<PosixPath>)
    requires file.Some? ==> PathSurvives(file.value) && Absolute(Show(file.value))
    ensures ':' !in PrintFile(file) && ParseFile(PrintFile(file)) == Ok(file)
  {
    if file.Some? {
      ShowIsRead(file.value);
    }
  }

  lemma PrefixGoes(field: Text, rest: Text, withPrefix: bool)
    requires field == "" || field[0] == '0' || field[0] == '@'
    ensures var s := field + ":" + rest;
            Without((if withPrefix then PREFIX else "") + s, PREFIX) == s
  {
    var s := field + ":" + rest;
    assert "" + s == s;
    assert s[0] != 'w';
    assert PREFIX[0] == 'w';
    assert (PREFIX + s)[|PREFIX|..] == s;
  }

  // ---- what parsing yields ----

  /** Every character of a printed path is a slash, a dot, or one of the text it was read from. */
  lemma ShownChars(s: Text, c: char)
    requires c in Show(PosixOf(s))
    ensures c == '/' || c == '.' || c in s
  {
    var names := Names(s);
    if c != '/' && c != '.' {
      assert c in Slashed(names);
      SlashedChars(names, c);
      var name :| name in names && c in name;
      CutChars(s, name, c);
    }
  }

  lemma {:induction false} SlashedChars(names: seq<Text>, c: char)
    requires c in Slashed(names)
    ensures c == '/' || exists name :: name in names && c in name
  {
    if |names| == 1 {
      assert names[0] in names;
    } else if c != '/' {
      if c in names[0] {
        assert names[0] in names;
      } else {
        assert Slashed(names) == names[0] + "/" + Slashed(names[1..]);
        SlashedChars(names[1..], c);
      }
    }
  }

  lemma {:induction false} CutChars(s: Text, name: Text, c: char)
    requires name in Cut(s) && c in name
    ensures c in s
  {
    assert s == [s[0]] + s[1..];
    var rest := Cut(s[1..]);
    if name in rest[1..] || name == rest[0] {
      assert name in rest;
      CutChars(s[1..], name, c);
    } else {
      assert name == [s[0]] + rest[0] || name == "";
      if c in rest[0] {
        CutChars(s[1..], rest[0], c);
      }
    }
  }

  function LastExtended(names: seq<Text>, c: char): seq<Text>
    requires names != []
  {
    names[..|names| - 1] + [names[|names| - 1] + [c]]
  }

  lemma ExtendedAfter(name: Text, names: seq<Text>, c: char)
    requires names != []
    ensures LastExtended([name] + names, c) == [name] + LastExtended(names, c)
  {
  }

  lemma ExtendedBehind(d: char, names: seq<Text>, c: char)
    requires names != []
    ensures var more := LastExtended(names, c);
            LastExtended([[d] + names[0]] + names[1..], c) == [[d] + more[0]] + more[1..]
  {
    if |names| == 1 {
      assert [d] + (names[0] + [c]) == [d] + names[0] + [c];
    } else {
      var first, rest := [d] + names[0], names[1..];
      ExtendedAfter(first, rest, c);
      ExtendedAfter(names[0], rest, c);
      assert names == [names[0]] + rest;
    }
  }

  lemma {:induction false} CutEnd(s: Text, c: char)
    requires c != '/'
    ensures Cut(s + [c]) == LastExtended(Cut(s), c)
  {
    hide LastExtended;
    var t := s + [c];
    if s == "" {
      assert t == [c] && t[1..] == "";
      assert Cut("") == [""] && [c] + "" == [c];
      assert Cut(t) == [[c]];
      assert LastExtended([""], c) == [[c]] by { OneExtended(c); }
    } else {
      assert t[0] == s[0] && t[1..] == s[1..] + [c];
      CutEnd(s[1..], c);
      ExtendedAfter("", Cut(s[1..]), c);
      ExtendedBehind(s[0], Cut(s[1..]), c);
    }
  }

  lemma OneExtended(c: char)
    ensures LastExtended([""], c) == [[c]]
  {
    assert "" + [c] == [c];
  }

  lemma {:induction false} SlashedEnd(names: seq<Text>, last: Text, c: char)
    ensures Slashed(names + [last + [c]]) == Slashed(names + [last]) + [c]
  {
    if names != [] {
      var a, b := names + [last + [c]], names + [last];
      assert a[1..] == names[1..] + [last + [c]] && b[1..] == names[1..] + [last];
      SlashedEnd(names[1..], last, c);
    }
  }

  /** A newline at the end of a path text stays where it is. */
  lemma NewlineStays(body: Text)
    requires "/" <= body && '\n' !in body
    ensures var shown := Show(PosixOf(body + "\n"));
            shown[|shown| - 1] == '\n' && '\n' !in shown[..|shown| - 1] && |shown| > 1
  {
    var s := body + "\n";
    CutEnd(body, '\n');
    var cut := Cut(body);
    var init, last := Kept(cut[..|cut| - 1]), cut[|cut| - 1];
    KeptAppend(cut[..|cut| - 1], [last + "\n"]);
    assert (last + "\n")[|last|] == '\n' && [last + "\n"][1..] == [];
    assert Kept([last + "\n"]) == [last + "\n"] + Kept([]);
    assert Names(s) == init + [last + "\n"];
    SlashedEnd(init, last, '\n');
    var t := Slashed(init + [last]);
    if '\n' in t {
      SlashedChars(init + [last], '\n');
      var name :| name in init + [last] && '\n' in name;
      assert name in cut;
      CutChars(body, name, '\n');
      assert false;
    }
    assert Show(PosixOf(s)) == Root(s) + (t + "\n");
    assert Root(s) + (t + "\n") == Root(s) + t + "\n";
    assert '\n' !in Root(s) + t;
  }

  lemma AbsoluteStays(s: Text)
    requires Absolute(s)
    ensures Absolute(Show(PosixOf(s)))
  {
    var shown := Show(PosixOf(s));
    var body := Chomped(s);
    if body == s {
      if '\n' in shown {
        ShownChars(s, '\n');
        assert false;
      }
      assert "/" <= shown;
    } else {
      assert s == body + "\n";
      NewlineStays(body);
      assert shown[0] == '/';
    }
  }

  lemma StarStays()
    ensures Show(PosixOf("*")) == "*"
  {
    CutName("*");
    assert Kept(["*"]) == ["*"] + Kept([]);
  }

  lemma PartSurvives(s: Text)
    requires PartText(s) && ':' !in s
    ensures PathSurvives(PosixOf(s)) && (Absolute(s) ==> Absolute(Show(PosixOf(s))))
  {
    PosixIsNormal(s);
    if Absolute(s) { AbsoluteStays(s); }
    if s == "*" { StarStays(); }
    if ':' in Show(PosixOf(s)) {
      ShownChars(s, ':');
      assert false;
    }
  }

  /** What the parser returns survives printing, apart from its hint. */
  lemma ParsedSurvives(unquote: Unquote, s: Text)
    requires Parse(unquote, s).Ok?
    ensures var p := Parse(unquote, s).value; Survives(unquote, p.(owner := None, hint := None))
    ensures var p := Parse(unquote, s).value; p.hint.None? ==> Survives(unquote, p)
  {
    hide PathSurvives, PartText, Absolute, OwnerField, Split, HintField, Contains, Show, PosixOf;
    var p := Parse(unquote, s).value;
    var rest := Without(s, PREFIX);
    PiecesCount(rest);
    PartsSurviveParsing(Split(rest), p.parts);
    FileSurvivesParsing(Split(rest), p.file);
  }

  lemma PartsSurviveParsing(pieces: seq<Text>, parts: seq<PosixPath>)
    requires |pieces| > 1 && ParseParts(pieces[1..|pieces| - 1]) == Ok(parts)
    requires forall piece :: piece in pieces ==> ':' !in piece
    ensures forall part :: part in parts ==> PathSurvives(part)
  {
    hide PathSurvives, PartText, PosixOf;
    var texts := pieces[1..|pieces| - 1];
    forall part | part in parts
      ensures PathSurvives(part)
    {
      var i :| 0 <= i < |parts| && parts[i] == part;
      assert texts[i] in texts && texts[i] in pieces;
      PartSurvives(texts[i]);
    }
  }

  lemma FileSurvivesParsing(pieces: seq<Text>, file: Option<PosixPath>)
    requires pieces != [] && ParseFile(pieces[|pieces| - 1]) == Ok(file)
    requires forall piece :: piece in pieces ==> ':' !in piece
    ensures file.Some? ==> PathSurvives(file.value) && Absolute(Show(file.value))
  {
    hide PathSurvives, Absolute, PosixOf, Show;
    var last := pieces[|pieces| - 1];
    assert last in pieces;
    if file.Some? {
      AbsoluteIsPart(last);
      PartSurvives(last);
    }
  }

  lemma AbsoluteIsPart(s: Text)
    ensures Absolute(s) ==> PartText(s)
  {
  }

  /** Every accepted path without a hint, printed, is read back; its canonical form is canonical. */
  lemma RoundTrip(unquote: Unquote, s: Text, withPrefix: bool)
    requires Parse(unquote, s).Ok? && Parse(unquote, s).value.hint.None?
    ensures Parse(unquote, Print(Parse(unquote, s).value, withPrefix)) == Parse(unquote, s)
    ensures var canonical := Canonical(unquote, s).value; Canonical(unquote, canonical) == Ok(canonical)
  {
    hide Parse, Survives;
    ParsedSurvives(unquote, s);
    PrintedIsRead(unquote, Parse(unquote, s).value, withPrefix);
    PrintedIsRead(unquote, Parse(unquote, s).value, true);
  }

  /** An accepted hint is read back exactly when its address holds no colon, closes on its first line and is its
      own decoding. */
  lemma HintRoundTrip(unquote: Unquote, s: Text, withPrefix: bool)
    ensures Parse(unquote, s).Ok? && Parse(unquote, s).value.hint.Some? ==>
              var p := Parse(unquote, s).value;
              Parse(unquote, Print(p, withPrefix)) == Ok(p) <==> HintSurvives(unquote, Address(p.hint.value))
  {
    hide Parse, Print, HintSurvives, Survives;
    if Parse(unquote, s).Ok? && Parse(unquote, s).value.hint.Some? {
      var p := Parse(unquote, s).value;
      ParsedHint(unquote, s);
      ParsedSurvives(unquote, s);
      if HintSurvives(unquote, Address(p.hint.value)) {
        HintSurvivesAll(unquote, p);
        PrintedIsRead(unquote, p, withPrefix);
      } else {
        HintIsLost(unquote, p, withPrefix);
      }
    }
  }

  lemma HintSurvivesAll(unquote: Unquote, p: WlPath)
    ensures Survives(unquote, p.(owner := None, hint := None)) && OwnerSurvives(unquote, p.owner, p.hint) ==>
              Survives(unquote, p)
  {
  }

  lemma ParsedHint(unquote: Unquote, s: Text)
    ensures var r := Parse(unquote, s);
            r.Ok? && r.value.hint.Some? ==>
              r.value.owner.Some? && Fingerprint(r.value.owner.value) && HINT_SCHEME <= r.value.hint.value
  {
  }

  lemma HintIsLost(unquote: Unquote, p: WlPath, withPrefix: bool)
    requires Survives(unquote, p.(owner := None, hint := None))
    requires p.owner.Some? && Fingerprint(p.owner.value) && p.hint.Some? && HINT_SCHEME <= p.hint.value
    requires !HintSurvives(unquote, Address(p.hint.value))
    ensures Parse(unquote, Print(p, withPrefix)) != Ok(p)
  {
    hide Survives, ParseOwner, PrintOwner, Print, OwnerField, ParseFile, PrintFile, HintSurvives, Split, Fingerprint;
    var field, address := PrintOwner(p.owner, p.hint), Address(p.hint.value);
    HintShape(p.owner.value, p.hint.value);
    PrintedPieces(unquote, p, withPrefix);
    PiecesCount(field);
    var s := Without(Print(p, withPrefix), PREFIX);
    var pieces := Split(s);
    if ':' in address {
      assert |pieces| > |p.parts| + 2;
    } else {
      assert pieces[0] == field;
      LostHint(unquote, p.owner.value, p.hint.value);
    }
  }

  lemma LostHint(unquote: Unquote, o: Text, h: Text)
    requires Fingerprint(o) && HINT_SCHEME <= h && ':' !in Address(h) && !HintSurvives(unquote, Address(h))
    ensures ParseOwner(unquote, PrintOwner(Some(o), Some(h))) != Ok((Some(o), Some(h)))
  {
    hide Fingerprint, ClosesOnLine, OwnerField, PrintOwner, HINT_START;
    var field := PrintOwner(Some(o), Some(h));
    HintShape(o, h);
    var address := Address(h);
    assert HINT_SCHEME + address == h;
    var read := HINT_SCHEME + unquote(address);
    assert read[|HINT_SCHEME|..] == unquote(address);
    assert h[|HINT_SCHEME|..] == address;
  }

  /** The pieces of a printed path whose parts and file survive: those of its owner field, its parts, its file. */
  lemma PrintedPieces(unquote: Unquote, p: WlPath, withPrefix: bool)
    requires Survives(unquote, p.(owner := None, hint := None))
    requires var field := PrintOwner(p.owner, p.hint); field == "" || field[0] == '0' || field[0] == '@'
    ensures Split(Without(Print(p, withPrefix), PREFIX)) ==
            Split(PrintOwner(p.owner, p.hint)) + Shown(p.parts) + [PrintFile(p.file)]
  {
    hide Survives, PrintOwner, Joined, Shown, PrintFile;
    var field, list, file := PrintOwner(p.owner, p.hint), Joined(Shown(p.parts)), PrintFile(p.file);
    var rest := list + ":" + file;
    assert field + ":" + list + ":" + file == field + ":" + rest;
    PrefixGoes(field, rest, withPrefix);
    SplitAt(field, rest);
    SplitAt(list, file);
    PiecesOf(p.(owner := None, hint := None), unquote);
    assert Split(field) + (Shown(p.parts) + [file]) == Split(field) + Shown(p.parts) + [file];
  }

  lemma PiecesOf(p: WlPath, unquote: Unquote)
    requires Survives(unquote, p)
    ensures Split(Joined(Shown(p.parts))) == Shown(p.parts) && Split(PrintFile(p.file)) == [PrintFile(p.file)]
  {
    var parts := Shown(p.parts);
    forall piece | piece in parts
      ensures ':' !in piece
    {
      var i :| 0 <= i < |parts| && parts[i] == piece;
      assert p.parts[i] in p.parts;
    }
    SplitJoined(parts);
    FileIsRead(p.file);
    PiecesCount(PrintFile(p.file));
  }

  // ---- match ----

  lemma {:induction false} JoinedSplit(s: Text)
    ensures Joined(Split(s)) == s
  {
    if s != "" {
      JoinedSplit(s[1..]);
      var rest := Split(s[1..]);
      assert s == [s[0]] + s[1..];
      if s[0] == ':' {
        assert ([""] + rest)[1..] == rest;
      } else if |rest| > 1 {
        var first := [s[0]] + rest[0];
        assert ([first] + rest[1..])[1..] == rest[1..];
        assert first + ":" + Joined(rest[1..]) == [s[0]] + (rest[0] + ":" + Joined(rest[1..]));
      }
    }
  }

  lemma PatternHas(owner: Text)
    requires OwnerPattern(owner)
    ensures '\n' !in owner && (owner == "" || owner[0] == '0' || owner[0] == '@')
  {
    hide ClosesOnLine;
    if owner != "" && !Alias(owner) {
      if Fingerprint(owner) {
        FingerprintHas(owner);
      } else {
        FingerprintHas(owner[..At(owner)]);
      }
    }
  }

  /** A text without a newline does not lead a field that ends in one. */
  lemma NewlineBars(owner: Text, field: Text, rest: Text)
    requires '\n' !in owner && field != "" && field[|field| - 1] == '\n' && ':' !in field
    ensures !(owner + ":" <= field + ":" + rest)
  {
    var s, n := field + ":" + rest, |field| - 1;
    var k := if |owner| <= n then |owner| else n;
    assert s[k] == field[k];
    assert (owner + ":")[k] != s[k];
  }

  lemma PrefixShift(a: Text, b: Text)
    ensures PREFIX + a <= PREFIX + b <==> a <= b
  {
    var long, longer := PREFIX + a, PREFIX + b;
    assert long[|PREFIX|..] == a && longer[|PREFIX|..] == b;
    assert |a| <= |b| ==> longer[|PREFIX|..][..|a|] == longer[|PREFIX|..|long|];
  }

  /** Text that parses up to its owner is recognised unless the owner ends in a newline. */
  lemma MatchExact(field: Text, rest: Text, withPrefix: bool)
    requires field == "" || OwnerField(field)
    ensures Match((if withPrefix then PREFIX else "") + (field + ":" + rest))
            <==> field == "" || field[|field| - 1] != '\n'
  {
    hide OwnerPattern, OwnerField;
    var u := field + ":" + rest;
    var s := (if withPrefix then PREFIX else "") + u;
    assert !withPrefix ==> s == u;
    if field != "" { OwnerFieldHas(field); }
    assert PREFIX[0] == 'w' && u[0] != 'w';
    if field == "" || field[|field| - 1] != '\n' {
      FieldIsPattern(field);
      assert field + ":" <= u;
      assert withPrefix ==> PREFIX + field + ":" <= s;
    } else {
      forall owner | OwnerPattern(owner)
        ensures !(owner + ":" <= s) && !(PREFIX + owner + ":" <= s)
      {
        PatternHas(owner);
        NewlineBars(owner, field, rest);
        assert PREFIX + owner + ":" == PREFIX + (owner + ":");
        PrefixShift(owner + ":", u);
        assert (owner + ":")[0] != 'w' && (PREFIX + owner + ":")[0] == 'w';
        assert withPrefix ==> s[0] == 'w';
      }
    }
  }

  lemma FieldIsPattern(field: Text)
    requires field == "" || (OwnerField(field) && field[|field| - 1] != '\n')
    ensures OwnerPattern(field)
  {
  }

  lemma ParsedOwner(unquote: Unquote, s: Text)
    requires Parse(unquote, s).Ok? && Parse(unquote, s).value.hint.None?
    ensures var p, pieces := Parse(unquote, s).value, Split(Without(s, PREFIX));
            && |pieces| > 1 && (pieces[0] == "" || OwnerField(pieces[0]))
            && p.owner == (if pieces[0] == "" then None else Some(pieces[0]))
  {
    hide OwnerField, HintField, Contains, ParseParts, ParseFile, Split;
  }

  /** Accepted paths without a hint, and their printed forms, are recognised, unless the owner ends in a newline. */
  lemma AcceptedMatch(unquote: Unquote, s: Text, withPrefix: bool)
    requires Parse(unquote, s).Ok? && Parse(unquote, s).value.hint.None?
    ensures var p := Parse(unquote, s).value;
            var fine := '\n' !in PrintOwner(p.owner, None);
            (Match(s) <==> fine) && (Match(Print(p, withPrefix)) <==> fine)
  {
    hide OwnerField, Match, Parse, Split, Joined, Shown, PrintFile;
    var p, u := Parse(unquote, s).value, Without(s, PREFIX);
    var pieces := Split(u);
    ParsedOwner(unquote, s);
    JoinedSplit(u);
    var field := pieces[0];
    JoinedHead(pieces);
    OwnerNewline(field);
    assert s == (if PREFIX <= s then PREFIX else "") + u;
    assert PrintOwner(p.owner, p.hint) == PrintOwner(p.owner, None) == field;
    MatchExact(field, Joined(pieces[1..]), PREFIX <= s);
    var list, file := Joined(Shown(p.parts)), PrintFile(p.file);
    assert field + ":" + list + ":" + file == field + ":" + (list + ":" + file);
    MatchExact(field, list + ":" + file, withPrefix);
  }

  lemma JoinedHead(pieces: seq<Text>)
    requires |pieces| > 1
    ensures Joined(pieces) == pieces[0] + ":" + Joined(pieces[1..])
  {
  }

  lemma OwnerNewline(field: Text)
    requires field == "" || OwnerField(field)
    ensures '\n' in field <==> field != "" && field[|field| - 1] == '\n'
  {
    var t := Chomped(field);
    assert '\n' !in t;
    assert forall c :: c in field && c !in t ==> t != field;
  }

  // ---- the class ----

  method ReadParts(split: seq<Text>) returns (r: Result<seq<PosixPath>, PathError>)
    requires |split| > 1
    ensures r == ParseParts(split[1..|split| - 1])
  {
    hide PosixOf, PartText;
    var parts := [];
    ghost var texts := split[1..|split| - 1];
    for i := 1 to |split| - 1
      invariant |parts| == i - 1 && forall k :: 0 <= k < |parts| ==> PartText(texts[k]) && parts[k] == PosixOf(texts[k])
    {
      assert texts[i - 1] == split[i];
      if !PartText(split[i]) {
        FirstBadPart(texts, i - 1);
        return Err(NotAbsolute(split[i]));
      }
      parts := parts + [PosixOf(split[i])];
    }
    assert forall piece :: piece in texts ==> PartText(piece);
    assert ParseParts(texts).value == parts;
    return Ok(parts);
  }

  class WildlandPath {
    const owner: Option<Text>
    const hint: Option<Text>
    var parts: seq<PosixPath>
    const file: Option<PosixPath>

    constructor (owner: Option<Text>, hint: Option<Text>, parts: seq<PosixPath>, file: Option<PosixPath>)
      requires parts != []
      ensures Value() == WlPath(owner, hint, parts, file)
    {
      this.owner, this.hint, this.parts, this.file := owner, hint, parts, file;
    }

    function Value(): WlPath
      reads this
    {
      WlPath(owner, hint, parts, file)
    }

    static method FromStr(unquote: Unquote, text: Text) returns (r: Result<WildlandPath, PathError>)
      ensures r.Ok? ==> fresh(r.value) && Parse(unquote, text) == Ok(r.value.Value())
      ensures r.Err? ==> Parse(unquote, text) == Err(r.error)
    {
      hide ParseParts, ParseOwner, ParseFile, Split;
      var s := Without(text, PREFIX);
      if ':' !in s {
        return Err(NoColon);
      }
      var split := Split(s);
      PiecesCount(s);
      var owner := ParseOwner(unquote, split[0]);
      if owner.Err? {
        return Err(owner.error);
      }
      var parts := ReadParts(split);
      if parts.Err? {
        return Err(parts.error);
      }
      var file := ParseFile(split[|split| - 1]);
      if file.Err? {
        return Err(file.error);
      }
      if parts.value == [] {
        return Err(NoContainers(s));
      }
      var path := new WildlandPath(owner.value.0, owner.value.1, parts.value, file.value);
      return Ok(path);
    }

    method Append(s: Text)
      modifies this`parts
      ensures parts == old(parts) + Appended(Split(s))
    {
      hide PosixOf;
      var split := Split(s);
      for i := 0 to |split|
        invariant parts == old(parts) + Appended(split[..i])
      {
        AppendedOne(split[..i], split[i]);
        assert split[..i + 1] == split[..i] + [split[i]];
        if split[i] != "" {
          parts := parts + [PosixOf(split[i])];
        }
      }
      assert split[..|split|] == split;
    }
  }

  lemma {:induction false} FirstBadPart(pieces: seq<Text>, i: nat)
    requires i < |pieces| && !PartText(pieces[i]) && forall k :: 0 <= k < i ==> PartText(pieces[k])
    ensures ParseParts(pieces) == Err(NotAbsolute(pieces[i]))
  {
    hide PartText, PosixOf;
    if i > 0 {
      FirstBadPart(pieces[1..], i - 1);
    }
  }

  function Appended(pieces: seq<Text>): (r: seq<PosixPath>)
    ensures forall part :: part in r <==> exists piece :: piece in pieces && piece != "" && part == PosixOf(piece)
  {
    if pieces == [] then []
    else (if pieces[0] == "" then [] else [PosixOf(pieces[0])]) + Appended(pieces[1..])
  }

  lemma {:induction false} AppendedOne(pieces: seq<Text>, piece: Text)
    ensures Appended(pieces + [piece]) == Appended(pieces) + if piece == "" then [] else [PosixOf(piece)]
  {
    hide PosixOf;
    if pieces == [] {
      assert pieces + [piece] == [piece] && [piece][1..] == [];
    } else {
      assert (pieces + [piece])[0] == pieces[0] && (pieces + [piece])[1..] == pieces[1..] + [piece];
      AppendedOne(pieces[1..], piece);
    }
  }

  /** What Append makes of a path that is read back from its text is read back too, exactly when each piece appended
      would read back as a part. */
  lemma AppendIsRead(unquote: Unquote, p: WlPath, s: Text, withPrefix: bool)
    requires Survives(unquote, p)
    ensures var longer := p.(parts := p.parts + Appended(Split(s)));
            Parse(unquote, Print(longer, withPrefix)) == Ok(longer) <==>
            forall piece :: piece in Split(s) && piece != "" ==> PathSurvives(PosixOf(piece))
  {
    hide PathSurvives, PosixOf, Appended, Parse, Print, OwnerSurvives;
    var longer := p.(parts := p.parts + Appended(Split(s)));
    AppendSurvives(unquote, p, s);
    if Parse(unquote, Print(longer, withPrefix)) == Ok(longer) {
      ParsedSurvives(unquote, Print(longer, withPrefix));
    } else if Survives(unquote, longer) {
      PrintedIsRead(unquote, longer, withPrefix);
    }
  }

  lemma AppendSurvives(unquote: Unquote, p: WlPath, s: Text)
    requires Survives(unquote, p)
    ensures Survives(unquote, p.(parts := p.parts + Appended(Split(s)))) <==>
            forall piece :: piece in Split(s) && piece != "" ==> PathSurvives(PosixOf(piece))
  {
    hide PathSurvives, PosixOf, PartText, OwnerSurvives, Appended;
    var longer := p.(parts := p.parts + Appended(Split(s)));
    AppendedSurvive(Split(s));
    assert forall part :: part in longer.parts <==> part in p.parts || part in Appended(Split(s));
  }

  lemma AppendedSurvive(pieces: seq<Text>)
    ensures (forall part :: part in Appended(pieces) ==> PathSurvives(part)) <==>
            forall piece :: piece in pieces && piece != "" ==> PathSurvives(PosixOf(piece))
  {
    hide PathSurvives, PosixOf;
    forall piece | piece in pieces && piece != ""
      ensures PosixOf(piece) in Appended(pieces)
    {
    }
  }
}
