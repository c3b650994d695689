/** The header of a signed manifest: printing it, parsing it, and splitting it from the data. */
module Header {
  import opened Prelude

  /** Bytes are modelled as characters; a byte above 127 belongs to no ASCII text. */
  type Text = string

  // ---- lines ----

  /** The line boundaries str.splitlines knows. */
  predicate IsBreak(c: char) {
    var n := c as int;
    n == 10 || n == 13 || n == 11 || n == 12 || n == 28 || n == 29 || n == 30 || n == 133 || n == 8232 || n == 8233
  }

  predicate IsAscii(c: char) { c as int < 128 }

  /** Length of the first line. */
  function LineEnd(s: Text): (i: nat)
    ensures i <= |s|
    ensures forall j :: 0 <= j < i ==> !IsBreak(s[j])
    ensures i < |s| ==> IsBreak(s[i])
  {
    if s == [] || IsBreak(s[0]) then 0 else 1 + LineEnd(s[1..])
  }

  /** Length of the line boundary at i; "\r\n" counts as one. */
  function BreakLength(s: Text, i: nat): (n: nat)
    requires i < |s|
    ensures 1 <= n <= 2 && i + n <= |s|
  {
    if s[i] == '\r' && i + 1 < |s| && s[i + 1] == '\n' then 2 else 1
  }

  ghost predicate BreakFree(l: Text) { forall i :: 0 <= i < |l| ==> !IsBreak(l[i]) }

  function SplitLines(s: Text): (ls: seq<Text>)
    ensures forall k :: 0 <= k < |ls| ==> BreakFree(ls[k])
    decreases |s|
  {
    if s == [] then []
    else
      var i := LineEnd(s);
      if i == |s| then [s] else [s[..i]] + SplitLines(s[i + BreakLength(s, i)..])
  }

  function Join(ls: seq<Text>): Text {
    if ls == [] then ""
    else if |ls| == 1 then ls[0]
    else ls[0] + "\n" + Join(ls[1..])
  }

  // ---- parsing ----

  datatype ParseError = NotAscii | UnexpectedLine(line: Text) | EmptyBlock | UnexpectedField | DuplicateField

  /** A line of a block: up to two spaces, or two spaces and the rest. */
  function BlockLine(line: Text): Option<Text> {
    if |line| <= 2 && (forall c :: c in line ==> c == ' ') then Some("")
    else if |line| >= 2 && line[0] == ' ' && line[1] == ' ' then Some(line[2..])
    else None
  }

  /** Length of the run of lower-case letters a line starts with. */
  function NameLength(line: Text): (n: nat)
    ensures n <= |line|
  {
    if line != [] && 'a' <= line[0] <= 'z' then 1 + NameLength(line[1..]) else 0
  }

  predicate SimpleChar(c: char) {
    'a' <= c <= 'z' || 'A' <= c <= 'Z' || '0' <= c <= '9' || c == '_' || c == ' ' || c == '.' || c == '-'
  }

  /** name: "value" */
  function SimpleField(line: Text): Option<(Text, Text)> {
    var k := NameLength(line);
    var rest := line[k..];
    if k > 0 && |rest| >= 5 && rest[..3] == ": \"" && rest[|rest| - 1] == '"'
       && forall c :: c in rest[3..|rest| - 1] ==> SimpleChar(c)
    then Some((line[..k], rest[3..|rest| - 1]))
    else None
  }

  /** name: | */
  function BlockField(line: Text): Option<Text> {
    var k := NameLength(line);
    if k > 0 && line[k..] == ": |" then Some(line[..k]) else None
  }

  /** The lines of a block from pos on. */
  function BlockFrom(lines: seq<Text>, pos: nat): (r: seq<Text>)
    ensures pos + |r| <= |lines| || r == []
    decreases |lines| - pos
  {
    if pos < |lines| && BlockLine(lines[pos]).Some? then
      [BlockLine(lines[pos]).value] + BlockFrom(lines, pos + 1)
    else []
  }

  function TrimEnd(ls: seq<Text>): (r: seq<Text>)
    ensures r == [] || r[|r| - 1] != ""
    ensures forall l :: l in r ==> l in ls
  {
    if ls != [] && ls[|ls| - 1] == "" then TrimEnd(ls[..|ls| - 1]) else ls
  }

  datatype Field = Field(name: Text, value: Text, next: nat)

  function FieldAt(lines: seq<Text>, pos: nat): (r: Result<Field, ParseError>)
    requires pos < |lines|
    ensures r.Ok? ==> pos < r.value.next <= |lines|
  {
    var line := lines[pos];
    match SimpleField(line)
    case Some((name, value)) => Ok(Field(name, value, pos + 1))
    case None =>
      match BlockField(line)
      case Some(name) =>
        var block := BlockFrom(lines, pos + 1);
        if TrimEnd(block) == [] then Err(EmptyBlock)
        else Ok(Field(name, Join(TrimEnd(block)), pos + 1 + |block|))
      case None => Err(UnexpectedLine(line))
  }

  function Fields(lines: seq<Text>, pos: nat, known: set<Text>, result: map<Text, Text>)
    : Result<map<Text, Text>, ParseError>
    decreases |lines| - pos
  {
    if pos >= |lines| then Ok(result)
    else
      var f :- FieldAt(lines, pos);
      if f.name !in known then Err(UnexpectedField)
      else if f.name in result then Err(DuplicateField)
      else Fields(lines, f.next, known, result[f.name := f.value])
  }

  /** The hand-written parser: lines, and the position of the next one. */
  class HeaderParser {
    const lines: seq<Text>
    var pos: nat

    constructor (lines: seq<Text>)
      ensures this.lines == lines && pos == 0
    {
      this.lines := lines;
      pos := 0;
    }

    method Parse(known: set<Text>) returns (r: Result<map<Text, Text>, ParseError>)
      requires pos == 0
      modifies this
      ensures r == Fields(lines, 0, known, map[])
    {
      var result := map[];
      while pos < |lines|
        invariant Fields(lines, pos, known, result) == Fields(lines, 0, known, map[])
        decreases |lines| - pos
      {
        var f := ParseField();
        if f.Err? {
          return Err(f.error);
        }
        if f.value.0 !in known {
          return Err(UnexpectedField);
        }
        if f.value.0 in result {
          return Err(DuplicateField);
        }
        result := result[f.value.0 := f.value.1];
      }
      return Ok(result);
    }

    method ParseField() returns (r: Result<(Text, Text), ParseError>)
      requires pos < |lines|
      modifies this
      ensures match FieldAt(lines, old(pos))
              case Ok(f) => r == Ok((f.name, f.value)) && pos == f.next
              case Err(e) => r == Err(e)
    {
      var line := lines[pos];
      pos := pos + 1;
      var simple := SimpleField(line);
      if simple.Some? {
        return Ok(simple.value);
      }
      var block := BlockField(line);
      if block.Some? {
        var value :- ParseBlock();
        return Ok((block.value, value));
      }
      return Err(UnexpectedLine(line));
    }

    method ParseBlock() returns (r: Result<Text, ParseError>)
      requires pos <= |lines|
      modifies this
      ensures var block := BlockFrom(lines, old(pos));
              pos == old(pos) + |block| &&
              r == if TrimEnd(block) == [] then Err(EmptyBlock) else Ok(Join(TrimEnd(block)))
    {
      var parsed: seq<Text> := [];
      ghost var all := BlockFrom(lines, pos);
      while pos < |lines|
        invariant old(pos) <= pos <= |lines| && pos == old(pos) + |parsed|
        invariant all == parsed + BlockFrom(lines, pos)
        decreases |lines| - pos
      {
        var m := BlockLine(lines[pos]);
        if m.None? {
          break;
        }
        pos := pos + 1;
        parsed := parsed + [m.value];
      }
      assert parsed == all;
      while parsed != [] && parsed[|parsed| - 1] == ""
        invariant TrimEnd(parsed) == TrimEnd(all)
        decreases |parsed|
      {
        parsed := parsed[..|parsed| - 1];
      }
      if parsed == [] {
        return Err(EmptyBlock);
      }
      return Ok(Join(parsed));
    }
  }

  const KNOWN: set<Text> := {"signature", "pubkey"}

  /** Header.from_bytes: the signature, if any; a pubkey is accepted and ignored. */
  function FromBytes(data: Text): Result<Option<Text>, ParseError> {
    if exists c :: c in data && !IsAscii(c) then Err(NotAscii)
    else
      var fields :- Fields(SplitLines(data), 0, KNOWN, map[]);
      Ok(if "signature" in fields then Some(StripNewlines(fields["signature"])) else None)
  }

  /** The constructor strips newlines from the end of a signature. */
  function StripNewlines(s: Text): (r: Text)
    ensures r == "" || r[|r| - 1] != '\n'
    ensures s == "" || s[|s| - 1] != '\n' ==> r == s
  {
    if s != [] && s[|s| - 1] == '\n' then StripNewlines(s[..|s| - 1]) else s
  }

  // ---- printing ----

  function Indented(ls: seq<Text>): (r: seq<Text>)
    ensures |r| == |ls|
  {
    seq(|ls|, i requires 0 <= i < |ls| => "  " + ls[i])
  }

  function Printed(signature: Option<Text>): Text {
    match signature
    case None => ""
    case Some(s) => Join([FIRST_LINE] + Indented(SplitLines(s)))
  }

  /** Header.to_bytes: None stands for the exception raised when the printed header does not parse back. */
  function ToBytes(signature: Option<Text>): Option<Text> {
    var data := Printed(signature);
    if FromBytes(data) == Ok(signature) then Some(data) else None
  }

  // ---- splitting the header from the data ----

  const SEPARATOR := "\n---\n"
  const SEPARATOR_EMPTY := "---\n"

  predicate SeparatorAt(data: Text, i: int) {
    0 <= i && i + 5 <= |data| && data[i] == '\n' && data[i + 1] == '-' && data[i + 2] == '-' && data[i + 3] == '-'
    && data[i + 4] == '\n'
  }

  function FirstSeparator(data: Text, from: nat): (r: Option<nat>)
    ensures r.Some? ==> from <= r.value && SeparatorAt(data, r.value) && forall j :: from <= j < r.value ==> !SeparatorAt(data, j)
    ensures r.None? ==> forall j :: from <= j ==> !SeparatorAt(data, j)
    decreases |data| - from
  {
    if from >= |data| then None
    else if SeparatorAt(data, from) then Some(from)
    else FirstSeparator(data, from + 1)
  }

  /** split_header: header and rest, around the first separator; None when there is none. */
  function SplitHeader(data: Text): Option<(Text, Text)> {
    if |data| >= 4 && data[..4] == SEPARATOR_EMPTY then Some(("", data[4..]))
    else match FirstSeparator(data, 0)
         case None => None
         case Some(i) => Some((data[..i], data[i + 5..]))
  }

  // ---- printing and splitting lines are inverse ----

  lemma LineEndIs(s: Text, i: nat)
    requires i <= |s| && (forall j :: 0 <= j < i ==> !IsBreak(s[j])) && (i < |s| ==> IsBreak(s[i]))
    ensures LineEnd(s) == i
  {
  }

  /** A line, a newline, and the rest. */
  lemma SplitStep(a: Text, rest: Text)
    requires BreakFree(a)
    ensures SplitLines(a + "\n" + rest) == [a] + SplitLines(rest)
  {
    var s := a + "\n" + rest;
    LineEndIs(s, |a|);
    assert s[|a| + 1..] == rest;
    assert s[..|a|] == a;
  }

  lemma JoinStep(a: Text, ls: seq<Text>)
    requires ls != []
    ensures Join([a] + ls) == a + "\n" + Join(ls)
  {
    assert ([a] + ls)[1..] == ls;
  }

  lemma {:induction false} SplitOfJoin(ls: seq<Text>)
    requires ls != [] && ls[|ls| - 1] != "" && forall k :: 0 <= k < |ls| ==> BreakFree(ls[k])
    ensures SplitLines(Join(ls)) == ls && Join(ls) != ""
  {
    if |ls| == 1 {
      LineEndIs(ls[0], |ls[0]|);
    } else {
      SplitOfJoin(ls[1..]);
      SplitStep(ls[0], Join(ls[1..]));
      assert ls == [ls[0]] + ls[1..];
      JoinStep(ls[0], ls[1..]);
    }
  }

  /** A signature that can be printed: ASCII, with newlines for its only line breaks. */
  ghost predicate Printable(s: Text) {
    s != "" && forall i :: 0 <= i < |s| ==> IsAscii(s[i]) && (IsBreak(s[i]) ==> s[i] == '\n')
  }

  lemma OneLine(s: Text)
    requires s != "" && BreakFree(s)
    ensures SplitLines(s) == [s] && Join([s]) == s
  {
    LineEndIs(s, |s|);
  }

  lemma {:induction false} JoinOfSplit(s: Text)
    requires s != "" && s[|s| - 1] != '\n'
    requires forall i :: 0 <= i < |s| ==> IsBreak(s[i]) ==> s[i] == '\n'
    ensures var ls := SplitLines(s); ls != [] && ls[|ls| - 1] != "" && Join(ls) == s
    decreases |s|
  {
    hide SplitLines, Join;
    var i := LineEnd(s);
    if i == |s| {
      OneLine(s);
    } else {
      var line, rest := s[..i], s[i + 1..];
      JoinOfSplit(rest);
      assert s == line + "\n" + rest;
      SplitStep(line, rest);
      JoinStep(line, SplitLines(rest));
    }
  }

  // ---- parsing what was printed ----

  lemma {:induction false} NameLengthIs(s: Text, n: nat)
    requires n <= |s| && (forall i :: 0 <= i < n ==> 'a' <= s[i] <= 'z') && (n < |s| ==> !('a' <= s[n] <= 'z'))
    ensures NameLength(s) == n
    decreases n
  {
    if n > 0 { NameLengthIs(s[1..], n - 1); }
  }

  const FIRST_LINE := "signature: |"

  lemma SignatureLine()
    ensures SimpleField(FIRST_LINE).None? && BlockField(FIRST_LINE) == Some("signature")
  {
    NameLengthIs(FIRST_LINE, 9);
    assert FIRST_LINE[9..] == ": |";
    assert FIRST_LINE[..9] == "signature";
  }

  lemma {:induction false} BlockOfIndented(lines: seq<Text>, pos: nat, ls: seq<Text>)
    requires pos <= |lines| && lines[pos..] == Indented(ls)
    ensures BlockFrom(lines, pos) == ls
    decreases |ls|
  {
    if ls != [] {
      assert lines[pos] == lines[pos..][0] == "  " + ls[0];
      assert lines[pos + 1..] == lines[pos..][1..] == Indented(ls[1..]);
      BlockOfIndented(lines, pos + 1, ls[1..]);
      assert ("  " + ls[0])[2..] == ls[0];
      if ls[0] != "" { assert |"  " + ls[0]| > 2; }
    }
  }

  lemma IndentedIsBreakFree(ls: seq<Text>)
    requires ls != [] && forall k :: 0 <= k < |ls| ==> BreakFree(ls[k])
    ensures var all := [FIRST_LINE] + Indented(ls);
            all[|all| - 1] != "" && forall k :: 0 <= k < |all| ==> BreakFree(all[k])
  {
    var all := [FIRST_LINE] + Indented(ls);
    forall k | 0 <= k < |all|
      ensures BreakFree(all[k])
    {
      if k > 0 { assert all[k] == "  " + ls[k - 1]; }
    }
    assert all[|all| - 1] == "  " + ls[|ls| - 1];
  }

  lemma PrintedLines(s: Text)
    requires Clean(s)
    ensures SplitLines(s) != [] && Join(SplitLines(s)) == s && SplitLines(s)[|SplitLines(s)| - 1] != ""
    ensures SplitLines(Printed(Some(s))) == [FIRST_LINE] + Indented(SplitLines(s))
  {
    hide SplitLines, Join, BreakFree;
    JoinOfSplit(s);
    IndentedIsBreakFree(SplitLines(s));
    SplitOfJoin([FIRST_LINE] + Indented(SplitLines(s)));
  }

  lemma {:induction false} AllAscii(ls: seq<Text>)
    requires forall k, i :: 0 <= k < |ls| && 0 <= i < |ls[k]| ==> IsAscii(ls[k][i])
    ensures forall c :: c in Join(ls) ==> IsAscii(c)
  {
    if |ls| > 1 {
      AllAscii(ls[1..]);
    }
  }

  lemma {:induction false} LinesAreAscii(s: Text)
    requires forall i :: 0 <= i < |s| ==> IsAscii(s[i])
    ensures forall k, i :: 0 <= k < |SplitLines(s)| && 0 <= i < |SplitLines(s)[k]| ==> IsAscii(SplitLines(s)[k][i])
    decreases |s|
  {
    var e := LineEnd(s);
    if e < |s| {
      LinesAreAscii(s[e + BreakLength(s, e)..]);
    }
  }

  lemma IndentedIsAscii(s: Text)
    requires Clean(s)
    ensures forall c :: c in Printed(Some(s)) ==> IsAscii(c)
  {
    LinesAreAscii(s);
    var lines := [FIRST_LINE] + Indented(SplitLines(s));
    assert forall k, i :: 0 <= k < |lines| && 0 <= i < |lines[k]| ==> IsAscii(lines[k][i]);
    AllAscii(lines);
  }

  lemma BlockFieldAt(lines: seq<Text>, pos: nat, name: Text, ls: seq<Text>)
    requires pos < |lines| && SimpleField(lines[pos]).None? && BlockField(lines[pos]) == Some(name)
    requires BlockFrom(lines, pos + 1) == ls && ls != [] && ls[|ls| - 1] != ""
    ensures FieldAt(lines, pos) == Ok(Field(name, Join(ls), pos + 1 + |ls|))
  {
    hide SimpleField, BlockField, BlockFrom, Join;
  }

  lemma BlockHeaderField(ls: seq<Text>)
    requires ls != [] && ls[|ls| - 1] != ""
    ensures FieldAt([FIRST_LINE] + Indented(ls), 0) == Ok(Field("signature", Join(ls), 1 + |ls|))
  {
    hide *;
    var lines := [FIRST_LINE] + Indented(ls);
    SignatureLine();
    assert lines[1..] == Indented(ls);
    BlockOfIndented(lines, 1, ls);
    BlockFieldAt(lines, 0, "signature", ls);
  }

  lemma BlockHeaderParses(ls: seq<Text>)
    requires ls != [] && ls[|ls| - 1] != ""
    ensures Fields([FIRST_LINE] + Indented(ls), 0, KNOWN, map[]) == Ok(map["signature" := Join(ls)])
  {
    hide Join, FieldAt;
    BlockHeaderField(ls);
    FieldsStep([FIRST_LINE] + Indented(ls), 0, KNOWN, map[], Field("signature", Join(ls), 1 + |ls|));
    assert map[]["signature" := Join(ls)] == map["signature" := Join(ls)];
  }

  lemma PrintableParses(s: Text)
    requires Clean(s)
    ensures FromBytes(Printed(Some(s))) == Ok(Some(s))
  {
    hide Fields, SplitLines, Join, Printed;
    PrintedLines(s);
    IndentedIsAscii(s);
    BlockHeaderParses(SplitLines(s));
  }

  // ---- what parsing can return ----

  /** Every value the parser returns could be printed. */
  ghost predicate Clean(v: Text) {
    Printable(v) && v[|v| - 1] != '\n'
  }

  ghost predicate CleanLine(l: Text) {
    forall i :: 0 <= i < |l| ==> IsAscii(l[i]) && !IsBreak(l[i])
  }

  lemma {:induction false} JoinIsClean(ls: seq<Text>)
    requires ls != [] && ls[|ls| - 1] != "" && forall k :: 0 <= k < |ls| ==> CleanLine(ls[k])
    ensures Clean(Join(ls))
  {
    if |ls| > 1 {
      JoinIsClean(ls[1..]);
    }
  }

  lemma {:induction false} BlockIsClean(lines: seq<Text>, pos: nat)
    requires forall k :: 0 <= k < |lines| ==> CleanLine(lines[k])
    ensures forall k :: 0 <= k < |BlockFrom(lines, pos)| ==> CleanLine(BlockFrom(lines, pos)[k])
    decreases |lines| - pos
  {
    if pos < |lines| && BlockLine(lines[pos]).Some? {
      BlockIsClean(lines, pos + 1);
    }
  }

  lemma {:induction false} TrimIsClean(ls: seq<Text>)
    requires forall k :: 0 <= k < |ls| ==> CleanLine(ls[k])
    ensures forall k :: 0 <= k < |TrimEnd(ls)| ==> CleanLine(TrimEnd(ls)[k])
  {
    if ls != [] && ls[|ls| - 1] == "" { TrimIsClean(ls[..|ls| - 1]); }
  }

  lemma FieldIsClean(lines: seq<Text>, pos: nat)
    requires pos < |lines| && forall k :: 0 <= k < |lines| ==> CleanLine(lines[k])
    ensures FieldAt(lines, pos).Ok? ==> Clean(FieldAt(lines, pos).value.value)
  {
    if SimpleField(lines[pos]).None? {
      BlockIsClean(lines, pos + 1);
      TrimIsClean(BlockFrom(lines, pos + 1));
      if TrimEnd(BlockFrom(lines, pos + 1)) != [] {
        JoinIsClean(TrimEnd(BlockFrom(lines, pos + 1)));
      }
    }
  }

  lemma FieldsStep(lines: seq<Text>, pos: nat, known: set<Text>, result: map<Text, Text>, f: Field)
    requires pos < |lines| && FieldAt(lines, pos) == Ok(f)
    ensures Fields(lines, pos, known, result) ==
            if f.name !in known then Err(UnexpectedField)
            else if f.name in result then Err(DuplicateField)
            else Fields(lines, f.next, known, result[f.name := f.value])
  {
  }

  lemma {:induction false} FieldsAreClean(lines: seq<Text>, pos: nat, known: set<Text>, result: map<Text, Text>)
    requires forall k :: 0 <= k < |lines| ==> CleanLine(lines[k])
    requires forall n :: n in result ==> Clean(result[n])
    ensures var r := Fields(lines, pos, known, result); r.Ok? ==> forall n :: n in r.value ==> Clean(r.value[n])
    decreases |lines| - pos
  {
    if pos < |lines| && FieldAt(lines, pos).Ok? {
      hide FieldAt, Clean, CleanLine;
      FieldIsClean(lines, pos);
      var f := FieldAt(lines, pos).value;
      FieldsStep(lines, pos, known, result, f);
      if f.name in known && f.name !in result {
        FieldsAreClean(lines, f.next, known, result[f.name := f.value]);
      }
    }
  }

  lemma ParsedIsClean(data: Text)
    ensures var r := FromBytes(data); r.Ok? && r.value.Some? ==> Clean(r.value.value)
  {
    if forall c :: c in data ==> IsAscii(c) {
      LinesAreAscii(data);
      FieldsAreClean(SplitLines(data), 0, KNOWN, map[]);
      var fields := Fields(SplitLines(data), 0, KNOWN, map[]);
      if fields.Ok? && "signature" in fields.value {
        assert Clean(fields.value["signature"]);
      }
    }
  }

  // ---- the round trips ----

  /** A header prints, and parses back to itself, exactly when it has no signature, or one that is not
      empty, is ASCII and has newlines for its only line breaks. */
  lemma HeaderRoundTrip(signature: Option<Text>)
    requires signature.Some? ==> StripNewlines(signature.value) == signature.value
    ensures ToBytes(signature).Some? <==> signature.None? || Printable(signature.value)
    ensures ToBytes(signature).Some? ==> FromBytes(ToBytes(signature).value) == Ok(signature)
  {
    ParsedIsClean(Printed(signature));
    if signature.Some? && Printable(signature.value) { PrintableParses(signature.value); }
  }

  /** A newline of a printed header is always followed by the two spaces of a block line. */
  ghost predicate NewlinesIndent(h: Text) {
    forall i :: 0 <= i < |h| && h[i] == '\n' ==> i + 1 < |h| && h[i + 1] == ' '
  }

  lemma {:induction false} IndentedNewlines(first: Text, ls: seq<Text>)
    requires BreakFree(first) && forall k :: 0 <= k < |ls| ==> BreakFree(ls[k])
    ensures NewlinesIndent(Join([first] + Indented(ls)))
    ensures first <= Join([first] + Indented(ls))
    decreases |ls|
  {
    if ls == [] {
      assert [first] + Indented(ls) == [first];
    } else {
      var next := "  " + ls[0];
      var rest := [next] + Indented(ls[1..]);
      assert rest == Indented(ls);
      IndentedNewlines(next, ls[1..]);
      JoinStep(first, rest);
      var j := Join(rest);
      assert j[0] == next[0];
      var whole := first + "\n" + j;
      forall i | 0 <= i < |whole| && whole[i] == '\n'
        ensures i + 1 < |whole| && whole[i + 1] == ' '
      {
        if i > |first| { assert whole[i] == j[i - |first| - 1]; }
      }
    }
  }

  lemma NoEarlierSeparator(h: Text, data: Text)
    requires NewlinesIndent(h) && (h == "" || h[0] == 's')
    ensures SplitHeader(h + SEPARATOR + data) == Some((h, data))
  {
    var whole := h + SEPARATOR + data;
    assert whole[|h|..] == SEPARATOR + data;
    assert SeparatorAt(whole, |h|);
    assert whole[..|h|] == h && whole[|h| + 5..] == data;
    assert whole[0] != '-';
    forall j | 0 <= j < |h|
      ensures !SeparatorAt(whole, j)
    {
      assert whole[j] == h[j];
      if h[j] == '\n' { assert whole[j + 1] == h[j + 1]; }
    }
  }

  /** Whatever the data contains, separators included, a printed header is split off it exactly. */
  lemma SplitRoundTrip(signature: Option<Text>, data: Text)
    ensures var header := ToBytes(signature);
            header.Some? ==> SplitHeader(header.value + SEPARATOR + data) == Some((header.value, data))
  {
    hide FromBytes, SplitHeader;
    if ToBytes(signature).Some? {
      if signature.Some? {
        IndentedNewlines(FIRST_LINE, SplitLines(signature.value));
        assert FIRST_LINE[0] == 's';
      }
      NoEarlierSeparator(Printed(signature), data);
    }
  }
}
