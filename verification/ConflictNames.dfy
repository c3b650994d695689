/** The names given to clashing files: how the resolver prints and parses them. */
module ConflictNames {
  import opened Prelude

  predicate IsDigit(c: char) { '0' <= c <= '9' }

  function DigitValue(c: char): nat
    requires IsDigit(c)
  {
    c as int - '0' as int
  }

  // ---- decimal numbers ----

  function Decimal(n: nat): (s: string)
    ensures s != [] && forall c :: c in s ==> IsDigit(c)
  {
    if n < 10 then [('0' as int + n) as char]
    else Decimal(n / 10) + [('0' as int + n % 10) as char]
  }

  function Number(s: string): nat
    requires forall c :: c in s ==> IsDigit(c)
  {
    if s == [] then 0
    else 10 * Number(s[..|s| - 1]) + DigitValue(s[|s| - 1])
  }

  lemma {:induction false} NumberOfDecimal(n: nat)
    ensures Number(Decimal(n)) == n
  {
    if n >= 10 {
      NumberOfDecimal(n / 10);
      assert Decimal(n)[..|Decimal(n)| - 1] == Decimal(n / 10);
    } else {
      assert Decimal(n)[..0] == [];
    }
  }

  // ---- stem and suffix of a file name, as pathlib splits it ----

  /** Index of the last occurrence of c, or -1. */
  function LastIndex(s: string, c: char): (i: int)
    ensures -1 <= i < |s|
    ensures i >= 0 ==> s[i] == c
    ensures forall j :: i < j < |s| ==> s[j] != c
  {
    if s == [] then -1
    else if s[|s| - 1] == c then |s| - 1
    else LastIndex(s[..|s| - 1], c)
  }

  /** Where the suffix of a name starts: |name| when it has none. */
  function SuffixAt(name: string): (i: nat)
    ensures i <= |name|
  {
    var i := LastIndex(name, '.');
    if 0 < i < |name| - 1 then i else |name|
  }

  function Stem(name: string): string { name[..SuffixAt(name)] }

  function Suffix(name: string): string { name[SuffixAt(name)..] }

  // ---- printing ----

  const MARK := ".wl_"

  /** The name under which the file `name` of storage `id` is listed when it clashes. */
  function Decorate(name: string, id: nat): string {
    Stem(name) + MARK + Decimal(id) + Suffix(name)
  }

  // ---- parsing ----

  /** The regular expression's dot before "wl_" stands for any character. */
  predicate MarkAt(s: string, i: int) {
    0 <= i && i + 4 < |s| && s[i + 1] == 'w' && s[i + 2] == 'l' && s[i + 3] == '_' && IsDigit(s[i + 4])
  }

  /** The greedy first group makes the last mark count. Searches below `hi`. */
  function LastMark(s: string, hi: nat): (r: Option<nat>)
    ensures r.Some? ==> r.value < hi && MarkAt(s, r.value) && forall j :: r.value < j < hi ==> !MarkAt(s, j)
    ensures r.None? ==> forall j :: 0 <= j < hi ==> !MarkAt(s, j)
  {
    if hi == 0 then None
    else if MarkAt(s, hi - 1) then Some(hi - 1)
    else LastMark(s, hi - 1)
  }

  /** End of the run of digits starting at i. */
  function DigitsEnd(s: string, i: nat): (e: nat)
    requires i <= |s|
    ensures i <= e <= |s|
    ensures forall k :: i <= k < e ==> IsDigit(s[k])
    ensures e == |s| || !IsDigit(s[e])
    decreases |s| - i
  {
    if i < |s| && IsDigit(s[i]) then DigitsEnd(s, i + 1) else i
  }

  /** A "$" also matches before one final newline, and "." never matches a newline. */
  function Body(s: string): string {
    if s != [] && s[|s| - 1] == '\n' then s[..|s| - 1] else s
  }

  /** The real name and storage id a decorated name stands for; None when it is not one. */
  function Decode(s: string): Option<(string, nat)> {
    var b := Body(s);
    if '\n' in b then None
    else match LastMark(b, |b|)
         case None => None
         case Some(i) =>
           var e := DigitsEnd(b, i + 4);
           Some((b[..i] + b[e..], IdAt(b, i)))
  }

  /** A name in conflict form: lookups read it as a renamed file. */
  predicate InConflictForm(name: string) { Decode(name).Some? }

  /** Has a mark anywhere. */
  predicate HasMark(s: string) { LastMark(s, |s|).Some? }

  // ---- round trip ----

  lemma LastMarkIs(s: string, m: nat)
    requires MarkAt(s, m) && forall j :: m < j < |s| ==> !MarkAt(s, j)
    ensures LastMark(s, |s|) == Some(m)
  {
  }

  lemma DigitsEndIs(s: string, i: nat, e: nat)
    requires i <= e <= |s|
    requires forall j :: i <= j < e ==> IsDigit(s[j])
    requires e == |s| || !IsDigit(s[e])
    ensures DigitsEnd(s, i) == e
    decreases e - i
  {
    if i < e { DigitsEndIs(s, i + 1, e); }
  }

  /** The marks of a decorated name at or after the inserted one: that one, and the suffix's. No digit
      of the id can start a mark, since the suffix is empty or starts with a dot. */
  lemma DecoratedMarks(a: string, ds: string, su: string)
    requires ds != [] && (forall c :: c in ds ==> IsDigit(c)) && (su == [] || su[0] == '.')
    ensures var d, t := a + MARK + ds + su, |a| + 4 + |ds|;
            && MarkAt(d, |a|)
            && (forall j :: |a| < j < t ==> !MarkAt(d, j))
            && (forall j :: t <= j < |d| ==> (MarkAt(d, j) <==> MarkAt(su, j - t)))
            && DigitsEnd(d, |a| + 4) == t
            && d[|a| + 4..t] == ds && d[..|a|] == a && d[t..] == su
  {
    var d, t := a + MARK + ds + su, |a| + 4 + |ds|;
    assert forall j :: |a| + 4 <= j < t ==> d[j] == ds[j - |a| - 4];
    DigitsEndIs(d, |a| + 4, t);
    assert d[..|a|] == a;
    assert d[t..] == su;
    assert d[|a| + 4..t] == ds;
  }

  lemma DecodePlainSuffix(a: string, ds: string, su: string)
    requires ds != [] && (forall c :: c in ds ==> IsDigit(c)) && (su == [] || su[0] == '.')
    requires '\n' !in a + su && !HasMark(su)
    ensures Decode(a + MARK + ds + su) == Some((a + su, Number(ds)))
  {
    var d, t := a + MARK + ds + su, |a| + 4 + |ds|;
    DecoratedMarks(a, ds, su);
    LastMarkIs(d, |a|);
    NoNewline(a, ds, su);
  }

  /** The number written after the mark at m. */
  function IdAt(s: string, m: nat): nat
    requires MarkAt(s, m)
  {
    Number(s[m + 4..DigitsEnd(s, m + 4)])
  }

  /** The storage id read off the last mark of a suffix. */
  function SuffixNumber(su: string): nat
    requires HasMark(su)
  {
    IdAt(su, LastMark(su, |su|).value)
  }

  lemma IdAtShift(d: string, su: string, t: nat, n: nat)
    requires t <= |d| && d[t..] == su && MarkAt(su, n) && MarkAt(d, t + n)
    ensures IdAt(d, t + n) == IdAt(su, n)
  {
    DigitsEndShift(d, su, t, n + 4);
    var e := DigitsEnd(su, n + 4);
    assert forall k :: n + 4 <= k < e ==> d[t + k] == su[k];
    assert d[t + n + 4..t + e] == su[n + 4..e];
  }

  lemma LastMarkShift(d: string, su: string, t: nat)
    requires t <= |d| && d[t..] == su && HasMark(su)
    ensures LastMark(d, |d|) == Some(t + LastMark(su, |su|).value)
  {
    assert forall j :: t <= j < |d| ==> d[j] == su[j - t];
    assert forall j :: t <= j < |d| ==> (MarkAt(d, j) <==> MarkAt(su, j - t));
    LastMarkIs(d, t + LastMark(su, |su|).value);
  }

  lemma DecodeMarkedSuffix(d: string, su: string, t: nat)
    requires t <= |d| && d[t..] == su && '\n' !in d && HasMark(su)
    ensures Decode(d).Some? && Decode(d).value.1 == SuffixNumber(su)
  {
    LastMarkShift(d, su, t);
    IdAtShift(d, su, t, LastMark(su, |su|).value);
  }

  lemma NoNewline(a: string, ds: string, su: string)
    requires (forall c :: c in ds ==> IsDigit(c)) && '\n' !in a + su
    ensures '\n' !in a + MARK + ds + su && Body(a + MARK + ds + su) == a + MARK + ds + su
  {
    var d := a + MARK + ds + su;
    assert forall c :: c in d ==> c in a + su || c in MARK || c in ds;
  }

  /** The last mark of a decorated name is the inserted one, or the last mark of the suffix. */
  lemma DecodeDecorated(name: string, id: nat)
    requires '\n' !in name
    ensures Decode(Decorate(name, id)).Some?
    ensures !HasMark(Suffix(name)) ==> Decode(Decorate(name, id)) == Some((name, id))
    ensures HasMark(Suffix(name)) ==> Decode(Decorate(name, id)).value.1 == SuffixNumber(Suffix(name))
  {
    var a, ds, su := Stem(name), Decimal(id), Suffix(name);
    assert a + su == name;
    if HasMark(su) {
      NoNewline(a, ds, su);
      DecodeMarkedSuffix(Decorate(name, id), su, |a| + 4 + |ds|);
    } else {
      DecodePlainSuffix(a, ds, su);
      NumberOfDecimal(id);
    }
  }

  lemma DigitsEndShift(d: string, su: string, t: nat, i: nat)
    requires t <= |d| && d[t..] == su && i <= |su|
    ensures DigitsEnd(d, t + i) == t + DigitsEnd(su, i)
    decreases |su| - i
  {
    if i < |su| {
      assert d[t + i] == su[i];
      if IsDigit(su[i]) { DigitsEndShift(d, su, t, i + 1); }
    }
  }

  /** A decorated name always decodes to the file and storage it was printed from, whatever the
      storage id, exactly when the name has no newline and no mark after its last dot. */
  lemma {:induction false} NameRoundTrip(name: string)
    ensures (forall id: nat :: Decode(Decorate(name, id)) == Some((name, id)))
       <==> '\n' !in name && !HasMark(Suffix(name))
  {
    if '\n' !in name {
      if HasMark(Suffix(name)) {
        DecodeDecorated(name, 0);
        DecodeDecorated(name, 1);
      } else {
        forall id: nat { DecodeDecorated(name, id); }
      }
    } else {
      var d := Decorate(name, 0);
      assert Stem(name) + Suffix(name) == name;
      assert Decode(d) != Some((name, 0)) by {
        if Decode(d).Some? {
          var b := Body(d);
          assert '\n' !in b;
          var i := LastMark(b, |b|).value;
          var e := DigitsEnd(b, i + 4);
          assert '\n' !in b[..i] + b[e..];
        }
      }
    }
  }

  /** A name that is not in conflict form has no mark in its suffix, so it survives the round trip. */
  lemma PlainNamesRoundTrip(name: string, id: nat)
    requires '\n' !in name && !InConflictForm(name)
    ensures Decode(Decorate(name, id)) == Some((name, id))
  {
    var su, k := Suffix(name), |Stem(name)|;
    assert Body(name) == name;
    assert forall j :: MarkAt(su, j) ==> MarkAt(name, k + j) && k + j < |name|;
    DecodeDecorated(name, id);
  }
}
