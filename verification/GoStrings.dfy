/** The string and integer primitives of the Go standard library that the firewall's
    parsers are written in, on ASCII text: trimming, case folding, searching, splitting,
    and strconv's 64-bit parsing. */
module GoStrings {

  datatype Option<+T> = None | Some(value: T)

  // ---------------------------------------------------------------- characters

  predicate IsSpace(c: char) {
    c == ' ' || c == '\t' || c == '\n' || c == '\r' || c as int == 11 || c as int == 12
  }

  predicate IsDigit(c: char) {
    '0' <= c <= '9'
  }

  predicate IsUpper(c: char) {
    'A' <= c <= 'Z'
  }

  function LowerChar(c: char): (r: char)
    ensures !IsUpper(r)
    ensures IsSpace(c) <==> IsSpace(r)
  {
    if IsUpper(c) then (c as int + 32) as char else c
  }

  // ---------------------------------------------------------------- whole strings

  function ToLower(s: string): (r: string)
    ensures |r| == |s|
    ensures forall i :: 0 <= i < |s| ==> r[i] == LowerChar(s[i])
  {
    seq(|s|, i requires 0 <= i < |s| => LowerChar(s[i]))
  }

  /** strings.EqualFold on ASCII text. */
  predicate EqualFold(a: string, b: string) {
    ToLower(a) == ToLower(b)
  }

  function TrimLeft(s: string): (r: string)
    ensures r == [] || !IsSpace(r[0])
    ensures |r| <= |s| && r == s[|s| - |r|..]
  {
    if s != [] && IsSpace(s[0]) then TrimLeft(s[1..]) else s
  }

  function TrimRight(s: string): (r: string)
    ensures r == [] || !IsSpace(r[|r| - 1])
    ensures |r| <= |s| && r == s[..|r|]
  {
    if s != [] && IsSpace(s[|s| - 1]) then TrimRight(s[..|s| - 1]) else s
  }

  function TrimSpace(s: string): (r: string)
    ensures r == [] || (!IsSpace(r[0]) && !IsSpace(r[|r| - 1]))
  {
    var l := TrimLeft(s);
    var r := TrimRight(l);
    r
  }

  lemma TrimSpaceFixed(s: string)
    requires s == [] || (!IsSpace(s[0]) && !IsSpace(s[|s| - 1]))
    ensures TrimSpace(s) == s
  {
  }

  /** The letter that is as far into the lower-case alphabet; anything else is itself. */
  lemma FoldsExactly(c: char)
    ensures 'A' <= c <= 'Z' ==> 'a' <= LowerChar(c) <= 'z' && LowerChar(c) - 'a' == c - 'A'
    ensures !('A' <= c <= 'Z') ==> LowerChar(c) == c
  {
  }

  predicate AllSpace(s: string) {
    forall i :: 0 <= i < |s| ==> IsSpace(s[i])
  }

  lemma {:induction false} TrimLeftDrops(s: string)
    ensures AllSpace(s[..|s| - |TrimLeft(s)|])
  {
    if s != [] && IsSpace(s[0]) {
      TrimLeftDrops(s[1..]);
      var n := |s| - |TrimLeft(s)|;
      assert forall i :: 0 < i < n ==> s[..n][i] == s[1..][..n - 1][i - 1];
    }
  }

  lemma {:induction false} TrimRightDrops(s: string)
    ensures AllSpace(s[|TrimRight(s)|..])
  {
    if s != [] && IsSpace(s[|s| - 1]) {
      var t := s[..|s| - 1];
      TrimRightDrops(t);
      var n := |TrimRight(s)|;
      assert forall i :: 0 <= i < |s| - n - 1 ==> s[n..][i] == t[n..][i];
    }
  }

  /** Only spaces are trimmed, and none is left at either end. */
  lemma TrimSpaceExactly(s: string) returns (a: string, b: string)
    ensures s == a + TrimSpace(s) + b && AllSpace(a) && AllSpace(b)
  {
    hide *;
    TrimSpaceIs(s);
    var l := TrimLeft(s);
    TrimLeftDrops(s);
    TrimRightDrops(l);
    a, b := s[..|s| - |l|], l[|TrimRight(l)|..];
  }

  lemma TrimSpaceIs(s: string)
    ensures TrimSpace(s) == TrimRight(TrimLeft(s))
  {
    hide TrimLeft, TrimRight;
  }

  lemma TrimSpaceMembers(s: string, c: char)
    requires c in TrimSpace(s)
    ensures c in s
  {
  }

  function TrimPrefix(s: string, p: string): string {
    if p <= s then s[|p|..] else s
  }

  predicate HasSuffix(s: string, p: string) {
    |p| <= |s| && s[|s| - |p|..] == p
  }

  function TrimSuffix(s: string, p: string): string {
    if HasSuffix(s, p) then s[..|s| - |p|] else s
  }

  // ---------------------------------------------------------------- searching

  /** strings.IndexByte: the first position of c, or -1. */
  function IndexByte(s: string, c: char): (r: int)
    ensures -1 <= r < |s|
    ensures r >= 0 ==> s[r] == c && c !in s[..r]
    ensures r < 0 <==> c !in s
  {
    if s == [] then -1
    else if s[0] == c then 0
    else
      var r := IndexByte(s[1..], c);
      if r < 0 then -1 else
        assert s[..r + 1] == [s[0]] + s[1..][..r];
        r + 1
  }

  /** strings.LastIndexByte: the last position of c, or -1. */
  function LastIndexByte(s: string, c: char): (r: int)
    ensures -1 <= r < |s|
    ensures r >= 0 ==> s[r] == c && c !in s[r + 1..]
    ensures r < 0 <==> c !in s
  {
    if s == [] then -1
    else if s[|s| - 1] == c then |s| - 1
    else
      var r := LastIndexByte(s[..|s| - 1], c);
      assert s == s[..|s| - 1] + [s[|s| - 1]];
      if r < 0 then -1 else
        assert s[r + 1..] == s[..|s| - 1][r + 1..] + [s[|s| - 1]];
        r
  }

  lemma IndexByteIs(s: string, c: char, k: nat)
    requires k < |s| && s[k] == c && c !in s[..k]
    ensures IndexByte(s, c) == k
  {
    var r := IndexByte(s, c);
    assert forall j :: 0 <= j < k ==> s[..k][j] == s[j];
    assert r >= 0 ==> forall j :: 0 <= j < r ==> s[..r][j] == s[j];
  }

  lemma LastIndexByteIs(s: string, c: char, k: nat)
    requires k < |s| && s[k] == c && c !in s[k + 1..]
    ensures LastIndexByte(s, c) == k
  {
    var r := LastIndexByte(s, c);
    assert forall j :: k < j < |s| ==> s[k + 1..][j - k - 1] == s[j];
    assert r >= 0 ==> forall j :: r < j < |s| ==> s[r + 1..][j - r - 1] == s[j];
  }

  lemma IndexByteCut(a: string, c: char, b: string)
    requires c !in a
    ensures IndexByte(a + [c] + b, c) == |a|
    ensures (a + [c] + b)[..|a|] == a && (a + [c] + b)[|a| + 1..] == b
  {
    var s := a + [c] + b;
    assert s[..|a|] == a;
    IndexByteIs(s, c, |a|);
  }

  predicate At(s: string, sub: string, i: int) {
    0 <= i && i + |sub| <= |s| && s[i..i + |sub|] == sub
  }

  /** strings.Contains. */
  predicate Contains(s: string, sub: string) {
    exists i :: 0 <= i <= |s| && At(s, sub, i)
  }

  /** strings.Index from position i on: the first occurrence of sub, or -1. */
  function IndexFrom(s: string, sub: string, i: nat): (r: int)
    requires i <= |s|
    ensures r >= 0 ==> i <= r && At(s, sub, r) && forall j :: i <= j < r ==> !At(s, sub, j)
    ensures r < 0 ==> r == -1 && forall j :: i <= j ==> !At(s, sub, j)
    decreases |s| - i
  {
    if At(s, sub, i) then i
    else if i == |s| then -1
    else IndexFrom(s, sub, i + 1)
  }

  function Index(s: string, sub: string): (r: int)
    ensures r >= 0 ==> At(s, sub, r) && forall j :: 0 <= j < r ==> !At(s, sub, j)
    ensures r < 0 <==> !Contains(s, sub)
    ensures -1 <= r <= |s|
  {
    IndexFrom(s, sub, 0)
  }

  // ---------------------------------------------------------------- splitting

  /** strings.Split on a one-byte separator. */
  function Split(s: string, c: char): (parts: seq<string>)
    ensures |parts| >= 1
    ensures forall k :: 0 <= k < |parts| ==> c !in parts[k]
    decreases |s|
  {
    hide IndexByte;
    var i := IndexByte(s, c);
    if i < 0 then [s] else
      var head, rest := s[..i], Split(s[i + 1..], c);
      NoneCons(head, rest, c);
      [head] + rest
  }

  lemma NoneCons(head: string, rest: seq<string>, c: char)
    requires c !in head && forall k :: 0 <= k < |rest| ==> c !in rest[k]
    ensures forall k :: 0 <= k < |[head] + rest| ==> c !in ([head] + rest)[k]
  {
  }

  /** strings.Join with a one-byte separator. */
  function Join(parts: seq<string>, c: char): string {
    if parts == [] then ""
    else if |parts| == 1 then parts[0]
    else parts[0] + [c] + Join(parts[1..], c)
  }

  lemma SplitCons(a: string, c: char, b: string)
    requires c !in a
    ensures Split(a + [c] + b, c) == [a] + Split(b, c)
  {
    var s := a + [c] + b;
    assert s[..|a|] == a;
    IndexByteIs(s, c, |a|);
    assert s[|a| + 1..] == b;
  }

  lemma {:induction false} SplitJoin(parts: seq<string>, c: char)
    requires |parts| >= 1
    requires forall k :: 0 <= k < |parts| ==> c !in parts[k]
    ensures Split(Join(parts, c), c) == parts
  {
    if |parts| == 1 {
      assert IndexByte(parts[0], c) < 0;
      assert parts == [parts[0]];
    } else {
      SplitCons(parts[0], c, Join(parts[1..], c));
      SplitJoin(parts[1..], c);
      assert parts == [parts[0]] + parts[1..];
    }
  }

  lemma {:induction false} JoinSplit(s: string, c: char)
    ensures Join(Split(s, c), c) == s
    decreases |s|
  {
    var i := IndexByte(s, c);
    if i < 0 {
      JoinOne(s, c);
    } else {
      JoinSplit(s[i + 1..], c);
      SplitStep(s, c);
      hide *;
      JoinCons(s[..i], Split(s[i + 1..], c), c);
      Glue(s, i);
    }
  }

  lemma Glue(s: string, i: nat)
    requires i < |s|
    ensures s == s[..i] + [s[i]] + s[i + 1..]
  {
  }

  lemma JoinOne(s: string, c: char)
    ensures Join([s], c) == s
  {
  }

  lemma SplitStep(s: string, c: char)
    ensures c !in s ==> Split(s, c) == [s]
    ensures var i := IndexByte(s, c); i >= 0 ==> Split(s, c) == [s[..i]] + Split(s[i + 1..], c)
  {
  }

  lemma JoinCons(a: string, rest: seq<string>, c: char)
    requires |rest| >= 1
    ensures Join([a] + rest, c) == a + [c] + Join(rest, c)
  {
    assert ([a] + rest)[1..] == rest;
  }

  lemma {:induction false} JoinMembers(parts: seq<string>, c: char, x: char)
    requires x in Join(parts, c)
    ensures x == c || exists k :: 0 <= k < |parts| && x in parts[k]
  {
    if |parts| > 1 {
      if x in parts[0] {
      } else if x != c {
        assert x in Join(parts[1..], c);
        JoinMembers(parts[1..], c, x);
        var k :| 0 <= k < |parts[1..]| && x in parts[1..][k];
        assert x in parts[k + 1];
      }
    } else if |parts| == 1 {
      assert x in parts[0];
    }
  }

  // ---------------------------------------------------------------- order

  /** strings.Compare: bytewise lexicographic order as -1, 0 or 1. */
  function Compare(a: string, b: string): (r: int)
    ensures r == -1 || r == 0 || r == 1
    ensures r == 0 <==> a == b
  {
    if a == [] && b == [] then 0
    else if a == [] then -1
    else if b == [] then 1
    else if a[0] < b[0] then -1
    else if b[0] < a[0] then 1
    else
      var r := Compare(a[1..], b[1..]);
      assert a == [a[0]] + a[1..] && b == [b[0]] + b[1..];
      r
  }

  lemma {:induction false} CompareSign(a: string, b: string)
    ensures Compare(a, b) == -Compare(b, a)
  {
    if a != [] && b != [] && a[0] == b[0] {
      CompareSign(a[1..], b[1..]);
    }
  }

  /** a and b agree before k, and there a ends or has the smaller byte. */
  predicate PartsAt(a: string, b: string, k: nat) {
    && k <= |a| && k < |b| && (forall j :: 0 <= j < k ==> a[j] == b[j])
    && (k == |a| || a[k] < b[k])
  }

  /** a comes before b in bytewise lexicographic order: it is a proper prefix, or smaller at the
      first byte where they differ. */
  ghost predicate TextBefore(a: string, b: string) {
    exists k: nat :: PartsAt(a, b, k)
  }

  lemma PartsNext(a: string, b: string, k: nat)
    requires a != [] && b != [] && a[0] == b[0]
    ensures PartsAt(a, b, k + 1) <==> PartsAt(a[1..], b[1..], k)
  {
    if PartsAt(a, b, k + 1) {
      assert forall j :: 0 <= j < k ==> a[1..][j] == a[j + 1] && b[1..][j] == b[j + 1];
    }
    if PartsAt(a[1..], b[1..], k) {
      assert forall j :: 0 < j < k + 1 ==> a[j] == a[1..][j - 1] && b[j] == b[1..][j - 1];
    }
  }

  lemma TextBeforeTail(a: string, b: string)
    requires a != [] && b != [] && a[0] == b[0]
    ensures TextBefore(a, b) <==> TextBefore(a[1..], b[1..])
  {
    assert !PartsAt(a, b, 0);
    if k: nat :| PartsAt(a, b, k) {
      assert k > 0;
      PartsNext(a, b, k - 1);
    }
    if k: nat :| PartsAt(a[1..], b[1..], k) { PartsNext(a, b, k); }
  }

  lemma TextBeforeHead(a: string, b: string)
    requires a == [] || b == [] || a[0] != b[0]
    ensures TextBefore(a, b) <==> b != [] && (a == [] || a[0] < b[0])
  {
    assert forall k: nat :: PartsAt(a, b, k) ==> k == 0;
    assert b != [] && (a == [] || a[0] < b[0]) ==> PartsAt(a, b, 0);
  }

  lemma {:induction false} CompareIsLexicographic(a: string, b: string)
    ensures Compare(a, b) == -1 <==> TextBefore(a, b)
  {
    hide TextBefore;
    if a != [] && b != [] && a[0] == b[0] {
      CompareIsLexicographic(a[1..], b[1..]);
      TextBeforeTail(a, b);
    } else {
      TextBeforeHead(a, b);
    }
  }

  lemma {:induction false} CompareTrans(a: string, b: string, c: string)
    requires Compare(a, b) <= 0 && Compare(b, c) <= 0
    ensures Compare(a, c) <= 0
  {
    if a != [] && b != [] && c != [] && a[0] == b[0] == c[0] {
      CompareTrans(a[1..], b[1..], c[1..]);
    }
  }

  // ---------------------------------------------------------------- numbers

  const MAX_INT64: int := 0x7FFF_FFFF_FFFF_FFFF

  predicate AllDigits(s: string) {
    forall i :: 0 <= i < |s| ==> IsDigit(s[i])
  }

  function DigitValue(c: char): (d: nat)
    requires IsDigit(c)
    ensures d < 10
  {
    c as int - '0' as int
  }

  /** The number a run of decimal digits denotes. */
  function Value(s: string): nat
    requires AllDigits(s)
  {
    if s == [] then 0 else 10 * Value(s[..|s| - 1]) + DigitValue(s[|s| - 1])
  }

  /** strconv.ParseInt(s, 10, 64), which strconv.Atoi equals on a 64-bit platform. */
  function ParseInt(s: string): Option<int> {
    var neg := s != [] && s[0] == '-';
    var body := if s != [] && (s[0] == '-' || s[0] == '+') then s[1..] else s;
    if body == [] || !AllDigits(body) then None
    else if neg then (if Value(body) <= MAX_INT64 + 1 then Some(-(Value(body) as int)) else None)
    else (if Value(body) <= MAX_INT64 then Some(Value(body)) else None)
  }

  /** What reads as a number: an optional sign and digits, at least one, whose number fits 64 bits. */
  lemma ParsesIntExactly(sign: string, digits: string)
    requires (sign == "" || sign == "+" || sign == "-") && AllDigits(digits)
    ensures var n := if sign == "-" then -(Value(digits) as int) else Value(digits);
            ParseInt(sign + digits) ==
            if digits != "" && -0x8000_0000_0000_0000 <= n <= 0x7FFF_FFFF_FFFF_FFFF then Some(n) else None
  {
    var s := sign + digits;
    if sign == "" {
      assert s == digits;
      assert digits != "" ==> IsDigit(s[0]);
    } else {
      assert s[1..] == digits;
    }
    hide Value;
  }

  lemma OnlyNumbersParse(s: string) returns (sign: string, digits: string)
    requires ParseInt(s).Some?
    ensures s == sign + digits && (sign == "" || sign == "+" || sign == "-") && AllDigits(digits) && digits != ""
  {
    if s[0] == '-' || s[0] == '+' {
      sign, digits := s[..1], s[1..];
    } else {
      sign, digits := "", s;
    }
    hide Value;
  }

  function DigitChar(d: nat): (c: char)
    requires d < 10
    ensures IsDigit(c) && DigitValue(c) == d
  {
    ('0' as int + d) as char
  }

  /** strconv.Itoa on a non-negative number. */
  function Itoa(n: nat): (s: string)
    ensures s != [] && AllDigits(s)
    ensures |s| > 1 ==> s[0] != '0'
    ensures n > 0 ==> s[0] != '0'
    ensures Value(s) == n
  {
    if n < 10 then
      var s := [DigitChar(n)];
      assert s[..0] == [];
      s
    else
      var p := Itoa(n / 10);
      var s := p + [DigitChar(n % 10)];
      assert s[..|s| - 1] == p;
      s
  }

  lemma ItoaInjective(m: nat, n: nat)
    requires Itoa(m) == Itoa(n)
    ensures m == n
  {
    assert Value(Itoa(m)) == Value(Itoa(n));
  }

  /** Leading zeros do not change the value; without them the digits are determined by it. */
  lemma {:induction false} ItoaValue(s: string)
    requires s != [] && AllDigits(s)
    requires |s| > 1 ==> s[0] != '0'
    ensures Itoa(Value(s)) == s
  {
    hide *;
    var p := s[..|s| - 1];
    assert s == p + [s[|s| - 1]];
    DigitsFront(s);
    ValueStep(s);
    if p == [] {
      ValueNone();
      ItoaOne(s[0]);
      assert s == [s[0]];
    } else {
      ItoaValue(p);
      assert p[0] == s[0];
      ValuePositive(p);
      ItoaStep(Value(p), s[|s| - 1]);
    }
  }

  lemma DigitsFront(s: string)
    requires s != [] && AllDigits(s)
    ensures AllDigits(s[..|s| - 1]) && IsDigit(s[|s| - 1])
  {
  }

  lemma ValueStep(s: string)
    requires s != [] && AllDigits(s)
    ensures AllDigits(s[..|s| - 1]) && IsDigit(s[|s| - 1])
    ensures Value(s) == 10 * Value(s[..|s| - 1]) + DigitValue(s[|s| - 1])
  {
  }

  lemma ValueNone()
    ensures AllDigits([]) && Value([]) == 0
  {
  }

  lemma ItoaOne(c: char)
    requires IsDigit(c)
    ensures Itoa(DigitValue(c)) == [c]
  {
  }

  lemma ItoaStep(n: nat, c: char)
    requires n > 0 && IsDigit(c)
    ensures Itoa(10 * n + DigitValue(c)) == Itoa(n) + [c]
  {
    var m := 10 * n + DigitValue(c);
    assert m / 10 == n && m % 10 == DigitValue(c);
    assert DigitChar(m % 10) == c;
  }

  lemma {:induction false} ValuePositive(s: string)
    requires s != [] && AllDigits(s) && s[0] != '0'
    ensures Value(s) > 0
  {
    if |s| > 1 { ValuePositive(s[..|s| - 1]); }
  }

  lemma {:induction false} ValueLeadingZero(s: string)
    requires AllDigits(s)
    ensures AllDigits(['0'] + s) && Value(['0'] + s) == Value(s)
  {
    var z := ['0'] + s;
    if s == [] {
      assert z[..0] == [];
    } else {
      ValueLeadingZero(s[..|s| - 1]);
      assert z[..|z| - 1] == ['0'] + s[..|s| - 1];
    }
  }
}
