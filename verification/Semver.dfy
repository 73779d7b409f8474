/** semver.go: the precedence comparator behind dist-tag repointing, proved a total
    preorder on every string and measured against section 11 of Semantic Versioning 2.0.0. */
module Semver {
  import opened GoStrings

  // ---------------------------------------------------------------- parsing

  /** The zero value has ok == false, as a failed parse returns it. */
  datatype Semver = Semver(nums: seq<int>, pre: seq<string>, ok: bool)

  const NOT_SEMVER: Semver := Semver([0, 0, 0], [], false)

  /** One component of the core: a non-negative int64 without a leading zero. */
  function CoreNumber(p: string): (r: Option<int>)
    ensures r.Some? ==> r.value >= 0
  {
    var n := ParseInt(p);
    if n.None? || n.value < 0 || (|p| > 1 && p[0] == '0') then None else n
  }

  function CoreNumbers(parts: seq<string>): (r: Option<seq<int>>)
    ensures r.Some? ==> |r.value| == |parts|
    ensures r.Some? <==> forall k :: 0 <= k < |parts| ==> CoreNumber(parts[k]).Some?
    ensures r.Some? ==> forall k :: 0 <= k < |parts| ==> r.value[k] == CoreNumber(parts[k]).value
  {
    if parts == [] then Some([])
    else
      var n := CoreNumber(parts[0]);
      var rest := CoreNumbers(parts[1..]);
      if n.None? || rest.None? then
        assert rest.None? ==> exists k :: 0 <= k < |parts[1..]| && CoreNumber(parts[1..][k]).None?;
        assert forall k :: 0 <= k < |parts[1..]| ==> parts[1..][k] == parts[k + 1];
        None
      else Some([n.value] + rest.value)
  }

  function CutBuild(s: string): string {
    var i := IndexByte(s, '+');
    if i >= 0 then s[..i] else s
  }

  function Assemble(parts: seq<string>, pre: seq<string>): (v: Semver)
    ensures |v.nums| == 3
  {
    if "" in pre || |parts| != 3 then NOT_SEMVER
    else
      var nums := CoreNumbers(parts);
      if nums.None? then NOT_SEMVER else Semver(nums.value, pre, true)
  }

  function ParseSemver(text: string): (v: Semver)
    ensures |v.nums| == 3
  {
    var s := CutBuild(TrimPrefix(TrimSpace(text), "v"));
    var i := IndexByte(s, '-');
    if i >= 0 then Assemble(Split(s[..i], '.'), Split(s[i + 1..], '.')) else Assemble(Split(s, '.'), [])
  }

  method HasEmpty(ids: seq<string>) returns (found: bool)
    ensures found <==> "" in ids
  {
    for k := 0 to |ids|
      invariant "" !in ids[..k]
    {
      if ids[k] == "" {
        return true;
      }
      assert ids[..k + 1] == ids[..k] + [ids[k]];
    }
    assert ids[..|ids|] == ids;
    found := false;
  }

  method FillNumbers(parts: seq<string>) returns (nums: Option<seq<int>>)
    requires |parts| == 3
    ensures nums == CoreNumbers(parts)
  {
    var out := [0, 0, 0];
    for k := 0 to |parts|
      invariant |out| == 3
      invariant forall j :: 0 <= j < k ==> CoreNumber(parts[j]).Some? && out[j] == CoreNumber(parts[j]).value
    {
      var n := ParseInt(parts[k]);
      if n.None? || n.value < 0 || (|parts[k]| > 1 && parts[k][0] == '0') {
        assert CoreNumber(parts[k]).None?;
        return None;
      }
      out := out[k := n.value];
    }
    assert CoreNumbers(parts).Some?;
    assert out == CoreNumbers(parts).value;
    nums := Some(out);
  }

  /** The parser as the source runs it: two loops with early returns. */
  method Parse(text: string) returns (v: Semver)
    ensures v == ParseSemver(text)
  {
    hide TrimSpace, TrimPrefix, CutBuild, Split, IndexByte, CoreNumbers;
    var s := CutBuild(TrimPrefix(TrimSpace(text), "v"));
    var i := IndexByte(s, '-');
    var core := if i >= 0 then s[..i] else s;
    var pre := if i >= 0 then Split(s[i + 1..], '.') else [];
    var empty := HasEmpty(pre);
    var parts := Split(core, '.');
    if empty || |parts| != 3 {
      return NOT_SEMVER;
    }
    var nums := FillNumbers(parts);
    v := if nums.None? then NOT_SEMVER else Semver(nums.value, pre, true);
  }

  // ---------------------------------------------------------------- comparing

  function CompareInt(a: int, b: int): (r: int)
    ensures r == -1 || r == 0 || r == 1
  {
    if a < b then -1 else if a > b then 1 else 0
  }

  function CompareNums(a: seq<int>, b: seq<int>): (r: int)
    requires |a| == |b|
    ensures r == -1 || r == 0 || r == 1
  {
    if a == [] then 0
    else if a[0] != b[0] then CompareInt(a[0], b[0])
    else CompareNums(a[1..], b[1..])
  }

  function ComparePrereleaseID(a: string, b: string): (r: int)
    ensures r == -1 || r == 0 || r == 1
  {
    var na, nb := ParseInt(a), ParseInt(b);
    if na.Some? && nb.Some? then CompareInt(na.value, nb.value)
    else if na.Some? then -1
    else if nb.Some? then 1
    else Compare(a, b)
  }

  /** Identifier by identifier; a longer list wins a tie. */
  function ComparePre(a: seq<string>, b: seq<string>): (r: int)
    ensures r == -1 || r == 0 || r == 1
  {
    if a == [] && b == [] then 0
    else if a == [] then -1
    else if b == [] then 1
    else
      var c := ComparePrereleaseID(a[0], b[0]);
      if c != 0 then c else ComparePre(a[1..], b[1..])
  }

  function CompareParsed(va: Semver, vb: Semver): (r: int)
    requires |va.nums| == |vb.nums|
    ensures r == -1 || r == 0 || r == 1
  {
    var c := CompareNums(va.nums, vb.nums);
    if c != 0 then c
    else if va.pre == [] && vb.pre == [] then 0
    else if va.pre == [] then 1
    else if vb.pre == [] then -1
    else ComparePre(va.pre, vb.pre)
  }

  function SemverCompare(a: string, b: string): (r: int)
    ensures r == -1 || r == 0 || r == 1
  {
    var va, vb := ParseSemver(a), ParseSemver(b);
    if !va.ok && !vb.ok then Compare(TrimSpace(a), TrimSpace(b))
    else if !va.ok then -1
    else if !vb.ok then 1
    else CompareParsed(va, vb)
  }

  predicate SemverIsPrerelease(v: string) {
    var p := ParseSemver(v);
    !p.ok || |p.pre| > 0
  }

  method CompareNumsLoop(a: seq<int>, b: seq<int>) returns (r: int)
    requires |a| == |b|
    ensures r == CompareNums(a, b)
  {
    for i := 0 to |a|
      invariant CompareNums(a, b) == CompareNums(a[i..], b[i..])
    {
      if a[i] != b[i] {
        return CompareInt(a[i], b[i]);
      }
      assert a[i..][1..] == a[i + 1..] && b[i..][1..] == b[i + 1..];
    }
    r := 0;
  }

  method ComparePreLoop(a: seq<string>, b: seq<string>) returns (r: int)
    ensures r == ComparePre(a, b)
  {
    var k := 0;
    while k < |a| && k < |b|
      invariant k <= |a| && k <= |b|
      invariant ComparePre(a, b) == ComparePre(a[k..], b[k..])
    {
      var c := ComparePrereleaseID(a[k], b[k]);
      if c != 0 {
        return c;
      }
      assert a[k..][1..] == a[k + 1..] && b[k..][1..] == b[k + 1..];
      k := k + 1;
    }
    r := CompareInt(|a|, |b|);
  }

  /** The comparator as the source runs it: a loop over the core, then one over the identifiers. */
  method CompareLoop(a: string, b: string) returns (r: int)
    ensures r == SemverCompare(a, b)
  {
    var va := Parse(a);
    var vb := Parse(b);
    hide ParseSemver;
    if !va.ok || !vb.ok {
      return if va.ok then 1 else if vb.ok then -1 else Compare(TrimSpace(a), TrimSpace(b));
    }
    r := CompareNumsLoop(va.nums, vb.nums);
    if r != 0 {
      return;
    }
    if |va.pre| == 0 || |vb.pre| == 0 {
      return if |va.pre| > 0 then -1 else if |vb.pre| > 0 then 1 else 0;
    }
    r := ComparePreLoop(va.pre, vb.pre);
  }

  // ---------------------------------------------------------------- a total preorder

  lemma {:induction false} NumsLaws(a: seq<int>, b: seq<int>, c: seq<int>)
    requires |a| == |b| == |c|
    ensures CompareNums(a, b) == -CompareNums(b, a)
    ensures CompareNums(a, b) <= 0 && CompareNums(b, c) <= 0 ==>
              CompareNums(a, c) <= 0 &&
              (CompareNums(a, c) == 0 ==> CompareNums(a, b) == 0 && CompareNums(b, c) == 0)
    ensures CompareNums(a, b) == 0 <==> a == b
  {
    if a != [] {
      NumsLaws(a[1..], b[1..], c[1..]);
      assert a == [a[0]] + a[1..] && b == [b[0]] + b[1..];
    }
  }

  lemma IDLaws(a: string, b: string, c: string)
    ensures ComparePrereleaseID(a, b) == -ComparePrereleaseID(b, a)
    ensures ComparePrereleaseID(a, b) <= 0 && ComparePrereleaseID(b, c) <= 0 ==>
              ComparePrereleaseID(a, c) <= 0 &&
              (ComparePrereleaseID(a, c) == 0 ==> ComparePrereleaseID(a, b) == 0 && ComparePrereleaseID(b, c) == 0)
  {
    CompareSign(a, b);
    CompareSign(b, c);
    if Compare(a, b) <= 0 && Compare(b, c) <= 0 {
      CompareTrans(a, b, c);
      if Compare(a, c) == 0 { CompareSign(a, b); }
    }
  }

  lemma {:induction false} PreLaws(a: seq<string>, b: seq<string>, c: seq<string>)
    ensures ComparePre(a, b) == -ComparePre(b, a)
    ensures ComparePre(a, b) <= 0 && ComparePre(b, c) <= 0 ==>
              ComparePre(a, c) <= 0 &&
              (ComparePre(a, c) == 0 ==> ComparePre(a, b) == 0 && ComparePre(b, c) == 0)
  {
    if a != [] && b != [] {
      IDLaws(a[0], b[0], a[0]);
      if c != [] {
        IDLaws(a[0], b[0], c[0]);
        IDLaws(b[0], c[0], a[0]);
        IDLaws(c[0], a[0], b[0]);
        PreLaws(a[1..], b[1..], c[1..]);
      } else {
        PreLaws(a[1..], b[1..], []);
      }
    }
  }

  lemma ParsedLaws(a: Semver, b: Semver, c: Semver)
    requires |a.nums| == |b.nums| == |c.nums| == 3
    ensures CompareParsed(a, b) == -CompareParsed(b, a)
    ensures CompareParsed(a, b) <= 0 && CompareParsed(b, c) <= 0 ==> CompareParsed(a, c) <= 0
  {
    NumsLaws(a.nums, b.nums, c.nums);
    NumsLaws(b.nums, a.nums, c.nums);
    PreLaws(a.pre, b.pre, c.pre);
  }

  /** Any two strings compare, and swapping the arguments flips the sign. */
  lemma CompareAntisymmetric(a: string, b: string)
    ensures SemverCompare(a, b) == -SemverCompare(b, a)
  {
    CompareSign(TrimSpace(a), TrimSpace(b));
    ParsedLaws(ParseSemver(a), ParseSemver(b), ParseSemver(a));
  }

  lemma CompareReflexive(a: string)
    ensures SemverCompare(a, a) == 0
  {
    CompareAntisymmetric(a, a);
  }

  lemma CompareTransitive(a: string, b: string, c: string)
    requires SemverCompare(a, b) <= 0 && SemverCompare(b, c) <= 0
    ensures SemverCompare(a, c) <= 0
    ensures SemverCompare(a, c) == 0 ==> SemverCompare(a, b) == 0 && SemverCompare(b, c) == 0
  {
    CompareTransitiveWeak(a, b, c);
    CompareAntisymmetric(a, c);
    if SemverCompare(a, c) == 0 {
      CompareTransitiveWeak(b, c, a);
      CompareTransitiveWeak(c, a, b);
      CompareAntisymmetric(a, b);
      CompareAntisymmetric(b, c);
    }
  }

  lemma CompareTransitiveWeak(a: string, b: string, c: string)
    requires SemverCompare(a, b) <= 0 && SemverCompare(b, c) <= 0
    ensures SemverCompare(a, c) <= 0
  {
    var va, vb, vc := ParseSemver(a), ParseSemver(b), ParseSemver(c);
    if !va.ok && !vb.ok && !vc.ok {
      CompareTrans(TrimSpace(a), TrimSpace(b), TrimSpace(c));
    } else {
      ParsedLaws(va, vb, vc);
    }
  }
}

/** Section 11 of Semantic Versioning 2.0.0 on its own abstract syntax, and exactly which
    valid versions semver.go orders the way the standard does. */
module SemverSpec {
  import opened GoStrings
  import opened Semver

  /** A valid version as the standard's grammar produces it; components are numerals. */
  datatype Version = Version(core: seq<string>, pre: seq<string>, build: seq<string>)

  predicate Numeral(s: string) {
    s != [] && AllDigits(s) && (|s| > 1 ==> s[0] != '0')
  }

  predicate IdentChar(c: char) {
    IsDigit(c) || 'a' <= c <= 'z' || 'A' <= c <= 'Z' || c == '-'
  }

  predicate Identifier(s: string) {
    s != [] && forall i :: 0 <= i < |s| ==> IdentChar(s[i])
  }

  predicate PreIdentifier(s: string) {
    Identifier(s) && (AllDigits(s) ==> Numeral(s))
  }

  predicate Valid(v: Version) {
    && |v.core| == 3
    && (forall k :: 0 <= k < 3 ==> Numeral(v.core[k]))
    && (forall k :: 0 <= k < |v.pre| ==> PreIdentifier(v.pre[k]))
    && (forall k :: 0 <= k < |v.build| ==> Identifier(v.build[k]))
  }

  function Render(v: Version): string {
    RenderCorePre(v) + (if v.build == [] then "" else "+" + Join(v.build, '.'))
  }

  function RenderCorePre(v: Version): string {
    Join(v.core, '.') + (if v.pre == [] then "" else "-" + Join(v.pre, '.'))
  }

  // ---------------------------------------------------------------- precedence (section 11)

  /** Which of two comes first, or 0: by a strict order and its converse. */
  function Order(before: bool, after: bool): int {
    if before then -1 else if after then 1 else 0
  }

  ghost function SpecCompareId(a: string, b: string): int {
    if AllDigits(a) && AllDigits(b) then Order(Value(a) < Value(b), Value(b) < Value(a))
    else if AllDigits(a) || AllDigits(b) then Order(AllDigits(a), AllDigits(b))
    else Order(TextBefore(a, b), TextBefore(b, a))
  }

  ghost function SpecComparePre(a: seq<string>, b: seq<string>): int {
    if a == [] || b == [] then Order(a == [] && b != [], a != [] && b == [])
    else if SpecCompareId(a[0], b[0]) != 0 then SpecCompareId(a[0], b[0])
    else SpecComparePre(a[1..], b[1..])
  }

  /** The first of major, minor and patch that differs. */
  function SpecCompareCore(a: seq<int>, b: seq<int>): int
    requires |a| == |b| == 3
  {
    if a[0] != b[0] then Order(a[0] < b[0], a[0] > b[0])
    else if a[1] != b[1] then Order(a[1] < b[1], a[1] > b[1])
    else Order(a[2] < b[2], a[2] > b[2])
  }

  lemma CoreOrder(a: seq<int>, b: seq<int>)
    requires |a| == |b| == 3
    ensures CompareNums(a, b) == SpecCompareCore(a, b)
  {
    assert a[1..][1..] == a[2..] && b[1..][1..] == b[2..];
    assert CompareNums(a[2..], b[2..]) == if a[2] != b[2] then CompareInt(a[2], b[2]) else 0;
    assert CompareNums(a[1..], b[1..]) == if a[1] != b[1] then CompareInt(a[1], b[1]) else CompareNums(a[2..], b[2..]);
  }

  lemma TextOrder(a: string, b: string)
    ensures Compare(a, b) == Order(TextBefore(a, b), TextBefore(b, a))
  {
    CompareIsLexicographic(a, b);
    CompareIsLexicographic(b, a);
    CompareSign(a, b);
    hide TextBefore;
  }

  function CoreValues(core: seq<string>): (r: seq<int>)
    requires forall k :: 0 <= k < |core| ==> AllDigits(core[k])
    ensures |r| == |core|
    ensures forall k :: 0 <= k < |core| ==> r[k] == Value(core[k])
  {
    if core == [] then [] else [Value(core[0])] + CoreValues(core[1..])
  }

  ghost function Precedence(v: Version, w: Version): int
    requires Valid(v) && Valid(w)
  {
    var c := SpecCompareCore(CoreValues(v.core), CoreValues(w.core));
    if c != 0 then c
    else if v.pre == [] || w.pre == [] then Order(v.pre != [] && w.pre == [], v.pre == [] && w.pre != [])
    else SpecComparePre(v.pre, w.pre)
  }

  // ---------------------------------------------------------------- where the code follows it

  /** A hyphen and then only digits, small enough that strconv reads it as a negative number. */
  predicate ReadsNegative(id: string) {
    |id| > 1 && id[0] == '-' && AllDigits(id[1..]) && Value(id[1..]) <= MAX_INT64 + 1
  }

  predicate FaithfulId(id: string) {
    (AllDigits(id) ==> Value(id) <= MAX_INT64) && !ReadsNegative(id)
  }

  predicate FaithfulCore(v: Version)
    requires Valid(v)
  {
    forall k :: 0 <= k < 3 ==> Value(v.core[k]) <= MAX_INT64
  }

  /** Every number fits int64 and no identifier is a hyphen followed by a small number. */
  predicate Faithful(v: Version)
    requires Valid(v)
  {
    FaithfulCore(v) && forall k :: 0 <= k < |v.pre| ==> FaithfulId(v.pre[k])
  }

  lemma ParseIntOfId(id: string)
    requires Identifier(id)
    ensures ParseInt(id) ==
            if AllDigits(id) then (if Value(id) <= MAX_INT64 then Some(Value(id)) else None)
            else if ReadsNegative(id) then Some(-(Value(id[1..]) as int)) else None
  {
    assert IdentChar(id[0]);
    assert !AllDigits(id) || id[0] != '-';
  }

  lemma IdAgrees(a: string, b: string)
    requires PreIdentifier(a) && PreIdentifier(b) && FaithfulId(a) && FaithfulId(b)
    ensures ComparePrereleaseID(a, b) == SpecCompareId(a, b)
  {
    TextOrder(a, b);
    hide TextBefore;
    ParseIntOfId(a);
    ParseIntOfId(b);
  }

  lemma {:induction false} PreAgrees(a: seq<string>, b: seq<string>)
    requires forall k :: 0 <= k < |a| ==> PreIdentifier(a[k]) && FaithfulId(a[k])
    requires forall k :: 0 <= k < |b| ==> PreIdentifier(b[k]) && FaithfulId(b[k])
    ensures ComparePre(a, b) == SpecComparePre(a, b)
  {
    if a != [] && b != [] {
      IdAgrees(a[0], b[0]);
      PreAgrees(a[1..], b[1..]);
    }
  }

  // ---------------------------------------------------------------- parsing what the grammar renders

  lemma NumeralHasNo(s: string, c: char)
    requires Numeral(s) && !IsDigit(c)
    ensures c !in s
  {
  }

  lemma IdentifierHasNo(s: string, c: char)
    requires Identifier(s) && !IdentChar(c)
    ensures c !in s
  {
  }

  lemma JoinHasNo(parts: seq<string>, sep: char, c: char)
    requires c != sep
    requires forall k :: 0 <= k < |parts| ==> c !in parts[k]
    ensures c !in Join(parts, sep)
  {
    if c in Join(parts, sep) { JoinMembers(parts, sep, c); }
  }

  lemma {:induction false} JoinEnds(parts: seq<string>, sep: char)
    requires parts != [] && forall k :: 0 <= k < |parts| ==> parts[k] != []
    ensures Join(parts, sep) != []
    ensures Join(parts, sep)[0] == parts[0][0]
    ensures Last(Join(parts, sep)) == Last(parts[|parts| - 1])
  {
    if |parts| > 1 { JoinEnds(parts[1..], sep); }
  }

  function Last(s: string): char
    requires s != []
  {
    s[|s| - 1]
  }

  lemma RenderCorePreShape(v: Version)
    requires Valid(v)
    ensures '+' !in RenderCorePre(v)
    ensures '-' !in Join(v.core, '.')
    ensures RenderCorePre(v) != [] && IsDigit(RenderCorePre(v)[0]) && !IsSpace(Last(RenderCorePre(v)))
  {
    forall k | 0 <= k < 3 ensures '+' !in v.core[k] && '-' !in v.core[k] {
      NumeralHasNo(v.core[k], '+');
      NumeralHasNo(v.core[k], '-');
    }
    JoinHasNo(v.core, '.', '+');
    JoinHasNo(v.core, '.', '-');
    JoinEnds(v.core, '.');
    if v.pre != [] {
      forall k | 0 <= k < |v.pre| ensures '+' !in v.pre[k] {
        IdentifierHasNo(v.pre[k], '+');
      }
      JoinHasNo(v.pre, '.', '+');
      JoinEnds(v.pre, '.');
      assert IdentChar(Last(v.pre[|v.pre| - 1]));
      assert Last(RenderCorePre(v)) == Last(Join(v.pre, '.'));
    } else {
      assert RenderCorePre(v) == Join(v.core, '.');
      assert IsDigit(Last(v.core[2]));
    }
  }

  lemma RenderTrims(v: Version)
    requires Valid(v)
    ensures CutBuild(TrimPrefix(TrimSpace(Render(v)), "v")) == RenderCorePre(v)
  {
    RenderCorePreShape(v);
    var s, r := RenderCorePre(v), Render(v);
    if v.build == [] {
      assert r == s;
      TrimSpaceFixed(r);
      assert IndexByte(r, '+') < 0;
    } else {
      JoinEnds(v.build, '.');
      assert IdentChar(Last(v.build[|v.build| - 1]));
      assert Last(r) == Last(Join(v.build, '.'));
      TrimSpaceFixed(r);
      assert r[..|s|] == s && r[|s|] == '+';
      IndexByteIs(r, '+', |s|);
    }
    assert r[0] == s[0];
    assert !("v" <= r);
  }

  lemma CoreParsesAt(s: string)
    requires Numeral(s)
    ensures '.' !in s && AllDigits(s)
    ensures CoreNumber(s) == if Value(s) <= MAX_INT64 then Some(Value(s)) else None
  {
    NumeralHasNo(s, '.');
    assert IsDigit(s[0]);
    ParseIntOfId(s);
  }

  lemma CoreParses(v: Version)
    requires Valid(v)
    ensures Split(Join(v.core, '.'), '.') == v.core
    ensures CoreNumbers(v.core) == if FaithfulCore(v) then Some(CoreValues(v.core)) else None
  {
    hide CoreNumber, Value, Join, Split, AllDigits;
    forall k | 0 <= k < 3
      ensures '.' !in v.core[k]
      ensures CoreNumber(v.core[k]) == if Value(v.core[k]) <= MAX_INT64 then Some(Value(v.core[k])) else None
    {
      CoreParsesAt(v.core[k]);
    }
    SplitJoin(v.core, '.');
    if FaithfulCore(v) {
      assert CoreNumbers(v.core).value == CoreValues(v.core);
    }
  }

  function Prepared(text: string): string {
    CutBuild(TrimPrefix(TrimSpace(text), "v"))
  }

  lemma ParsePlain(text: string, core: string)
    requires Prepared(text) == core && '-' !in core
    ensures ParseSemver(text) == Assemble(Split(core, '.'), [])
  {
  }

  lemma ParseDashed(text: string, core: string, pre: string)
    requires Prepared(text) == core + ['-'] + pre && '-' !in core
    ensures ParseSemver(text) == Assemble(Split(core, '.'), Split(pre, '.'))
  {
    IndexByteCut(core, '-', pre);
  }

  lemma SplitPre(pre: seq<string>)
    requires pre != [] && forall k :: 0 <= k < |pre| ==> PreIdentifier(pre[k])
    ensures Split(Join(pre, '.'), '.') == pre
  {
    forall k | 0 <= k < |pre| ensures '.' !in pre[k] {
      IdentifierHasNo(pre[k], '.');
    }
    SplitJoin(pre, '.');
  }

  lemma ParseAssembles(v: Version)
    requires Valid(v)
    ensures ParseSemver(Render(v)) == Assemble(v.core, v.pre)
  {
    hide ParseSemver, Render, Split, Join, Assemble, CutBuild, TrimSpace, TrimPrefix, IndexByte, CoreNumbers;
    RenderTrims(v);
    CoreParses(v);
    RenderCorePreShape(v);
    if v.pre == [] {
      ParsePlain(Render(v), Join(v.core, '.'));
    } else {
      SplitPre(v.pre);
      ParseDashed(Render(v), Join(v.core, '.'), Join(v.pre, '.'));
    }
  }

  /** Parsing a rendered version gives back its numbers and its prerelease identifiers,
      unless a core number overflows int64, when the version does not parse at all. */
  lemma ParseRender(v: Version)
    requires Valid(v)
    ensures ParseSemver(Render(v)) ==
            if FaithfulCore(v) then Semver(CoreValues(v.core), v.pre, true) else NOT_SEMVER
  {
    ParseAssembles(v);
    assert "" !in v.pre;
    hide ParseSemver, Render;
    CoreParses(v);
  }

  // ---------------------------------------------------------------- the two directions

  /** On faithful versions the comparator is the standard's precedence. */
  lemma CompareIsPrecedence(v: Version, w: Version)
    requires Valid(v) && Valid(w) && Faithful(v) && Faithful(w)
    ensures SemverCompare(Render(v), Render(w)) == Precedence(v, w)
  {
    hide ParseSemver, Render, ComparePre, SpecComparePre, CompareNums, SpecCompareCore;
    ParseRender(v);
    ParseRender(w);
    CoreOrder(CoreValues(v.core), CoreValues(w.core));
    PreAgrees(v.pre, w.pre);
  }

  lemma {:induction false} ComparePreAfter(p: seq<string>, x: string, rest: seq<string>, y: string)
    ensures ComparePrereleaseID(x, y) != 0 ==>
              ComparePre(p + [x] + rest, p + [y]) == ComparePrereleaseID(x, y)
    ensures SpecCompareId(x, y) != 0 ==>
              SpecComparePre(p + [x] + rest, p + [y]) == SpecCompareId(x, y)
  {
    var a, b := p + [x] + rest, p + [y];
    if p != [] {
      assert a[1..] == p[1..] + [x] + rest && b[1..] == p[1..] + [y];
      ComparePreAfter(p[1..], x, rest, y);
    }
  }

  /** An identifier the standard ranks on the other side of an unfaithful one. */
  function Contrary(id: string): (y: string)
    requires PreIdentifier(id) && !FaithfulId(id)
    ensures PreIdentifier(y) && FaithfulId(y)
    ensures ComparePrereleaseID(id, y) != SpecCompareId(id, y)
    ensures ComparePrereleaseID(id, y) != 0 && SpecCompareId(id, y) != 0
  {
    ParseIntOfId(id);
    assert Value("1") == 1 by { assert "1"[..0] == []; }
    assert IsDigit(id[0]) || id[0] == '-';
    assert !AllDigits("-a") by { assert !IsDigit("-a"[0]); }
    assert !AllDigits("-a"[1..]) by { assert !IsDigit("-a"[1..][0]); }
    ParseIntOfId("-a");
    if AllDigits(id) then "-a" else "1"
  }

  function Zero(): (w: Version)
    ensures Valid(w) && Faithful(w) && w.pre == [] && CoreValues(w.core) == [0, 0, 0]
  {
    var w := Version(["0", "0", "0"], [], []);
    assert Value("0") == 0 by { assert "0"[..0] == []; }
    assert CoreValues(w.core) == [0, 0, 0];
    w
  }

  lemma OverflowIsMisplaced(v: Version) returns (w: Version)
    requires Valid(v) && !FaithfulCore(v)
    ensures Valid(w) && Faithful(w)
    ensures SemverCompare(Render(v), Render(w)) != Precedence(v, w)
  {
    hide ParseSemver, Render;
    w := Zero();
    ParseRender(v);
    ParseRender(w);
    var k :| 0 <= k < 3 && Value(v.core[k]) > MAX_INT64;
    PositiveCore(CoreValues(v.core), k);
  }

  lemma SameCore(v: Version, w: Version)
    requires Valid(v) && Valid(w) && FaithfulCore(v) && w.core == v.core && v.pre != [] && w.pre != []
    ensures SemverCompare(Render(v), Render(w)) == ComparePre(v.pre, w.pre)
    ensures Precedence(v, w) == SpecComparePre(v.pre, w.pre)
  {
    hide ParseSemver, Render;
    ParseRender(v);
    ParseRender(w);
    NumsLaws(CoreValues(v.core), CoreValues(v.core), CoreValues(v.core));
  }

  function Replaced(v: Version, i: nat): (w: Version)
    requires Valid(v) && FaithfulCore(v)
    requires i < |v.pre| && !FaithfulId(v.pre[i]) && forall j :: 0 <= j < i ==> FaithfulId(v.pre[j])
    ensures Valid(w) && Faithful(w)
    ensures w.core == v.core && w.pre == v.pre[..i] + [Contrary(v.pre[i])]
  {
    Version(v.core, v.pre[..i] + [Contrary(v.pre[i])], [])
  }

  lemma ReplacedIsMisplaced(v: Version, i: nat)
    requires Valid(v) && FaithfulCore(v)
    requires i < |v.pre| && !FaithfulId(v.pre[i]) && forall j :: 0 <= j < i ==> FaithfulId(v.pre[j])
    ensures SemverCompare(Render(v), Render(Replaced(v, i))) != Precedence(v, Replaced(v, i))
  {
    var x, y := v.pre[i], Contrary(v.pre[i]);
    SameCore(v, Replaced(v, i));
    hide *;
    Glue2(v.pre, i);
    ComparePreAfter(v.pre[..i], x, v.pre[i + 1..], y);
  }

  lemma Glue2(s: seq<string>, i: nat)
    requires i < |s|
    ensures s == s[..i] + [s[i]] + s[i + 1..]
  {
  }

  /** Faithfulness is not a convenience: a valid version outside it is misplaced against a
      version inside it. */
  lemma UnfaithfulIsMisplaced(v: Version) returns (w: Version)
    requires Valid(v) && !Faithful(v)
    ensures Valid(w) && Faithful(w)
    ensures SemverCompare(Render(v), Render(w)) != Precedence(v, w)
  {
    if !FaithfulCore(v) {
      w := OverflowIsMisplaced(v);
    } else {
      var i := FirstUnfaithful(v.pre);
      w := Replaced(v, i);
      ReplacedIsMisplaced(v, i);
    }
  }

  lemma PositiveCore(n: seq<int>, k: nat)
    requires |n| == 3 && k < 3 && n[k] > 0
    requires forall j :: 0 <= j < 3 ==> n[j] >= 0
    ensures CompareNums(n, [0, 0, 0]) == 1
  {
    assert [0, 0, 0][1..] == [0, 0] && [0, 0][1..] == [0];
    assert n[1..][1..] == n[2..];
    assert CompareNums(n[2..], [0]) == if n[2] > 0 then 1 else 0;
  }

  lemma {:induction false} FirstUnfaithful(pre: seq<string>) returns (i: nat)
    requires exists k :: 0 <= k < |pre| && !FaithfulId(pre[k])
    ensures i < |pre| && !FaithfulId(pre[i])
    ensures forall j :: 0 <= j < i ==> FaithfulId(pre[j])
  {
    if !FaithfulId(pre[0]) {
      i := 0;
    } else {
      i := FirstUnfaithful(pre[1..]);
      i := i + 1;
    }
  }

  /** Exactly the faithful versions are ordered as the standard orders them against every
      faithful version. */
  lemma FaithfulIsExact(v: Version)
    requires Valid(v)
    ensures Faithful(v) <==>
            forall w :: Valid(w) && Faithful(w) ==> SemverCompare(Render(v), Render(w)) == Precedence(v, w)
  {
    if Faithful(v) {
      forall w | Valid(w) && Faithful(w)
        ensures SemverCompare(Render(v), Render(w)) == Precedence(v, w)
      {
        CompareIsPrecedence(v, w);
      }
    } else {
      var w := UnfaithfulIsMisplaced(v);
    }
  }

  // ---------------------------------------------------------------- releases and prereleases

  /** A valid version counts as a prerelease if and only if it has prerelease identifiers; one whose
      core overflows, like any string that does not parse, counts as one too. */
  lemma PrereleaseExactly(v: Version)
    requires Valid(v)
    ensures SemverIsPrerelease(Render(v)) <==> v.pre != [] || !FaithfulCore(v)
  {
    hide ParseSemver, Render;
    ParseRender(v);
  }

  lemma UnparsedIsPrerelease(text: string)
    ensures !ParseSemver(text).ok ==> SemverIsPrerelease(text)
  {
    hide ParseSemver;
  }

  // ---------------------------------------------------------------- exactly what parses

  /** What the parser takes for a prerelease identifier: any text between dots, not empty. */
  predicate LooseId(id: string) {
    id != "" && '.' !in id && '+' !in id
  }

  /** Three numbers that fit, without leading zeros, and such identifiers. */
  predicate Loose(core: seq<string>, pre: seq<string>) {
    && |core| == 3 && (forall k :: 0 <= k < 3 ==> Numeral(core[k]) && Value(core[k]) <= MAX_INT64)
    && (forall k :: 0 <= k < |pre| ==> LooseId(pre[k]))
  }

  /** What such a text is read as. */
  function Read(core: seq<string>, pre: seq<string>): Semver
    requires Loose(core, pre)
  {
    Semver(CoreValues(core), pre, true)
  }

  function Body(core: seq<string>, pre: seq<string>): string {
    Join(core, '.') + if pre == [] then "" else ['-'] + Join(pre, '.')
  }

  /** text, trimmed, is an optional v, the body, and nothing or a plus sign and anything. */
  ghost predicate Spells(text: string, core: seq<string>, pre: seq<string>) {
    exists v, build :: SpelledBy(text, core, pre, v, build)
  }

  predicate SpelledBy(text: string, core: seq<string>, pre: seq<string>, v: string, build: string) {
    && (v == "" || v == "v") && (build == "" || build[0] == '+')
    && TrimSpace(text) == v + (Body(core, pre) + build)
  }

  lemma BodyPlain(core: seq<string>, pre: seq<string>)
    requires Loose(core, pre)
    ensures var b := Body(core, pre); b != "" && IsDigit(b[0]) && '+' !in b
    ensures '-' !in Join(core, '.') && Split(Join(core, '.'), '.') == core
    ensures pre != [] ==> Split(Join(pre, '.'), '.') == pre
  {
    forall k | 0 <= k < 3 ensures '+' !in core[k] && '-' !in core[k] && '.' !in core[k] && core[k] != [] {
      NumeralHasNo(core[k], '+');
      NumeralHasNo(core[k], '-');
      NumeralHasNo(core[k], '.');
    }
    JoinHasNo(core, '.', '+');
    JoinHasNo(core, '.', '-');
    JoinEnds(core, '.');
    SplitJoin(core, '.');
    hide Join, Split;
    if pre != [] {
      JoinHasNo(pre, '.', '+');
      SplitJoin(pre, '.');
    }
  }

  lemma DropsV(v: string, x: string)
    requires (v == "" || v == "v") && x != "" && x[0] != 'v'
    ensures TrimPrefix(v + x, "v") == x
  {
    if v == "v" { assert (v + x)[1..] == x; } else { assert v + x == x; }
  }

  lemma CutsPlus(b: string, build: string)
    requires (build == "" || build[0] == '+') && '+' !in b
    ensures CutBuild(b + build) == b
  {
    if build == "" {
      assert b + build == b;
    } else {
      IndexByteCut(b, '+', build[1..]);
      assert b + build == b + ['+'] + build[1..];
    }
  }

  lemma CutsTo(text: string, v: string, b: string, build: string)
    requires TrimSpace(text) == v + (b + build) && (v == "" || v == "v") && (build == "" || build[0] == '+')
    requires b != "" && IsDigit(b[0]) && '+' !in b
    ensures Prepared(text) == b
  {
    hide TrimSpace, TrimPrefix, CutBuild;
    assert (b + build)[0] == b[0] != 'v';
    DropsV(v, b + build);
    CutsPlus(b, build);
  }

  lemma NumbersFit(core: seq<string>, pre: seq<string>)
    requires Loose(core, pre)
    ensures CoreNumbers(core) == Some(CoreValues(core)) && "" !in pre
  {
    hide CoreNumber, Value;
    forall k | 0 <= k < 3 ensures CoreNumber(core[k]) == Some(Value(core[k])) {
      CoreParsesAt(core[k]);
    }
    assert CoreNumbers(core).value == CoreValues(core);
  }

  lemma LooseParses(text: string, core: seq<string>, pre: seq<string>, v: string, build: string)
    requires Loose(core, pre) && SpelledBy(text, core, pre, v, build)
    ensures ParseSemver(text) == Read(core, pre)
  {
    hide ParseSemver, Prepared, Split, Join, CoreNumbers, TrimSpace;
    BodyPlain(core, pre);
    CutsTo(text, v, Body(core, pre), build);
    NumbersFit(core, pre);
    if pre == [] {
      assert Body(core, pre) == Join(core, '.');
      ParsePlain(text, Join(core, '.'));
    } else {
      assert Body(core, pre) == Join(core, '.') + ['-'] + Join(pre, '.');
      ParseDashed(text, Join(core, '.'), Join(pre, '.'));
    }
  }

  /** A core number is a numeral that fits, once it holds no sign. */
  lemma CoreNumberIs(p: string)
    requires CoreNumber(p).Some? && '-' !in p && '+' !in p
    ensures Numeral(p) && Value(p) <= MAX_INT64
  {
    assert p != "" ==> p[0] in p;
  }

  lemma PreparedFrom(text: string) returns (v: string, build: string)
    ensures (v == "" || v == "v") && (build == "" || build[0] == '+')
    ensures TrimSpace(text) == v + (Prepared(text) + build) && '+' !in Prepared(text)
  {
    var s := TrimSpace(text);
    v := if "v" <= s then "v" else "";
    var rest := TrimPrefix(s, "v");
    assert s == v + rest;
    build := BuildOf(rest);
    hide TrimSpace, TrimPrefix, CutBuild;
  }

  lemma BuildOf(s: string) returns (build: string)
    ensures s == CutBuild(s) + build && '+' !in CutBuild(s) && (build == "" || build[0] == '+')
  {
    var i := IndexByte(s, '+');
    hide IndexByte;
    build := if i >= 0 then s[i..] else "";
  }

  lemma AssembledIsLoose(parts: seq<string>, pre: seq<string>)
    requires Assemble(parts, pre).ok
    requires forall k :: 0 <= k < |parts| ==> '-' !in parts[k] && '+' !in parts[k]
    requires forall k :: 0 <= k < |pre| ==> '.' !in pre[k] && '+' !in pre[k]
    ensures Loose(parts, pre)
  {
    hide CoreNumber, Value;
    forall k | 0 <= k < 3 ensures Numeral(parts[k]) && Value(parts[k]) <= MAX_INT64 {
      CoreNumberIs(parts[k]);
    }
  }

  lemma {:induction false} SplitHasNo(s: string, sep: char, c: char)
    requires c !in s
    ensures forall k :: 0 <= k < |Split(s, sep)| ==> c !in Split(s, sep)[k]
    decreases |s|
  {
    hide Split, IndexByte;
    SplitStep(s, sep);
    var i := IndexByte(s, sep);
    if i >= 0 {
      SplitHasNo(s[i + 1..], sep, c);
      NoneCons(s[..i], Split(s[i + 1..], sep), c);
    }
  }

  lemma ParseIsAssemble(text: string)
    ensures var b := Prepared(text);
            var i := IndexByte(b, '-');
            ParseSemver(text) ==
            if i >= 0 then Assemble(Split(b[..i], '.'), Split(b[i + 1..], '.')) else Assemble(Split(b, '.'), [])
  {
    hide TrimSpace, TrimPrefix, CutBuild, Split, IndexByte, Assemble;
  }

  lemma PlainIsLoose(b: string)
    requires '+' !in b && '-' !in b && Assemble(Split(b, '.'), []).ok
    ensures Loose(Split(b, '.'), []) && Body(Split(b, '.'), []) == b
  {
    hide Split, Assemble, Join, Loose;
    SplitHasNo(b, '.', '-');
    SplitHasNo(b, '.', '+');
    JoinSplit(b, '.');
    AssembledIsLoose(Split(b, '.'), []);
    assert b + "" == b;
  }

  lemma DashedIsLoose(b: string, i: nat)
    requires '+' !in b && i < |b| && b[i] == '-' && '-' !in b[..i]
    requires Assemble(Split(b[..i], '.'), Split(b[i + 1..], '.')).ok
    ensures var core, pre := Split(b[..i], '.'), Split(b[i + 1..], '.'); Loose(core, pre) && Body(core, pre) == b
  {
    hide Split, Assemble, Join, Loose;
    var head, rest := b[..i], b[i + 1..];
    SplitHasNo(head, '.', '-');
    SplitHasNo(head, '.', '+');
    SplitHasNo(rest, '.', '+');
    JoinSplit(head, '.');
    JoinSplit(rest, '.');
    AssembledIsLoose(Split(head, '.'), Split(rest, '.'));
    Glue(b, i);
    assert b == head + (['-'] + rest);
  }

  lemma ParsedIsLoose(text: string) returns (core: seq<string>, pre: seq<string>)
    requires ParseSemver(text).ok
    ensures Loose(core, pre) && Spells(text, core, pre)
  {
    hide *;
    var b := Prepared(text);
    var v, build := PreparedFrom(text);
    ParseIsAssemble(text);
    var i := IndexByte(b, '-');
    if i >= 0 {
      core, pre := Split(b[..i], '.'), Split(b[i + 1..], '.');
      DashedIsLoose(b, i);
    } else {
      core, pre := Split(b, '.'), [];
      PlainIsLoose(b);
    }
    SpellsIt(text, core, pre, v, build);
  }

  lemma SpellsIt(text: string, core: seq<string>, pre: seq<string>, v: string, build: string)
    requires (v == "" || v == "v") && (build == "" || build[0] == '+')
    requires TrimSpace(text) == v + (Body(core, pre) + build)
    ensures Spells(text, core, pre)
  {
    hide TrimSpace, Body;
    assert SpelledBy(text, core, pre, v, build);
  }

  /** Exactly what the parser accepts, on any text: between spaces, an optional v, three numbers
      that fit with no leading zero, prerelease texts between dots if there is a hyphen, and
      anything after a plus sign. What it returns is those numbers and texts. */
  lemma ParsesExactly(text: string)
    ensures ParseSemver(text).ok <==> exists core, pre :: Loose(core, pre) && Spells(text, core, pre)
    ensures forall core, pre :: Loose(core, pre) && Spells(text, core, pre) ==>
              ParseSemver(text) == Read(core, pre)
    ensures !ParseSemver(text).ok ==> ParseSemver(text) == NOT_SEMVER
  {
    hide ParseSemver, SpelledBy, Value, Loose, CoreValues;
    forall core, pre | Loose(core, pre) && Spells(text, core, pre)
      ensures ParseSemver(text).ok && ParseSemver(text) == Read(core, pre) {
      var v, build :| SpelledBy(text, core, pre, v, build);
      LooseParses(text, core, pre, v, build);
    }
    if ParseSemver(text).ok {
      var core, pre := ParsedIsLoose(text);
    } else {
      NoZeroValue(text);
    }
  }

  lemma NoZeroValue(text: string)
    requires !ParseSemver(text).ok
    ensures ParseSemver(text) == NOT_SEMVER
  {
    hide Split, TrimSpace, TrimPrefix, CutBuild, IndexByte, CoreNumbers;
  }
}
