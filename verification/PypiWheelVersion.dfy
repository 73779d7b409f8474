/** pypiwheelversion.go: the wheel check's own, smaller version parser, proved never to
    contradict the advisory matcher's. */
module PypiWheelVersion {
  import opened GoStrings
  import opened Pep440Grammar
  import opened Pep440
  import opened Pep440Spec

  /** int arithmetic of a 64-bit platform. */
  function Wrap64(n: int): int {
    (n + 0x8000_0000_0000_0000) % 0x1_0000_0000_0000_0000 - 0x8000_0000_0000_0000
  }

  /** A digit run accumulated without an overflow check. */
  function SegmentNumber(d: string): int
    requires AllDigits(d)
  {
    if d == "" then 0 else Wrap64(SegmentNumber(d[..|d| - 1]) * 10 + DigitValue(d[|d| - 1]))
  }

  /** The leading "N(.N)*" run; a dot with no digits after it ends the run. */
  function Segments(v: string): seq<int>
    decreases |v|
  {
    var (d, r) := TakeDigits(v);
    if d == "" then []
    else
      assert |r| < |v|;
      [SegmentNumber(d)] + (if r != "" && r[0] == '.' then Segments(r[1..]) else [])
  }

  function TrimZeroTail(out: seq<int>): (r: seq<int>)
    ensures r <= out && (out != [] ==> r != []) && (|r| > 1 ==> r[|r| - 1] != 0)
    ensures forall k :: |r| <= k < |out| ==> out[k] == 0
  {
    if |out| > 1 && out[|out| - 1] == 0 then TrimZeroTail(out[..|out| - 1]) else out
  }

  function CutEpoch(v: string): string {
    var i := IndexByte(v, '!');
    if i >= 0 then v[i + 1..] else v
  }

  function CutLocal(v: string): string {
    var i := IndexByte(v, '+');
    if i >= 0 then v[..i] else v
  }

  function CutV(v: string): string {
    if v != "" && v[0] == 'v' then v[1..] else v
  }

  function ReleaseSegment(version: string): Option<seq<int>> {
    var out := Segments(CutV(CutLocal(CutEpoch(Fold(version)))));
    if out == [] then None else Some(TrimZeroTail(out))
  }

  predicate NameDifferentReleases(served: string, declared: string) {
    var a, b := ReleaseSegment(served), ReleaseSegment(declared);
    a.Some? && b.Some? && a.value != b.value
  }

  // ---------------------------------------------------------------- the loops of the source

  method ScanSegments(text: string) returns (out: seq<int>)
    ensures out == Segments(text)
  {
    out := [];
    var v := text;
    while true
      invariant out + Segments(v) == Segments(text)
      decreases |v|
    {
      var (d, r) := TakeDigits(v);
      if d == "" {
        break;
      }
      var n := 0;
      for j := 0 to |d|
        invariant n == SegmentNumber(d[..j])
      {
        assert d[..j + 1][..j] == d[..j];
        n := Wrap64(n * 10 + DigitValue(d[j]));
      }
      assert d[..|d|] == d;
      assert out + ([n] + Segments(if r != "" && r[0] == '.' then r[1..] else "")) ==
             (out + [n]) + Segments(if r != "" && r[0] == '.' then r[1..] else "");
      out := out + [n];
      if |r| == 0 || r[0] != '.' {
        assert Segments(v) == [n] + [];
        return;
      }
      v := r[1..];
    }
  }

  method TrimLoop(all: seq<int>) returns (out: seq<int>)
    ensures out == TrimZeroTail(all)
  {
    out := all;
    while |out| > 1 && out[|out| - 1] == 0
      invariant TrimZeroTail(out) == TrimZeroTail(all)
    {
      out := out[..|out| - 1];
    }
  }

  method ReleaseSegmentLoop(version: string) returns (r: Option<seq<int>>)
    ensures r == ReleaseSegment(version)
  {
    var out := ScanSegments(CutV(CutLocal(CutEpoch(Fold(version)))));
    if |out| == 0 {
      return None;
    }
    out := TrimLoop(out);
    r := Some(out);
  }

  method NameDifferentReleasesLoop(served: string, declared: string) returns (different: bool)
    ensures different == NameDifferentReleases(served, declared)
  {
    var a := ReleaseSegmentLoop(served);
    var b := ReleaseSegmentLoop(declared);
    hide ReleaseSegment;
    if a.None? || b.None? {
      return false;
    }
    if |a.value| != |b.value| {
      return true;
    }
    for i := 0 to |a.value|
      invariant a.value[..i] == b.value[..i]
    {
      if a.value[i] != b.value[i] {
        return true;
      }
    }
    assert a.value[..|a.value|] == a.value && b.value[..|b.value|] == b.value;
    different := false;
  }

  // ---------------------------------------------------------------- what it reads off a parsed version

  /** Whole turns of the 64-bit wheel are lost. */
  lemma {:induction false} WrapTurns(n: int, k: int)
    ensures Wrap64(n + k * 0x1_0000_0000_0000_0000) == Wrap64(n)
    decreases if k >= 0 then k else -k
  {
    if k > 0 {
      WrapTurns(n, k - 1);
      WrapTurn(n + (k - 1) * 0x1_0000_0000_0000_0000);
    } else if k < 0 {
      WrapTurns(n, k + 1);
      WrapTurn(n + k * 0x1_0000_0000_0000_0000);
    }
  }

  lemma WrapTurn(n: int)
    ensures Wrap64(n + 0x1_0000_0000_0000_0000) == Wrap64(n)
  {
  }

  /** Wrapping after every digit is wrapping once at the end. */
  lemma WrapDigit(n: int, d: int)
    ensures Wrap64(Wrap64(n) * 10 + d) == Wrap64(n * 10 + d)
  {
    var turns := (n + 0x8000_0000_0000_0000) / 0x1_0000_0000_0000_0000;
    assert n == Wrap64(n) + turns * 0x1_0000_0000_0000_0000;
    WrapTurns(Wrap64(n) * 10 + d, turns * 10);
  }

  lemma {:induction false} SegmentNumberWraps(d: string)
    requires AllDigits(d)
    ensures SegmentNumber(d) == Wrap64(Value(d))
  {
    if d != "" {
      SegmentNumberWraps(d[..|d| - 1]);
      WrapDigit(Value(d[..|d| - 1]), DigitValue(d[|d| - 1]));
    }
  }

  /** Each number as a 64-bit int that overflowed in silence holds it. */
  function Wrapped(nums: seq<nat>): (r: seq<int>)
    ensures |r| == |nums| && forall k :: 0 <= k < |r| ==> r[k] == Wrap64(nums[k])
  {
    seq(|nums|, k requires 0 <= k < |nums| => Wrap64(nums[k]))
  }

  lemma {:induction false} SegmentsOf(rel: seq<string>, rest: string)
    requires rel != [] && (forall k :: 0 <= k < |rel| ==> Digits(rel[k])) && EndsRelease(rest)
    ensures Segments(Join(rel, '.') + rest) == Wrapped(RelValues(rel))
  {
    hide Wrap64, SegmentNumber, Value;
    SegmentNumberWraps(rel[0]);
    if |rel| == 1 {
      LastSegment(rel[0], rest);
    } else {
      SegmentsOf(rel[1..], rest);
      SegmentsStep(rel[0], rel[1..], rest);
      assert rel == [rel[0]] + rel[1..];
    }
  }

  lemma LastSegment(d: string, rest: string)
    requires Digits(d) && EndsRelease(rest)
    ensures Segments(Join([d], '.') + rest) == [SegmentNumber(d)]
  {
    TakeDigitsOf(d, rest);
    JoinOne(d, '.');
    hide Join, SegmentNumber;
    if rest != "" && rest[0] == '.' {
      assert Segments(rest[1..]) == [];
    }
  }

  predicate EndsRelease(s: string) {
    !StartsDigit(s) && !(|s| > 1 && s[0] == '.' && IsDigit(s[1]))
  }

  lemma SegmentsStep(d: string, rel: seq<string>, rest: string)
    requires Digits(d) && rel != []
    ensures Segments(Join([d] + rel, '.') + rest) == [SegmentNumber(d)] + Segments(Join(rel, '.') + rest)
  {
    var more := Join(rel, '.') + rest;
    JoinCons(d, rel, '.');
    hide Join;
    assert Join([d] + rel, '.') + rest == d + (['.'] + more);
    assert (['.'] + more)[1..] == more;
    TakeDigitsOf(d, ['.'] + more);
  }

  /** Trimming zeros before wrapping changes nothing: a zero wraps to zero. */
  lemma {:induction false} TrimWrapped(nums: seq<nat>)
    ensures TrimZeroTail(Wrapped(TrimTrailing(nums))) == TrimZeroTail(Wrapped(nums))
  {
    assert Wrap64(0) == 0;
    hide Wrap64, Wrapped, TrimZeroTail;
    if |nums| > 1 && nums[|nums| - 1] == 0 {
      TrimWrapped(nums[..|nums| - 1]);
      WrappedTail(nums);
    }
  }

  lemma WrappedTail(nums: seq<nat>)
    requires |nums| > 1 && nums[|nums| - 1] == 0
    ensures TrimZeroTail(Wrapped(nums)) == TrimZeroTail(Wrapped(nums[..|nums| - 1]))
  {
    assert Wrap64(0) == 0;
    hide Wrap64;
    assert Wrapped(nums)[..|nums| - 1] == Wrapped(nums[..|nums| - 1]);
  }

  /** And a release that fits and is trimmed stays as it is. */
  lemma TrimmedFits(nums: seq<nat>)
    requires forall k :: 0 <= k < |nums| ==> nums[k] <= MAX_INT64
    requires |nums| > 1 ==> nums[|nums| - 1] != 0
    ensures TrimZeroTail(Wrapped(nums)) == nums
  {
    assert forall k :: 0 <= k < |nums| ==> Wrapped(nums)[k] == nums[k];
  }

  /** Characters an epoch or local cut looks for. */
  predicate NoCut(s: string) {
    '!' !in s && '+' !in s
  }

  lemma NoCutCat(a: string, b: string)
    requires NoCut(a) && NoCut(b)
    ensures NoCut(a + b)
  {
  }

  lemma NoCutPre(p: Option<Pre>)
    requires p.Some? ==> PreWF(p.value)
    ensures NoCut(RenderPre(p))
  {
    hide Marker;
    if p.Some? { NoCutMarker(p.value.sep1, p.value.letter, p.value.sep2, p.value.num); }
  }

  lemma NoCutPost(p: Option<Post>)
    requires p.Some? ==> PostWF(p.value)
    ensures NoCut(RenderPost(p))
  {
    hide Marker;
    if p.Some? && p.value.Explicit? { NoCutMarker(p.value.sep1, p.value.letter, p.value.sep2, p.value.num); }
  }

  lemma NoCutDev(d: Option<Dev>)
    requires d.Some? ==> DevWF(d.value)
    ensures NoCut(RenderDev(d))
  {
    hide Marker;
    if d.Some? { NoCutMarker(d.value.sep1, "dev", d.value.sep2, d.value.num); }
  }

  lemma NoCutLocal(local: string)
    requires local == "" || LocalOK(local)
    ensures '!' !in RenderLocal(local)
  {
  }

  lemma NoCutGroups(p: Parts)
    requires PartsWF(p)
    ensures NoCut(RenderPre(p.pre)) && NoCut(RenderPost(p.post)) && NoCut(RenderDev(p.dev)) && NoCut(Join(p.rel, '.'))
    ensures '!' !in RenderLocal(p.local)
  {
    hide NoCut, RenderPre, RenderPost, RenderDev, RenderLocal, Join, PreWF, PostWF, DevWF, LocalOK;
    NoCutPre(p.pre);
    NoCutPost(p.post);
    NoCutDev(p.dev);
    NoCutJoin(p.rel);
    NoCutLocal(p.local);
  }

  lemma NoCutMarker(sep1: string, letter: string, sep2: string, num: string)
    requires OptSep(sep1) && OptSep(sep2) && AllDigits(num) && NoCut(letter)
    ensures NoCut(Marker(sep1, letter, sep2, num))
  {
  }

  lemma {:induction false} NoCutJoin(parts: seq<string>)
    requires forall k :: 0 <= k < |parts| ==> Digits(parts[k])
    ensures NoCut(Join(parts, '.'))
  {
    if |parts| > 1 {
      NoCutJoin(parts[1..]);
      assert NoCut(parts[0]);
    }
  }

  function Suffix(p: Parts): string {
    RenderPre(p.pre) + RenderPost(p.post) + RenderDev(p.dev)
  }

  /** The release and suffix, without the local part. */
  function Public(p: Parts): string {
    Join(p.rel, '.') + Suffix(p)
  }

  lemma PublicHasNoCut(p: Parts)
    requires PartsWF(p)
    ensures NoCut(Public(p)) && '!' !in AfterEpoch(p) && AfterEpoch(p) == Public(p) + RenderLocal(p.local)
  {
    hide *;
    NoCutGroups(p);
    var j, a, b, c, l := Join(p.rel, '.'), RenderPre(p.pre), RenderPost(p.post), RenderDev(p.dev), RenderLocal(p.local);
    PublicIs(p);
    NoCutCat(a, b);
    NoCutCat(a + b, c);
    NoCutCat(j, a + b + c);
    NoCutApart(Public(p), l);
    assert j + (a + (b + (c + l))) == j + (a + b + c) + l;
  }

  lemma PublicIs(p: Parts)
    ensures AfterEpoch(p) ==
            Join(p.rel, '.') + (RenderPre(p.pre) + (RenderPost(p.post) + (RenderDev(p.dev) + RenderLocal(p.local))))
    ensures Public(p) == Join(p.rel, '.') + (RenderPre(p.pre) + RenderPost(p.post) + RenderDev(p.dev))
  {
    hide Join, RenderPre, RenderPost, RenderDev, RenderLocal;
  }

  lemma NoCutApart(x: string, l: string)
    requires NoCut(x) && '!' !in l
    ensures '!' !in x + l
  {
  }

  lemma CutLocalOf(x: string, local: string)
    requires '+' !in x
    ensures CutLocal(x + RenderLocal(local)) == x
  {
    hide IndexByte;
    if local == "" {
      assert x + RenderLocal(local) == x;
    } else {
      IndexByteCut(x, '+', local);
      assert x + RenderLocal(local) == x + ['+'] + local;
    }
  }

  /** All three cuts together leave the release and its suffix. */
  lemma CutsOf(p: Parts)
    requires PartsWF(p) && Greedy(p)
    ensures CutV(CutLocal(CutEpoch(Render(p)))) == Public(p)
  {
    PublicHasNoCut(p);
    PublicStarts(p);
    CutEpochOf(p, if p.v then "v" else "");
    hide Render, CutEpoch, CutLocal, CutV, Public, AfterEpoch, RenderLocal, PartsWF, Greedy;
    CutsChain(Render(p), if p.v then "v" else "", AfterEpoch(p), Public(p), p.local, p.epoch == "");
  }

  lemma CutsChain(r: string, v: string, e: string, x: string, local: string, bare: bool)
    requires CutEpoch(r) == if bare then v + e else e
    requires e == x + RenderLocal(local) && '+' !in x
    requires (v == "" || v == "v") && x != "" && x[0] != 'v'
    ensures CutV(CutLocal(CutEpoch(r))) == x
  {
    hide CutEpoch, CutLocal, RenderLocal;
    if bare {
      assert v + e == (v + x) + RenderLocal(local);
      CutLocalOf(v + x, local);
    } else {
      CutLocalOf(x, local);
    }
    CutVOf(v, x);
  }

  lemma CutVOf(v: string, x: string)
    requires (v == "" || v == "v") && x != "" && x[0] != 'v'
    ensures CutV(v + x) == x && CutV(x) == x
  {
    assert v == "" ==> v + x == x;
    assert v == "v" ==> (v + x)[1..] == x;
  }

  lemma PublicStarts(p: Parts)
    requires PartsWF(p)
    ensures Public(p) != "" && Public(p)[0] != 'v'
  {
    JoinStarts(p.rel, Suffix(p));
    hide Join, Suffix;
  }

  lemma CutEpochOf(p: Parts, v: string)
    requires PartsWF(p) && '!' !in AfterEpoch(p) && v == if p.v then "v" else ""
    ensures CutEpoch(Render(p)) == if p.epoch == "" then v + AfterEpoch(p) else AfterEpoch(p)
  {
    var e := AfterEpoch(p);
    assert AllDigits(p.epoch) && '!' !in p.epoch && '!' !in v;
    assert Render(p) == v + ((if p.epoch == "" then "" else p.epoch + ['!']) + e);
    hide AfterEpoch, PartsWF, Render;
    if p.epoch == "" {
      assert "" + e == e;
      assert '!' !in v + e;
    } else {
      assert v + (p.epoch + ['!'] + e) == (v + p.epoch) + ['!'] + e;
      IndexByteCut(v + p.epoch, '!', e);
    }
  }

  lemma AfterReleaseIs(p: Parts)
    ensures AfterRelease(p) == Suffix(p) + RenderLocal(p.local)
  {
    hide RenderPre, RenderPost, RenderDev, RenderLocal;
  }

  lemma EndsReleasePrefix(s: string, l: string)
    requires EndsRelease(s + l)
    ensures EndsRelease(s)
  {
    assert s != "" ==> (s + l)[0] == s[0];
    assert |s| > 1 ==> (s + l)[1] == s[1];
  }

  lemma SuffixShape(p: Parts)
    requires PartsWF(p) && Greedy(p)
    ensures EndsRelease(Suffix(p))
  {
    AfterReleaseShape(p);
    assert EndsRelease(AfterRelease(p));
    hide *;
    AfterReleaseIs(p);
    EndsReleasePrefix(Suffix(p), RenderLocal(p.local));
  }

  /** What the wheel check compares of any PEP 440 version: the standard's release, each number
      wrapped to 64 bits, and the zeros at its end trimmed again. */
  function WrappedRelease(v: string): seq<int>
    requires IsVersion(v)
  {
    TrimZeroTail(Wrapped(PepOf(PartsOfVersion(v)).rel))
  }

  lemma ReleaseSegmentIsWrapped(v: string)
    requires IsVersion(v)
    ensures ReleaseSegment(v) == Some(WrappedRelease(v))
  {
    var p := PartsOfVersion(v);
    CutsOf(p);
    SuffixShape(p);
    SegmentsOf(p.rel, Suffix(p));
    TrimWrapped(RelValues(p.rel));
    hide IsVersion, PartsOfVersion, Fold, CutV, CutLocal, CutEpoch, Segments, Join, Suffix, TrimTrailing,
      TrimZeroTail, PartsWF, Greedy, Render, Wrapped, PepPre, PepPost, PepDev, PepLocal;
  }

  /** On any two PEP 440 versions the wheel check says "different" exactly when their wrapped
      releases differ. So it never refuses what the standard calls equal, overflowing numbers
      included, where the advisory matcher itself tells spellings apart. */
  lemma DifferentExactly(a: string, b: string)
    requires IsVersion(a) && IsVersion(b)
    ensures NameDifferentReleases(a, b) <==> WrappedRelease(a) != WrappedRelease(b)
    ensures PepSame(a, b) ==> !NameDifferentReleases(a, b)
  {
    ReleaseSegmentIsWrapped(a);
    ReleaseSegmentIsWrapped(b);
    hide IsVersion, PartsOfVersion, ReleaseSegment, PepOf, TrimZeroTail, Wrapped;
  }

  /** On a version the regular expression accepts and whose release fits an int, the small
      parser reads the same zero-trimmed release as the key. */
  lemma ReleaseSegmentIsNormRelease(version: string)
    requires NormOfVersion(version).Some?
    ensures ReleaseSegment(version) == Some(NormOfVersion(version).value.rel)
  {
    var p := PartsOfVersion(version);
    ReleaseSegmentIsWrapped(version);
    NormOfVersionIs(version);
    RelNumsValues(p.rel);
    RelAgrees(p.rel);
    RelNormForm(p.rel);
    TrimmedFits(TrimTrailing(RelValues(p.rel)));
    hide IsVersion, PartsOfVersion, ReleaseSegment, NormOfVersion, RelNums, TrimTrailing, TrimZeroTail, Wrapped,
      PartsWF, RelValues, EpochOf, NormPre, NormPost, NormDev, LocalNorm, PepPre, PepPost, PepDev, PepLocal;
  }

  /** The wheel check never refuses two spellings of one version: whatever the advisory
      matcher calls the same, on any two strings, the wheel check does not call different. */
  lemma SameNeverDifferent(a: string, b: string)
    requires Pep440Same(a, b)
    ensures !NameDifferentReleases(a, b)
  {
    SameIffMeaning(a, b);
    assert Fold(a) == Fold(b) ==> ReleaseSegment(a) == ReleaseSegment(b);
    hide Fold, NormOfVersion, ReleaseSegment, Pep440Same;
    if NormOfVersion(a).Some? {
      ReleaseSegmentIsNormRelease(a);
      ReleaseSegmentIsNormRelease(b);
    }
  }

  // ---------------------------------------------------------------- what it reads off any text

  /** A text as the parser cuts it: up to the first "!", one "v", numbers between single dots, and
      from the first "+" after the "!" on. */
  datatype Layout = Layout(epoch: string, v: string, rel: seq<string>, rest: string, local: string)

  predicate Cuts(f: string, e: string, w: string, x: string, l: string) {
    && f == e + (w + x + l)
    && (if e == "" then '!' !in f else e[|e| - 1] == '!' && '!' !in e[..|e| - 1])
    && '+' !in w + x && (l == "" || l[0] == '+')
    && (w == "v" || (w == "" && (x == "" || x[0] != 'v')))
  }

  /** The numbers are as many as there are. */
  predicate Starts(x: string, rel: seq<string>, rest: string) {
    && x == Join(rel, '.') + rest && (forall k :: 0 <= k < |rel| ==> Digits(rel[k]))
    && if rel == [] then !StartsDigit(rest) else EndsRelease(rest)
  }

  predicate LaidOut(f: string, p: Layout) {
    var x := Join(p.rel, '.') + p.rest;
    Cuts(f, p.epoch, p.v, x, p.local) && Starts(x, p.rel, p.rest)
  }

  lemma CutsAre(f: string, e: string, w: string, x: string, l: string)
    requires Cuts(f, e, w, x, l)
    ensures CutV(CutLocal(CutEpoch(f))) == x
  {
    var y := w + x + l;
    EpochIs(f, e, y);
    LocalIs(y, w + x, l);
    hide CutEpoch, CutLocal;
    assert w == "" ==> w + x == x;
    assert w == "v" ==> (w + x)[1..] == x;
  }

  lemma EpochIs(f: string, e: string, y: string)
    requires f == e + y && if e == "" then '!' !in f else e[|e| - 1] == '!' && '!' !in e[..|e| - 1]
    ensures CutEpoch(f) == y
  {
    hide IndexByte;
    if e == "" {
      assert f == y;
    } else {
      IndexByteCut(e[..|e| - 1], '!', y);
      assert e == e[..|e| - 1] + ['!'];
    }
  }

  lemma LocalIs(y: string, x: string, l: string)
    requires y == x + l && '+' !in x && (l == "" || l[0] == '+')
    ensures CutLocal(y) == x
  {
    hide IndexByte;
    if l == "" {
      assert y == x;
    } else {
      IndexByteCut(x, '+', l[1..]);
      assert l == ['+'] + l[1..] && y == x + ['+'] + l[1..];
    }
  }

  lemma ReleaseIs(f: string, p: Layout)
    requires LaidOut(f, p)
    ensures Segments(CutV(CutLocal(CutEpoch(f)))) == Wrapped(RelValues(p.rel))
  {
    var x := Join(p.rel, '.') + p.rest;
    CutsAre(f, p.epoch, p.v, x, p.local);
    hide CutV, CutLocal, CutEpoch, Cuts, Wrap64, Value;
    if p.rel == [] {
      assert x == p.rest;
    } else {
      SegmentsOf(p.rel, p.rest);
    }
  }

  /** What the wheel check says of any two texts: "different" if and only if both have a release and
      the two, wrapped and trimmed, differ. Of a text with none it has no opinion. */
  lemma DifferentOnAnyText(a: string, b: string, p: Layout, q: Layout)
    requires LaidOut(Fold(a), p) && LaidOut(Fold(b), q)
    ensures NameDifferentReleases(a, b) <==>
              p.rel != [] && q.rel != [] &&
              TrimZeroTail(Wrapped(RelValues(p.rel))) != TrimZeroTail(Wrapped(RelValues(q.rel)))
  {
    ReleaseIs(Fold(a), p);
    ReleaseIs(Fold(b), q);
    hide LaidOut, Fold, CutV, CutLocal, CutEpoch, Segments, TrimZeroTail, Wrap64, Value;
  }

  lemma {:induction false} StartsSomehow(x: string) returns (rel: seq<string>, rest: string)
    ensures Starts(x, rel, rest)
    decreases |x|
  {
    var (d, r) := TakeDigits(x);
    if d == "" {
      rel, rest := [], x;
    } else if EndsRelease(r) {
      rel, rest := [d], r;
    } else {
      rel, rest := StartsSomehow(r[1..]);
      StartsMore(x, d, r, rel, rest);
      rel := [d] + rel;
    }
  }

  lemma StartsMore(x: string, d: string, r: string, rel: seq<string>, rest: string)
    requires x == d + r && Digits(d) && |r| > 1 && r[0] == '.' && IsDigit(r[1]) && Starts(r[1..], rel, rest)
    ensures Starts(x, [d] + rel, rest)
  {
    assert Join([], '.') + rest == rest;
    hide Join, EndsRelease;
    assert rel != [];
    JoinCons(d, rel, '.');
    DotBetween(d, Join(rel, '.'), rest, r);
  }

  lemma DotBetween(d: string, j: string, rest: string, r: string)
    requires r != "" && r[0] == '.' && r[1..] == j + rest
    ensures d + r == d + ['.'] + j + rest
  {
    assert r == ['.'] + (j + rest);
  }

  lemma EpochSomehow(f: string) returns (e: string, y: string)
    ensures f == e + y && if e == "" then '!' !in f else e[|e| - 1] == '!' && '!' !in e[..|e| - 1]
  {
    var i := IndexByte(f, '!');
    e, y := f[..i + 1], f[i + 1..];
    hide IndexByte;
    assert e != "" ==> e[..|e| - 1] == f[..i];
  }

  lemma LocalSomehow(y: string) returns (z: string, l: string)
    ensures y == z + l && '+' !in z && (l == "" || l[0] == '+')
  {
    var j := IndexByte(y, '+');
    z, l := if j < 0 then y else y[..j], if j < 0 then "" else y[j..];
    hide IndexByte;
  }

  /** Every text is cut in some places, and so in just these. */
  lemma EveryTextLaidOut(f: string) returns (p: Layout)
    ensures LaidOut(f, p)
  {
    hide Join, Starts;
    var e, y := EpochSomehow(f);
    var z, l := LocalSomehow(y);
    var w := if z != "" && z[0] == 'v' then "v" else "";
    assert z == w + z[|w|..];
    var rel, rest := StartsSomehow(z[|w|..]);
    p := Layout(e, w, rel, rest, l);
    assert z[|w|..] == Join(rel, '.') + rest by { StartsJoins(z[|w|..], rel, rest); }
  }

  lemma StartsJoins(x: string, rel: seq<string>, rest: string)
    requires Starts(x, rel, rest)
    ensures x == Join(rel, '.') + rest
  {
  }
}
