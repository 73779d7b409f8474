/** PEP 440 version identity as the standard defines it, on mathematical numbers, and where
    pep440.go's key agrees with it. */
module Pep440Spec {
  import opened GoStrings
  import opened Pep440Grammar
  import opened Pep440
  import opened Pep440Regex

  // ---------------------------------------------------------------- the standard's identity

  /** A local segment of digits compares as a number, any other as text. */
  datatype LocalSeg = Num(n: nat) | Text(s: string)

  datatype Phase = Alpha | Beta | Candidate

  datatype PepVersion = PepVersion(
    epoch: nat, rel: seq<nat>, pre: Option<(Phase, nat)>, post: Option<nat>, dev: Option<nat>, local: seq<LocalSeg>)

  function Seg(s: string): LocalSeg {
    if Digits(s) then Num(Value(s)) else Text(s)
  }

  function Segs(parts: seq<string>): (r: seq<LocalSeg>)
    ensures |r| == |parts| && forall k :: 0 <= k < |r| ==> r[k] == Seg(parts[k])
  {
    seq(|parts|, k requires 0 <= k < |parts| => Seg(parts[k]))
  }

  function LocalParts(local: string): seq<string> {
    Split(LocalNorm(local), '.')
  }

  function RelValues(rel: seq<string>): (r: seq<nat>)
    requires forall k :: 0 <= k < |rel| ==> Digits(rel[k])
    ensures |r| == |rel| && forall k :: 0 <= k < |r| ==> Digits(rel[k]) && r[k] == Value(rel[k])
  {
    seq(|rel|, k requires 0 <= k < |rel| => assert Digits(rel[k]); Value(rel[k]))
  }

  function PepOf(p: Parts): PepVersion
    requires PartsWF(p)
  {
    PepVersion(
      Value(p.epoch), TrimTrailing(RelValues(p.rel)), PepPre(p.pre), PepPost(p.post), PepDev(p.dev), PepLocal(p.local))
  }

  /** The spellings of one phase; a preview is a candidate. */
  function PhaseOf(letter: string): Phase {
    match letter
    case "a" => Alpha
    case "alpha" => Alpha
    case "b" => Beta
    case "beta" => Beta
    case _ => Candidate
  }

  function PepPre(pre: Option<Pre>): Option<(Phase, nat)>
    requires pre.Some? ==> PreWF(pre.value)
  {
    if pre.None? then None else Some((PhaseOf(pre.value.letter), Value(pre.value.num)))
  }

  function PepPost(post: Option<Post>): Option<nat>
    requires post.Some? ==> PostWF(post.value)
  {
    if post.None? then None else Some(Value(post.value.num))
  }

  function PepDev(dev: Option<Dev>): Option<nat>
    requires dev.Some? ==> DevWF(dev.value)
  {
    if dev.None? then None else Some(Value(dev.value.num))
  }

  function PepLocal(local: string): seq<LocalSeg> {
    if local == "" then [] else Segs(LocalParts(local))
  }

  predicate IsVersion(v: string) {
    Parse(Fold(v)).Some?
  }

  function PartsOfVersion(v: string): (p: Parts)
    requires IsVersion(v)
    ensures PartsWF(p) && Greedy(p) && Render(p) == Fold(v)
  {
    ParseSound(Fold(v));
    Parse(Fold(v)).value
  }

  lemma FoldTwice(s: string)
    ensures Fold(Fold(s)) == Fold(s)
  {
    TrimSpaceFixed(ToLower(TrimSpace(s)));
    hide TrimSpace;
  }

  /** Which strings are versions at all: those whose text between the spaces, in lower case,
      the regular expression matches. Spaces and case change neither that nor the key. */
  lemma VersionExactly(s: string) returns (before: string, v: string, after: string)
    ensures s == before + v + after && AllSpace(before) && AllSpace(after)
    ensures v == "" || (!IsSpace(v[0]) && !IsSpace(v[|v| - 1]))
    ensures IsVersion(s) <==> Matches(VERSION, ToLower(v))
    ensures Pep440Key(s) == Pep440Key(ToLower(v))
  {
    before, after := TrimSpaceExactly(s);
    v := TrimSpace(s);
    RegexExactly(ToLower(v));
    FoldTwice(s);
    hide Matches, Parse, KeyString, NormOf, TrimSpace, ToLower, VERSION;
  }

  predicate PepSame(a: string, b: string)
    requires IsVersion(a) && IsVersion(b)
  {
    PepOf(PartsOfVersion(a)) == PepOf(PartsOfVersion(b))
  }

  // ---------------------------------------------------------------- where the key follows it

  predicate Fit(num: string) {
    AllDigits(num) ==> Value(num) <= MAX_INT64
  }

  predicate LocalFits(local: string) {
    forall k :: 0 <= k < |LocalParts(local)| ==> !LeadingZero(LocalParts(local)[k])
  }

  predicate LeadingZero(s: string) {
    AllDigits(s) && |s| > 1 && s[0] == '0'
  }

  /** Every number fits an int, and no numeric local segment carries a leading zero. */
  predicate Fits(p: Parts) {
    && RelFits(p.rel)
    && Fit(p.epoch)
    && (p.pre.Some? ==> Fit(p.pre.value.num))
    && (p.post.Some? ==> Fit(p.post.value.num))
    && (p.dev.Some? ==> Fit(p.dev.value.num))
    && LocalFits(p.local)
  }

  lemma NumFits(s: string)
    requires AllDigits(s) && Fit(s)
    ensures NumOrZero(s) == Itoa(Value(s)) && EpochOf(s) == Value(s)
  {
    if s != "" {
      ParseDigits(s);
      TrimZerosForm(s);
    } else {
      assert Itoa(0) == "0";
    }
  }

  lemma NumsAgree(s: string, t: string)
    requires AllDigits(s) && AllDigits(t) && Fit(s) && Fit(t)
    ensures NumOrZero(s) == NumOrZero(t) <==> Value(s) == Value(t)
  {
    NumFits(s);
    NumFits(t);
    if Itoa(Value(s)) == Itoa(Value(t)) { ItoaInjective(Value(s), Value(t)); }
  }

  lemma PostNumIs(p: Post)
    requires PostWF(p)
    ensures PostNum(p) == NumOrZero(p.num)
  {
  }

  lemma RelAgrees(rel: seq<string>)
    requires (forall k :: 0 <= k < |rel| ==> Digits(rel[k])) && RelFits(rel)
    ensures RelNums(rel) == Some(RelValues(rel))
  {
    RelNumsValues(rel);
    assert RelNums(rel).value == RelValues(rel);
  }

  lemma SegInjective(s: string, t: string)
    requires !LeadingZero(s) && !LeadingZero(t) && Seg(s) == Seg(t)
    ensures s == t
  {
    if Digits(s) {
      ItoaValue(s);
      ItoaValue(t);
    }
  }

  lemma LocalAgrees(a: string, b: string)
    requires LocalFits(a) && LocalFits(b)
    ensures LocalNorm(a) == LocalNorm(b) <==> PepLocal(a) == PepLocal(b)
  {
    var x, y := LocalParts(a), LocalParts(b);
    JoinSplit(LocalNorm(a), '.');
    JoinSplit(LocalNorm(b), '.');
    hide Split, Join, Seg, LeadingZero;
    if a != "" && b != "" && Segs(x) == Segs(y) {
      forall k | 0 <= k < |x| ensures x[k] == y[k] {
        assert Segs(x)[k] == Segs(y)[k];
        SegInjective(x[k], y[k]);
      }
      assert x == y;
    }
  }

  lemma AliasIsPhase(a: string, b: string)
    requires IsPreLetter(a) && IsPreLetter(b)
    ensures PreAlias(a) == PreAlias(b) <==> PhaseOf(a) == PhaseOf(b)
    ensures PhaseOf(PreAlias(a)) == PhaseOf(a)
  {
  }

  lemma PreAgrees(a: Option<Pre>, b: Option<Pre>)
    requires (a.Some? ==> PreWF(a.value) && Fit(a.value.num)) && (b.Some? ==> PreWF(b.value) && Fit(b.value.num))
    ensures NormPre(a) == NormPre(b) <==> PepPre(a) == PepPre(b)
  {
    hide NumOrZero, Value, PreAlias, PhaseOf, Fit, IsPreLetter;
    if a.Some? && b.Some? {
      NumsAgree(a.value.num, b.value.num);
      AliasIsPhase(a.value.letter, b.value.letter);
    }
  }

  lemma PostAgrees(a: Option<Post>, b: Option<Post>)
    requires (a.Some? ==> PostWF(a.value) && Fit(a.value.num)) && (b.Some? ==> PostWF(b.value) && Fit(b.value.num))
    ensures NormPost(a) == NormPost(b) <==> PepPost(a) == PepPost(b)
  {
    hide NumOrZero, Value, PostNum, Fit;
    if a.Some? && b.Some? {
      PostNumIs(a.value);
      PostNumIs(b.value);
      NumsAgree(a.value.num, b.value.num);
    }
  }

  lemma DevAgrees(a: Option<Dev>, b: Option<Dev>)
    requires (a.Some? ==> DevWF(a.value) && Fit(a.value.num)) && (b.Some? ==> DevWF(b.value) && Fit(b.value.num))
    ensures NormDev(a) == NormDev(b) <==> PepDev(a) == PepDev(b)
  {
    hide NumOrZero, Value, Fit;
    if a.Some? && b.Some? { NumsAgree(a.value.num, b.value.num); }
  }

  /** On versions that fit, the key's normal form and the standard's identity draw the same
      line: equal in the one exactly when equal in the other. */
  lemma NormIsPep(p: Parts, q: Parts)
    requires PartsWF(p) && PartsWF(q) && Fits(p) && Fits(q)
    ensures NormOf(p).Some? && NormOf(q).Some?
    ensures NormOf(p) == NormOf(q) <==> PepOf(p) == PepOf(q)
  {
    hide RelNums, RelValues, RelFits, EpochOf, Fit, LocalFits, LocalNorm, TrimTrailing, Value, LocalOK, PreWF, DevWF,
      PostWF, AllDigits, Digits, NormPre, NormPost, NormDev, PepPre, PepPost, PepDev, PepLocal;
    RelAgrees(p.rel);
    RelAgrees(q.rel);
    NumFits(p.epoch);
    NumFits(q.epoch);
    PreAgrees(p.pre, q.pre);
    PostAgrees(p.post, q.post);
    DevAgrees(p.dev, q.dev);
    LocalAgrees(p.local, q.local);
  }

  lemma NormOfVersionIs(v: string)
    requires IsVersion(v)
    ensures NormOfVersion(v) == NormOf(PartsOfVersion(v))
  {
  }

  /** Two fitting versions are the same to the advisory matcher exactly when PEP 440 says so. */
  lemma SameIsPep440(a: string, b: string)
    requires IsVersion(a) && IsVersion(b) && Fits(PartsOfVersion(a)) && Fits(PartsOfVersion(b))
    ensures Pep440Same(a, b) <==> PepSame(a, b)
  {
    SameIffMeaning(a, b);
    NormOfVersionIs(a);
    NormOfVersionIs(b);
    NormIsPep(PartsOfVersion(a), PartsOfVersion(b));
    hide NormOfVersion, NormOf, PepOf, PartsOfVersion, Pep440Same, IsVersion, Fits;
  }

  // ---------------------------------------------------------------- and where it does not

  /** Whether the text after the pre group starts with a separator, read off the groups. */
  predicate LeadSep(post: Option<Post>, dev: Option<Dev>) {
    if post.Some? then post.value.Implicit? || post.value.sep1 != ""
    else dev.Some? && dev.value.sep1 != ""
  }

  lemma LeadSepIs(p: Parts)
    requires PartsWF(p)
    ensures StartsSep(AfterPre(p)) == LeadSep(p.post, p.dev)
    ensures StartsSep(AfterPost(p)) == LeadSep(None, p.dev)
  {
    var l := RenderLocal(p.local);
    if p.dev.Some? {
      var d := p.dev.value;
      MarkerRest(d.sep1, "dev", d.sep2, d.num, l);
      if d.sep1 == "" { MarkerNoSep("dev", d.sep2, d.num, l); }
    } else {
      assert AfterPost(p) == l;
    }
    if p.post.Some? {
      var o := p.post.value;
      if o.Explicit? {
        MarkerRest(o.sep1, o.letter, o.sep2, o.num, AfterPost(p));
        if o.sep1 == "" { MarkerNoSep(o.letter, o.sep2, o.num, AfterPost(p)); }
      }
    } else {
      NothingRenders(p);
    }
    hide Marker;
  }

  predicate GreedyGroups(p: Parts) {
    && (p.pre.Some? && p.pre.value.sep2 == "" && p.pre.value.num == "" ==> !LeadSep(p.post, p.dev))
    && (p.post.Some? && p.post.value.Explicit? && p.post.value.sep2 == "" && p.post.value.num == "" ==>
          !LeadSep(None, p.dev))
  }

  lemma GreedyIs(p: Parts)
    requires PartsWF(p)
    ensures Greedy(p) == GreedyGroups(p)
  {
    LeadSepIs(p);
    hide AfterPre, AfterPost, LeadSep, PartsWF;
  }

  /** The same text with one more leading zero, which PEP 440 ignores. */
  function Padded(num: string): string {
    ['0'] + num
  }

  lemma PaddedOverflows(num: string)
    requires AllDigits(num) && Value(num) > MAX_INT64
    ensures num != "" && AllDigits(Padded(num)) && Value(Padded(num)) == Value(num)
    ensures NumOrZero(num) == num && NumOrZero(Padded(num)) == Padded(num) && Padded(num) != num
  {
    ValueLeadingZero(num);
    TrimZerosForm(num);
    TrimZerosForm(Padded(num));
  }

  predicate LocalText(s: string) {
    s != "" && forall i :: 0 <= i < |s| ==> LocalChar(s[i])
  }

  /** Letters, digits and single dots. */
  predicate Dotted(s: string) {
    && s != "" && LocalChar(s[0]) && LocalChar(s[|s| - 1])
    && (forall i :: 0 <= i < |s| ==> LocalChar(s[i]) || s[i] == '.')
    && (forall i :: 0 < i < |s| ==> LocalChar(s[i - 1]) || LocalChar(s[i]))
  }

  lemma LocalOKDotted(s: string)
    requires LocalOK(s)
    ensures Dotted(LocalNorm(s))
  {
  }

  lemma DottedCut(s: string, i: nat)
    requires Dotted(s) && i < |s| && s[i] == '.' && '.' !in s[..i]
    ensures LocalText(s[..i]) && Dotted(s[i + 1..])
  {
    forall k | 0 <= k < i ensures LocalChar(s[..i][k]) {
      assert s[..i][k] in s[..i];
    }
    assert LocalChar(s[i + 1]);
  }

  lemma DottedNoDot(s: string)
    requires Dotted(s) && '.' !in s
    ensures LocalText(s)
  {
    assert forall k :: 0 <= k < |s| ==> s[k] in s;
  }

  predicate LocalTexts(parts: seq<string>) {
    forall k :: 0 <= k < |parts| ==> LocalText(parts[k])
  }

  lemma LocalTextsCons(a: string, parts: seq<string>)
    requires LocalText(a) && LocalTexts(parts)
    ensures LocalTexts([a] + parts)
  {
  }

  lemma SplitTexts(s: string, i: nat)
    requires i < |s| && IndexByte(s, '.') == i
    requires LocalText(s[..i]) && LocalTexts(Split(s[i + 1..], '.'))
    ensures LocalTexts(Split(s, '.'))
  {
    SplitStep(s, '.');
    hide *;
    LocalTextsCons(s[..i], Split(s[i + 1..], '.'));
  }

  lemma {:induction false} DottedSplits(s: string)
    requires Dotted(s)
    ensures LocalTexts(Split(s, '.'))
    decreases |s|
  {
    hide *;
    var i := IndexByte(s, '.');
    if i < 0 {
      SplitStep(s, '.');
      DottedNoDot(s);
      LocalTextsCons(s, []);
      assert [s] + [] == [s];
    } else {
      DottedCut(s, i);
      DottedSplits(s[i + 1..]);
      SplitTexts(s, i);
    }
  }

  lemma LocalOKJoin(a: string, b: string)
    requires LocalText(a) && LocalOK(b) && '-' !in b && '_' !in b
    ensures LocalOK(a + ['.'] + b) && '-' !in a + ['.'] + b && '_' !in a + ['.'] + b
  {
    var s := a + ['.'] + b;
    assert s[|a|] == '.' && s[|a| - 1] == a[|a| - 1] && s[|a| + 1] == b[0];
    assert forall i :: |a| < i < |s| ==> s[i] == b[i - |a| - 1];
  }

  lemma LocalTextOK(a: string)
    requires LocalText(a)
    ensures LocalOK(a) && '-' !in a && '_' !in a
  {
  }

  lemma {:induction false} LocalOKJoins(parts: seq<string>)
    requires parts != [] && LocalTexts(parts)
    ensures LocalOK(Join(parts, '.')) && '-' !in Join(parts, '.') && '_' !in Join(parts, '.')
  {
    hide LocalOK, LocalText;
    LocalTextOK(parts[0]);
    if |parts| > 1 {
      LocalOKJoins(parts[1..]);
      LocalOKJoin(parts[0], Join(parts[1..], '.'));
    }
  }

  /** Padding a numeric local segment that already has a leading zero changes the text the
      key compares but not the number PEP 440 compares. */
  lemma PadLocal(local: string, i: nat) returns (padded: string)
    requires LocalOK(local) && i < |LocalParts(local)| && LeadingZero(LocalParts(local)[i])
    ensures LocalOK(padded) && LocalNorm(padded) != LocalNorm(local)
    ensures Segs(LocalParts(padded)) == Segs(LocalParts(local))
  {
    var x := LocalParts(local);
    LocalNormForm(local);
    LocalOKDotted(local);
    DottedSplits(LocalNorm(local));
    var y := x[i := Padded(x[i])];
    assert LocalText(y[i]);
    LocalOKJoins(y);
    padded := Join(y, '.');
    LocalNormFixed(padded);
    SplitJoin(y, '.');
    ValueLeadingZero(x[i]);
    assert Seg(y[i]) == Seg(x[i]);
    hide Split, Join, LocalOK, LocalNorm, LocalText, Value, LeadingZero;
  }

  lemma VersionOfParts(q: Parts)
    requires PartsWF(q) && Greedy(q)
    ensures IsVersion(Render(q)) && PartsOfVersion(Render(q)) == q
  {
    PlainRender(q);
    PlainFolds(Render(q));
    ParseRender(q);
  }

  /** A release number too big for an int: the key gives up, so two respellings differ. */
  lemma ReleaseOverflow(p: Parts)
    requires PartsWF(p) && Greedy(p) && !RelFits(p.rel)
    ensures var q := p.(v := !p.v);
            PartsWF(q) && Greedy(q) && PepOf(q) == PepOf(p) && NormOf(p).None? && NormOf(q).None?
            && Render(q) != Render(p)
  {
    var q := p.(v := !p.v);
    RelNumsValues(p.rel);
    GreedyIs(p);
    GreedyIs(q);
    assert |Render(q)| != |Render(p)| by {
      assert AfterV(p) == AfterV(q);
      hide AfterV;
    }
  }

  /** An epoch too big for an int is dropped, so it compares equal to no epoch at all. */
  lemma EpochOverflow(p: Parts)
    requires PartsWF(p) && Greedy(p) && RelFits(p.rel) && !Fit(p.epoch)
    ensures var q := p.(epoch := "");
            PartsWF(q) && Greedy(q) && PepOf(q) != PepOf(p) && NormOf(p) == NormOf(q) && NormOf(p).Some?
  {
    var q := p.(epoch := "");
    RelNumsValues(p.rel);
    GreedyIs(p);
    GreedyIs(q);
    ParseDigits(p.epoch);
    assert EpochOf(p.epoch) == 0;
    hide RelNums, TrimTrailing, RelValues, NumOrZero, PostNum, LocalNorm, PreAlias, LocalOK, GreedyGroups, Greedy;
  }

  /** A number after the release, too big for an int, keeps its leading zeros in the key. */
  function PadOne(p: Parts): Parts {
    if p.pre.Some? && !Fit(p.pre.value.num) then p.(pre := Some(p.pre.value.(num := Padded(p.pre.value.num))))
    else if p.post.Some? && !Fit(p.post.value.num) then p.(post := Some(p.post.value.(num := Padded(p.post.value.num))))
    else if p.dev.Some? && !Fit(p.dev.value.num) then p.(dev := Some(p.dev.value.(num := Padded(p.dev.value.num))))
    else p
  }

  lemma PadPre(a: Pre)
    requires PreWF(a) && !Fit(a.num)
    ensures var b := a.(num := Padded(a.num));
            PreWF(b) && a.num != "" && b.num != "" && PepPre(Some(b)) == PepPre(Some(a))
            && NormPre(Some(b)) != NormPre(Some(a))
  {
    PaddedOverflows(a.num);
    hide NumOrZero, Value, PreAlias, Padded;
  }

  lemma PadPost(a: Post)
    requires PostWF(a) && !Fit(a.num)
    ensures var b := a.(num := Padded(a.num));
            && PostWF(b) && a.num != "" && b.num != ""
            && PepPost(Some(b)) == PepPost(Some(a)) && NormPost(Some(b)) != NormPost(Some(a))
  {
    var b := a.(num := Padded(a.num));
    PaddedOverflows(a.num);
    PostNumIs(a);
    PostNumIs(b);
    hide NumOrZero, Value, PostNum, Padded;
  }

  lemma PadDev(a: Dev)
    requires DevWF(a) && !Fit(a.num)
    ensures var b := a.(num := Padded(a.num));
            DevWF(b) && a.num != "" && b.num != "" && PepDev(Some(b)) == PepDev(Some(a))
            && NormDev(Some(b)) != NormDev(Some(a))
  {
    PaddedOverflows(a.num);
    hide NumOrZero, Value, Padded;
  }

  lemma NumberOverflow(p: Parts)
    requires PartsWF(p) && Greedy(p) && RelFits(p.rel)
    requires (p.pre.Some? && !Fit(p.pre.value.num)) || (p.post.Some? && !Fit(p.post.value.num)) ||
             (p.dev.Some? && !Fit(p.dev.value.num))
    ensures var q := PadOne(p);
            PartsWF(q) && Greedy(q) && PepOf(q) == PepOf(p) && NormOf(p) != NormOf(q)
  {
    hide RelNums, RelFits, TrimTrailing, RelValues, LocalNorm, LocalOK, Value, Padded, EpochOf, Greedy, AllDigits, Fit,
      NormPre, NormPost, NormDev, PepPre, PepPost, PepDev, PepLocal, PreWF, PostWF, DevWF;
    var q := PadOne(p);
    RelNumsValues(p.rel);
    GreedyIs(p);
    if p.pre.Some? && !Fit(p.pre.value.num) {
      PadPre(p.pre.value);
    } else if p.post.Some? && !Fit(p.post.value.num) {
      PadPost(p.post.value);
    } else {
      PadDev(p.dev.value);
    }
    GreedyIs(q);
  }

  lemma LocalZero(p: Parts) returns (q: Parts)
    requires PartsWF(p) && Greedy(p) && RelFits(p.rel) && !LocalFits(p.local)
    ensures PartsWF(q) && Greedy(q) && PepOf(q) == PepOf(p) && NormOf(p) != NormOf(q)
  {
    RelNumsValues(p.rel);
    assert p.local != "" by {
      assert LocalNorm("") == "";
      assert Split("", '.') == [""];
    }
    var i :| 0 <= i < |LocalParts(p.local)| && LeadingZero(LocalParts(p.local)[i]);
    var padded := PadLocal(p.local, i);
    q := p.(local := padded);
    hide RelNums, TrimTrailing, RelValues, NumOrZero, PostNum, LocalNorm, PreAlias, LocalOK, Value, EpochOf, Greedy,
      Segs, LocalParts, AllDigits;
    GreedyIs(p);
    GreedyIs(q);
  }

  lemma VersionsDiffer(a: string, q: Parts)
    requires IsVersion(a) && PartsWF(q) && Greedy(q)
    requires var p := PartsOfVersion(a);
             || (PepOf(q) == PepOf(p) && NormOf(p) != NormOf(q))
             || (PepOf(q) != PepOf(p) && NormOf(p) == NormOf(q) && NormOf(p).Some?)
             || (PepOf(q) == PepOf(p) && NormOf(p).None? && NormOf(q).None? && Render(q) != Render(p))
    ensures IsVersion(Render(q)) && Pep440Same(a, Render(q)) != PepSame(a, Render(q))
  {
    VersionOfParts(q);
    var b := Render(q);
    SameIffMeaning(a, b);
    NormOfVersionIs(a);
    NormOfVersionIs(b);
    hide NormOfVersion, NormOf, PepOf, PartsOfVersion, Pep440Same, IsVersion, Render, Fold, PartsWF, Greedy;
  }

  /** The condition cannot be dropped: every version that does not fit is confused with, or
      told apart from, some other version against PEP 440. */
  lemma UnfitDisagrees(a: string) returns (b: string)
    requires IsVersion(a) && !Fits(PartsOfVersion(a))
    ensures IsVersion(b) && Pep440Same(a, b) != PepSame(a, b)
  {
    var p := PartsOfVersion(a);
    var q;
    hide PartsOfVersion, NormOf, PepOf, PartsWF, Greedy, Render, IsVersion, Pep440Same, PepSame, RelFits, Fit,
      LocalFits, PadOne;
    if !RelFits(p.rel) {
      ReleaseOverflow(p);
      q := p.(v := !p.v);
    } else if !Fit(p.epoch) {
      EpochOverflow(p);
      q := p.(epoch := "");
    } else if !LocalFits(p.local) {
      q := LocalZero(p);
    } else {
      NumberOverflow(p);
      q := PadOne(p);
    }
    VersionsDiffer(a, q);
    b := Render(q);
  }
}
