/** pep440.go: the comparison key built from a parsed version, and the sameness test that
    matches an advisory's spelling of a version against a registry's. */
module Pep440 {
  import opened GoStrings
  import opened Pep440Grammar

  // ---------------------------------------------------------------- normal forms

  /** What a key records. Numbers after the release stay strings, because a number too big
      for an int is kept as it was written. */
  datatype Norm = Norm(
    epoch: nat, rel: seq<nat>, pre: Option<(string, string)>, post: Option<string>, dev: Option<string>, local: string)

  function Fold(v: string): string {
    ToLower(TrimSpace(v))
  }

  function TrimZeros(s: string): string {
    var n := ParseInt(s);
    if n.Some? && n.value >= 0 then Itoa(n.value) else s
  }

  function NumOrZero(s: string): string {
    if s == "" then "0" else TrimZeros(s)
  }

  function PreAlias(l: string): (r: string)
    ensures r == "a" || r == "b" || r == "rc"
  {
    if l == "alpha" || l == "a" then "a" else if l == "beta" || l == "b" then "b" else "rc"
  }

  /** An epoch too big for an int is dropped without a word (lines 61-65). */
  function EpochOf(epoch: string): nat {
    var n := ParseInt(epoch);
    if epoch != "" && n.Some? && n.value >= 0 then n.value else 0
  }

  function RelNums(rel: seq<string>): (r: Option<seq<nat>>)
    ensures r.Some? ==> |r.value| == |rel|
  {
    if rel == [] then Some([])
    else
      var n := ParseInt(rel[0]);
      var rest := RelNums(rel[1..]);
      if n.None? || n.value < 0 || rest.None? then None else Some([n.value as nat] + rest.value)
  }

  function TrimTrailing(nums: seq<nat>): (r: seq<nat>)
    ensures nums != [] ==> r != []
    ensures |r| > 1 ==> r[|r| - 1] != 0
    ensures r <= nums && forall k :: |r| <= k < |nums| ==> nums[k] == 0
  {
    if |nums| > 1 && nums[|nums| - 1] == 0 then TrimTrailing(nums[..|nums| - 1]) else nums
  }

  function PostNum(p: Post): string {
    if p.Implicit? then TrimZeros(p.num) else NumOrZero(p.num)
  }

  function LocalNorm(local: string): (r: string)
    ensures |r| == |local|
    ensures forall i :: 0 <= i < |r| ==> r[i] == if IsSep(local[i]) then '.' else local[i]
  {
    seq(|local|, i requires 0 <= i < |local| => if IsSep(local[i]) then '.' else local[i])
  }

  function NormPre(pre: Option<Pre>): Option<(string, string)> {
    if pre.None? then None else Some((PreAlias(pre.value.letter), NumOrZero(pre.value.num)))
  }

  function NormPost(post: Option<Post>): Option<string> {
    if post.None? then None else Some(PostNum(post.value))
  }

  function NormDev(dev: Option<Dev>): Option<string> {
    if dev.None? then None else Some(NumOrZero(dev.value.num))
  }

  function NormOf(p: Parts): Option<Norm> {
    var nums := RelNums(p.rel);
    if nums.None? then None
    else
      var rel := TrimTrailing(nums.value);
      Some(Norm(EpochOf(p.epoch), rel, NormPre(p.pre), NormPost(p.post), NormDev(p.dev), LocalNorm(p.local)))
  }

  function Strs(nums: seq<nat>): (r: seq<string>)
    ensures |r| == |nums| && forall k :: 0 <= k < |r| ==> r[k] == Itoa(nums[k])
  {
    seq(|nums|, k requires 0 <= k < |nums| => Itoa(nums[k]))
  }

  function KeyEpoch(epoch: nat): string {
    if epoch == 0 then "" else Itoa(epoch) + ['!']
  }

  function KeyPre(pre: Option<(string, string)>): string {
    if pre.None? then "" else pre.value.0 + pre.value.1
  }

  function KeyPost(post: Option<string>): string {
    if post.None? then "" else ".post" + post.value
  }

  function KeyDev(dev: Option<string>): string {
    if dev.None? then "" else ".dev" + dev.value
  }

  function KeyString(n: Norm): string {
    KeyEpoch(n.epoch) + Join(Strs(n.rel), '.') + KeyPre(n.pre) + KeyPost(n.post) + KeyDev(n.dev) + RenderLocal(n.local)
  }

  /** None when the input is not a PEP 440 version, or a release number overflows an int. */
  function NormOfVersion(v: string): Option<Norm> {
    var m := Parse(Fold(v));
    if m.None? then None else NormOf(m.value)
  }

  function Pep440Key(v: string): Option<string> {
    var n := NormOfVersion(v);
    if n.None? then None else Some(KeyString(n.value))
  }

  predicate Pep440Same(a: string, b: string) {
    var ka, kb := Pep440Key(a), Pep440Key(b);
    if ka.Some? && kb.Some? then ka.value == kb.value
    else EqualFold(TrimSpace(a), TrimSpace(b))
  }

  // ---------------------------------------------------------------- the loops of the source

  method ReleaseNumbers(rel: seq<string>) returns (nums: Option<seq<nat>>)
    ensures nums == RelNums(rel)
  {
    var out: seq<nat> := [];
    assert rel[0..] == rel;
    assert RelNums(rel).Some? ==> [] + RelNums(rel).value == RelNums(rel).value;
    for k := 0 to |rel|
      invariant RelNums(rel) == Prepend(out, RelNums(rel[k..]))
    {
      RelNumsStep(rel, k, out);
      var n := ParseInt(rel[k]);
      if n.None? || n.value < 0 {
        return None;
      }
      out := out + [n.value as nat];
    }
    assert rel[|rel|..] == [] && out + [] == out;
    nums := Some(out);
  }

  function Prepend(out: seq<nat>, rest: Option<seq<nat>>): Option<seq<nat>> {
    if rest.None? then None else Some(out + rest.value)
  }

  lemma RelNumsStep(rel: seq<string>, k: nat, out: seq<nat>)
    requires k < |rel|
    ensures var n := ParseInt(rel[k]);
            Prepend(out, RelNums(rel[k..])) ==
            if n.None? || n.value < 0 then None else Prepend(out + [n.value as nat], RelNums(rel[k + 1..]))
  {
    assert rel[k..][1..] == rel[k + 1..];
    hide ParseInt;
    var n, rest := ParseInt(rel[k]), RelNums(rel[k + 1..]);
    if n.Some? && n.value >= 0 && rest.Some? {
      assert out + ([n.value as nat] + rest.value) == out + [n.value as nat] + rest.value;
    }
  }

  method DropTrailingZeros(all: seq<nat>) returns (nums: seq<nat>)
    ensures nums == TrimTrailing(all)
  {
    nums := all;
    while |nums| > 1 && nums[|nums| - 1] == 0
      invariant TrimTrailing(nums) == TrimTrailing(all)
    {
      nums := nums[..|nums| - 1];
    }
  }

  method WriteKey(n: Norm) returns (b: string)
    ensures b == KeyString(n)
  {
    b := "";
    if n.epoch != 0 {
      b := b + (Itoa(n.epoch) + ['!']);
    }
    assert b == KeyEpoch(n.epoch);
    b := b + Join(Strs(n.rel), '.');
    ghost var b1 := b;
    if n.pre.Some? {
      b := b + (n.pre.value.0 + n.pre.value.1);
    }
    assert b == b1 + KeyPre(n.pre);
    ghost var b2 := b;
    if n.post.Some? {
      b := b + (".post" + n.post.value);
    }
    assert b == b2 + KeyPost(n.post);
    ghost var b3 := b;
    if n.dev.Some? {
      b := b + (".dev" + n.dev.value);
    }
    assert b == b3 + KeyDev(n.dev);
    ghost var b4 := b;
    if n.local != "" {
      b := b + ("+" + n.local);
    }
    assert b == b4 + RenderLocal(n.local);
    hide KeyEpoch, Join, Strs, KeyPre, KeyPost, KeyDev, RenderLocal, Itoa;
  }

  /** The key as the source builds it, one piece after another. */
  method BuildKey(v: string) returns (key: Option<string>)
    ensures key == Pep440Key(v)
  {
    var m := Parse(Fold(v));
    if m.None? {
      return None;
    }
    var p := m.value;
    hide Parse, RelNums, TrimTrailing, Fold, LocalNorm, KeyString, EpochOf, NormPre, NormPost, NormDev;
    var nums := ReleaseNumbers(p.rel);
    if nums.None? {
      return None;
    }
    var trimmed := DropTrailingZeros(nums.value);
    var b := WriteKey(
      Norm(EpochOf(p.epoch), trimmed, NormPre(p.pre), NormPost(p.post), NormDev(p.dev), LocalNorm(p.local)));
    key := Some(b);
  }

  // ---------------------------------------------------------------- keys decode

  predicate NumForm(s: string) {
    Digits(s) && TrimZeros(s) == s
  }

  predicate NormWF(n: Norm) {
    && n.epoch <= MAX_INT64
    && n.rel != [] && (forall k :: 0 <= k < |n.rel| ==> n.rel[k] <= MAX_INT64)
    && (|n.rel| > 1 ==> n.rel[|n.rel| - 1] != 0)
    && (n.pre.Some? ==> n.pre.value.0 in {"a", "b", "rc"} && NumForm(n.pre.value.1))
    && (n.post.Some? ==> NumForm(n.post.value))
    && (n.dev.Some? ==> NumForm(n.dev.value))
    && (n.local == "" || LocalOK(n.local)) && '-' !in n.local && '_' !in n.local
  }

  lemma ParseDigits(s: string)
    requires Digits(s)
    ensures ParseInt(s) == if Value(s) <= MAX_INT64 then Some(Value(s)) else None
  {
    assert IsDigit(s[0]);
  }

  lemma TrimZerosForm(s: string)
    requires Digits(s)
    ensures NumForm(TrimZeros(s))
    ensures Value(s) <= MAX_INT64 ==> TrimZeros(s) == Itoa(Value(s))
    ensures Value(s) > MAX_INT64 ==> TrimZeros(s) == s
  {
    ParseDigits(s);
    ParseDigits(Itoa(Value(s)));
  }

  lemma NumOrZeroForm(s: string)
    requires AllDigits(s)
    ensures NumForm(NumOrZero(s))
  {
    if s == "" {
      assert Digits("0") && Itoa(0) == "0";
      assert Value("0") == 0 by { assert "0"[..0] == []; }
      TrimZerosForm("0");
    } else {
      TrimZerosForm(s);
    }
  }

  predicate RelFits(rel: seq<string>) {
    forall k :: 0 <= k < |rel| ==> AllDigits(rel[k]) && Value(rel[k]) <= MAX_INT64
  }

  lemma {:induction false} RelNumsValues(rel: seq<string>)
    requires forall k :: 0 <= k < |rel| ==> Digits(rel[k])
    ensures RelNums(rel).Some? <==> RelFits(rel)
    ensures RelNums(rel).Some? ==> forall k :: 0 <= k < |rel| ==>
              AllDigits(rel[k]) && RelNums(rel).value[k] == Value(rel[k])
  {
    if rel != [] {
      ParseDigits(rel[0]);
      RelNumsValues(rel[1..]);
      assert forall k :: 0 < k < |rel| ==> rel[k] == rel[1..][k - 1];
      assert forall k :: 0 <= k < |rel[1..]| ==> rel[1..][k] == rel[k + 1];
    }
  }

  lemma LocalNormForm(local: string)
    requires local == "" || LocalOK(local)
    ensures LocalNorm(local) == "" || LocalOK(LocalNorm(local))
    ensures '-' !in LocalNorm(local) && '_' !in LocalNorm(local)
  {
  }

  lemma LocalNormFixed(local: string)
    requires '-' !in local && '_' !in local
    ensures LocalNorm(local) == local
  {
    forall i | 0 <= i < |local| ensures LocalNorm(local)[i] == local[i] {
      assert local[i] in local;
    }
  }

  lemma RelNormForm(rel: seq<string>)
    requires rel != [] && (forall k :: 0 <= k < |rel| ==> Digits(rel[k])) && RelNums(rel).Some?
    ensures var t := TrimTrailing(RelNums(rel).value);
            t != [] && (forall k :: 0 <= k < |t| ==> t[k] <= MAX_INT64) && (|t| > 1 ==> t[|t| - 1] != 0)
  {
    RelNumsValues(rel);
    hide RelNums, TrimTrailing;
  }

  lemma PostNumForm(p: Post)
    requires PostWF(p)
    ensures NumForm(PostNum(p))
  {
    NumOrZeroForm(p.num);
    if p.Implicit? { TrimZerosForm(p.num); }
    hide NumForm, NumOrZero, TrimZeros;
  }

  lemma NormGroupsForm(p: Parts)
    requires PartsWF(p)
    ensures NormPre(p.pre).Some? ==> NormPre(p.pre).value.0 in {"a", "b", "rc"} && NumForm(NormPre(p.pre).value.1)
    ensures NormPost(p.post).Some? ==> NumForm(NormPost(p.post).value)
    ensures NormDev(p.dev).Some? ==> NumForm(NormDev(p.dev).value)
  {
    if p.pre.Some? { NumOrZeroForm(p.pre.value.num); }
    if p.dev.Some? { NumOrZeroForm(p.dev.value.num); }
    if p.post.Some? { PostNumForm(p.post.value); }
    hide NumForm, NumOrZero, PostNum, PostWF;
  }

  lemma NormOfIsWF(p: Parts)
    requires PartsWF(p) && NormOf(p).Some?
    ensures NormWF(NormOf(p).value)
  {
    RelNormForm(p.rel);
    LocalNormForm(p.local);
    NormGroupsForm(p);
    assert EpochOf(p.epoch) <= MAX_INT64;
    hide LocalOK, RelNums, NumForm, NormPre, NormPost, NormDev, LocalNorm, TrimTrailing, EpochOf, PartsWF;
  }

  /** A normal form spelled with the grammar's own groups. */
  function PartsOf(n: Norm): Parts {
    Parts(
      false,
      if n.epoch == 0 then "" else Itoa(n.epoch),
      Strs(n.rel),
      if n.pre.None? then None else Some(Pre("", n.pre.value.0, "", n.pre.value.1)),
      if n.post.None? then None else Some(Explicit(".", "post", "", n.post.value)),
      if n.dev.None? then None else Some(Dev(".", "", n.dev.value)),
      n.local)
  }

  lemma PartsOfFits(n: Norm)
    requires NormWF(n)
    ensures PartsWF(PartsOf(n)) && Greedy(PartsOf(n))
  {
  }

  lemma RenderPieces(n: Norm)
    ensures var p := PartsOf(n);
            && RenderPre(p.pre) == KeyPre(n.pre) && RenderPost(p.post) == KeyPost(n.post)
            && RenderDev(p.dev) == KeyDev(n.dev)
            && (if p.epoch == "" then "" else p.epoch + ['!']) == KeyEpoch(n.epoch)
  {
    if n.post.Some? { assert "." + ("post" + ("" + n.post.value)) == ".post" + n.post.value; }
    if n.dev.Some? { assert "." + ("dev" + ("" + n.dev.value)) == ".dev" + n.dev.value; }
    if n.pre.Some? { assert "" + (n.pre.value.0 + ("" + n.pre.value.1)) == n.pre.value.0 + n.pre.value.1; }
  }

  lemma KeyIsRender(n: Norm)
    ensures KeyString(n) == Render(PartsOf(n))
  {
    RenderPieces(n);
    RenderFlat(PartsOf(n));
    assert "" + KeyEpoch(n.epoch) == KeyEpoch(n.epoch);
    hide RenderPre, RenderPost, RenderDev, RenderLocal, Join, Itoa, Render, KeyEpoch, KeyPre, KeyPost, KeyDev, Strs;
  }

  lemma RenderFlat(p: Parts)
    ensures Render(p) ==
            (if p.v then "v" else "") + (if p.epoch == "" then "" else p.epoch + ['!'])
            + Join(p.rel, '.') + RenderPre(p.pre) + RenderPost(p.post) + RenderDev(p.dev) + RenderLocal(p.local)
  {
    hide Join, RenderPre, RenderPost, RenderDev, RenderLocal;
  }

  /** A key is itself a PEP 440 version, spelled in normal form. */
  lemma KeyParses(n: Norm)
    requires NormWF(n)
    ensures Parse(KeyString(n)) == Some(PartsOf(n))
  {
    KeyIsRender(n);
    PartsOfFits(n);
    ParseRender(PartsOf(n));
  }

  lemma StrsBack(nums: seq<nat>)
    requires forall k :: 0 <= k < |nums| ==> nums[k] <= MAX_INT64
    ensures RelNums(Strs(nums)) == Some(nums)
  {
    RelNumsValues(Strs(nums));
    var r := RelNums(Strs(nums));
    assert r.Some? && r.value == nums;
  }

  lemma NormPieces(p: Parts, n: Norm)
    requires RelNums(p.rel).Some? && TrimTrailing(RelNums(p.rel).value) == n.rel
    requires EpochOf(p.epoch) == n.epoch && LocalNorm(p.local) == n.local
    requires n.pre == NormPre(p.pre) && n.post == NormPost(p.post) && n.dev == NormDev(p.dev)
    ensures NormOf(p) == Some(n)
  {
    hide RelNums, TrimTrailing, EpochOf, LocalNorm, NormPre, NormPost, NormDev;
  }

  lemma EpochBack(n: Norm)
    requires NormWF(n)
    ensures EpochOf(PartsOf(n).epoch) == n.epoch
  {
    hide Itoa, RelNums, Strs, LocalNorm, LocalOK;
    if n.epoch != 0 { ParseDigits(Itoa(n.epoch)); }
  }

  lemma PartsOfBack(n: Norm)
    requires NormWF(n)
    ensures NormOf(PartsOf(n)) == Some(n)
  {
    hide RelNums, Strs, Itoa, ParseInt, LocalNorm, LocalOK, TrimZeros, EpochOf;
    StrsBack(n.rel);
    LocalNormFixed(n.local);
    EpochBack(n);
    NormPieces(PartsOf(n), n);
  }

  /** Unique decodability: two keys are equal only if all six components are. */
  lemma KeyInjective(m: Norm, n: Norm)
    requires NormWF(m) && NormWF(n) && KeyString(m) == KeyString(n)
    ensures m == n
  {
    KeyParses(m);
    KeyParses(n);
    PartsOfBack(m);
    PartsOfBack(n);
    hide *;
  }

  // ---------------------------------------------------------------- folding a key changes nothing

  predicate Plain(s: string) {
    forall i :: 0 <= i < |s| ==> !IsUpper(s[i]) && !IsSpace(s[i])
  }

  lemma PlainFolds(s: string)
    requires Plain(s)
    ensures Fold(s) == s
  {
    hide TrimSpace;
    TrimSpaceFixed(s);
    assert forall i :: 0 <= i < |s| ==> ToLower(s)[i] == LowerChar(s[i]) == s[i];
  }

  lemma {:induction false} PlainJoin(parts: seq<string>)
    requires forall k :: 0 <= k < |parts| ==> Digits(parts[k])
    ensures Plain(Join(parts, '.'))
  {
    if |parts| > 1 {
      PlainJoin(parts[1..]);
      assert Plain(parts[0]);
    }
  }

  lemma PlainMarker(sep1: string, letter: string, sep2: string, num: string)
    requires OptSep(sep1) && OptSep(sep2) && AllDigits(num) && Plain(letter)
    ensures Plain(Marker(sep1, letter, sep2, num))
  {
  }

  lemma PlainRender(p: Parts)
    requires PartsWF(p)
    ensures Plain(Render(p))
  {
    PlainJoin(p.rel);
    PlainGroups(p);
    RenderFlat(p);
    var v, e := if p.v then "v" else "", if p.epoch == "" then "" else p.epoch + ['!'];
    assert Plain(v) && Plain(e);
    hide *;
    PlainCat(v, e);
    PlainCat(v + e, Join(p.rel, '.'));
    PlainCat(v + e + Join(p.rel, '.'), RenderPre(p.pre));
    PlainCat(v + e + Join(p.rel, '.') + RenderPre(p.pre), RenderPost(p.post));
    PlainCat(v + e + Join(p.rel, '.') + RenderPre(p.pre) + RenderPost(p.post), RenderDev(p.dev));
    PlainCat(v + e + Join(p.rel, '.') + RenderPre(p.pre) + RenderPost(p.post) + RenderDev(p.dev), RenderLocal(p.local));
  }

  lemma PlainCat(a: string, b: string)
    requires Plain(a) && Plain(b)
    ensures Plain(a + b)
  {
  }

  lemma PlainPre(pre: Option<Pre>)
    requires pre.Some? ==> PreWF(pre.value)
    ensures Plain(RenderPre(pre))
  {
    hide Marker;
    if pre.Some? {
      PlainMarker(pre.value.sep1, pre.value.letter, pre.value.sep2, pre.value.num);
    }
  }

  lemma PlainPost(post: Option<Post>)
    requires post.Some? ==> PostWF(post.value)
    ensures Plain(RenderPost(post))
  {
    hide Marker;
    if post.Some? && post.value.Explicit? {
      PlainMarker(post.value.sep1, post.value.letter, post.value.sep2, post.value.num);
    }
  }

  lemma PlainDev(dev: Option<Dev>)
    requires dev.Some? ==> DevWF(dev.value)
    ensures Plain(RenderDev(dev))
  {
    hide Marker;
    if dev.Some? {
      PlainMarker(dev.value.sep1, "dev", dev.value.sep2, dev.value.num);
    }
  }

  lemma PlainLocal(local: string)
    requires local == "" || LocalOK(local)
    ensures Plain(RenderLocal(local))
  {
  }

  lemma PlainGroups(p: Parts)
    requires PartsWF(p)
    ensures Plain(RenderPre(p.pre)) && Plain(RenderPost(p.post)) && Plain(RenderDev(p.dev))
    ensures Plain(RenderLocal(p.local))
  {
    hide Plain, RenderPre, RenderPost, RenderDev, RenderLocal, PreWF, PostWF, DevWF, LocalOK;
    PlainPre(p.pre);
    PlainPost(p.post);
    PlainDev(p.dev);
    PlainLocal(p.local);
  }

  /** Taking the key of a key gives the key: the spelling it settles on is stable. */
  lemma KeyIdempotent(v: string)
    requires Pep440Key(v).Some?
    ensures Pep440Key(Pep440Key(v).value) == Pep440Key(v)
  {
    var p := Parse(Fold(v)).value;
    ParseSound(Fold(v));
    NormOfIsWF(p);
    var n := NormOf(p).value;
    KeyParses(n);
    PartsOfFits(n);
    PartsOfBack(n);
    KeyIsRender(n);
    PlainRender(PartsOf(n));
    PlainFolds(KeyString(n));
    hide Parse, Fold, NormOf, KeyString, PartsOf, Render, PartsWF, NormWF, Plain, Greedy;
  }

  // ---------------------------------------------------------------- sameness

  /** What a version string means to the comparison: a normal form, or just its folded text. */
  datatype Meaning = Release(norm: Norm) | Literal(text: string)

  function MeaningOf(v: string): Meaning {
    var n := NormOfVersion(v);
    if n.None? then Literal(Fold(v)) else Release(n.value)
  }

  lemma NormOfVersionWF(v: string)
    requires NormOfVersion(v).Some?
    ensures NormWF(NormOfVersion(v).value)
  {
    ParseSound(Fold(v));
    NormOfIsWF(Parse(Fold(v)).value);
    hide Parse, Fold, NormOf, PartsWF, NormWF, Greedy, Render;
  }

  lemma MeaningOfFold(a: string, b: string)
    requires Fold(a) == Fold(b)
    ensures MeaningOf(a) == MeaningOf(b)
  {
  }

  /** Two strings are the same version exactly when they mean the same: every component of
      the normal form agrees, or neither has one and the folded texts agree. Sameness is
      therefore an equivalence relation on all strings, fallback included. */
  lemma SameIffMeaning(a: string, b: string)
    ensures Pep440Same(a, b) <==> MeaningOf(a) == MeaningOf(b)
  {
    SameUnfolds(a, b);
    KeysEqual(a, b);
    if Fold(a) == Fold(b) { MeaningOfFold(a, b); }
    hide NormOfVersion, KeyString, Fold, Pep440Same;
  }

  lemma SameUnfolds(a: string, b: string)
    ensures var m, n := NormOfVersion(a), NormOfVersion(b);
            Pep440Same(a, b) <==>
            if m.Some? && n.Some? then KeyString(m.value) == KeyString(n.value) else Fold(a) == Fold(b)
  {
    FoldEqual(a, b);
    hide NormOfVersion, KeyString, Fold, EqualFold, TrimSpace;
  }

  lemma KeysEqual(a: string, b: string)
    ensures var m, n := NormOfVersion(a), NormOfVersion(b);
            m.Some? && n.Some? && KeyString(m.value) == KeyString(n.value) ==> m == n
  {
    var m, n := NormOfVersion(a), NormOfVersion(b);
    hide *;
    if m.Some? && n.Some? && KeyString(m.value) == KeyString(n.value) {
      NormOfVersionWF(a);
      NormOfVersionWF(b);
      KeyInjective(m.value, n.value);
    }
  }

  lemma FoldEqual(a: string, b: string)
    ensures EqualFold(TrimSpace(a), TrimSpace(b)) <==> Fold(a) == Fold(b)
  {
  }

  lemma SameIsEquivalence(a: string, b: string, c: string)
    ensures Pep440Same(a, a)
    ensures Pep440Same(a, b) ==> Pep440Same(b, a)
    ensures Pep440Same(a, b) && Pep440Same(b, c) ==> Pep440Same(a, c)
  {
    SameIffMeaning(a, a);
    SameIffMeaning(a, b);
    SameIffMeaning(b, a);
    SameIffMeaning(b, c);
    SameIffMeaning(a, c);
    hide *;
  }
}
