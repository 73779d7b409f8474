/** pep440.go: the PEP 440 comparison key. The regular expression becomes a left-to-right
    parser, proved to accept exactly the strings the expression describes. */
module Pep440Grammar {
  import opened GoStrings

  // ---------------------------------------------------------------- the parts of a version

  /** An absent group is the empty string, as FindStringSubmatch reports it. */
  datatype Pre = Pre(sep1: string, letter: string, sep2: string, num: string)
  datatype Post = Implicit(num: string) | Explicit(sep1: string, letter: string, sep2: string, num: string)
  datatype Dev = Dev(sep1: string, sep2: string, num: string)

  datatype Parts = Parts(
    v: bool, epoch: string, rel: seq<string>, pre: Option<Pre>, post: Option<Post>, dev: Option<Dev>, local: string)

  predicate IsSep(c: char) {
    c == '-' || c == '_' || c == '.'
  }

  predicate OptSep(s: string) {
    s == "" || (|s| == 1 && IsSep(s[0]))
  }

  predicate Digits(s: string) {
    s != "" && AllDigits(s)
  }

  predicate LocalChar(c: char) {
    'a' <= c <= 'z' || IsDigit(c)
  }

  /** Runs of letters and digits joined by single separators. */
  predicate LocalOK(s: string) {
    && s != "" && LocalChar(s[0]) && LocalChar(s[|s| - 1])
    && (forall i :: 0 <= i < |s| ==> LocalChar(s[i]) || IsSep(s[i]))
    && (forall i :: 0 < i < |s| ==> LocalChar(s[i - 1]) || LocalChar(s[i]))
  }

  predicate IsPreLetter(l: string) {
    l == "alpha" || l == "a" || l == "beta" || l == "b" || l == "preview" || l == "pre" || l == "c" || l == "rc"
  }

  predicate IsPostLetter(l: string) {
    l == "post" || l == "rev" || l == "r"
  }

  predicate PreWF(p: Pre) {
    OptSep(p.sep1) && OptSep(p.sep2) && AllDigits(p.num) && IsPreLetter(p.letter)
  }

  predicate PostWF(p: Post) {
    match p
    case Implicit(num) => Digits(num)
    case Explicit(sep1, letter, sep2, num) =>
      OptSep(sep1) && OptSep(sep2) && AllDigits(num) && IsPostLetter(letter)
  }

  predicate DevWF(d: Dev) {
    OptSep(d.sep1) && OptSep(d.sep2) && AllDigits(d.num)
  }

  /** What the regular expression's groups may hold. */
  predicate PartsWF(p: Parts) {
    && AllDigits(p.epoch)
    && p.rel != [] && (forall k :: 0 <= k < |p.rel| ==> Digits(p.rel[k]))
    && (p.pre.Some? ==> PreWF(p.pre.value))
    && (p.post.Some? ==> PostWF(p.post.value))
    && (p.dev.Some? ==> DevWF(p.dev.value))
    && (p.local == "" || LocalOK(p.local))
  }

  /** Separator, letters, separator, number: the shape of the pre, post and dev groups. */
  function Marker(sep1: string, letter: string, sep2: string, num: string): string {
    sep1 + (letter + (sep2 + num))
  }

  function RenderPre(p: Option<Pre>): string {
    if p.None? then "" else Marker(p.value.sep1, p.value.letter, p.value.sep2, p.value.num)
  }

  function RenderPost(p: Option<Post>): string {
    if p.None? then "" else
    match p.value
    case Implicit(num) => "-" + num
    case Explicit(sep1, letter, sep2, num) => Marker(sep1, letter, sep2, num)
  }

  function RenderDev(d: Option<Dev>): string {
    if d.None? then "" else Marker(d.value.sep1, "dev", d.value.sep2, d.value.num)
  }

  function RenderLocal(local: string): string {
    if local == "" then "" else "+" + local
  }

  function AfterPost(p: Parts): string {
    RenderDev(p.dev) + RenderLocal(p.local)
  }

  function AfterPre(p: Parts): string {
    RenderPost(p.post) + AfterPost(p)
  }

  function AfterRelease(p: Parts): string {
    RenderPre(p.pre) + AfterPre(p)
  }

  function AfterEpoch(p: Parts): string {
    Join(p.rel, '.') + AfterRelease(p)
  }

  function AfterV(p: Parts): string {
    (if p.epoch == "" then "" else p.epoch + ['!']) + AfterEpoch(p)
  }

  /** The string the groups were cut from. */
  function Render(p: Parts): string {
    (if p.v then "v" else "") + AfterV(p)
  }

  // ---------------------------------------------------------------- scanning

  predicate StartsDigit(s: string) {
    s != "" && IsDigit(s[0])
  }

  predicate StartsSep(s: string) {
    s != "" && IsSep(s[0])
  }

  predicate Starts(s: string, p: string) {
    |p| <= |s| && forall i :: 0 <= i < |p| ==> s[i] == p[i]
  }

  function TakeDigits(s: string): (r: (string, string))
    ensures r.0 + r.1 == s && AllDigits(r.0) && !StartsDigit(r.1)
  {
    if StartsDigit(s) then
      var t := TakeDigits(s[1..]);
      assert s == [s[0]] + (t.0 + t.1);
      assert forall i :: 0 <= i < |t.0| ==> ([s[0]] + t.0)[i + 1] == t.0[i];
      ([s[0]] + t.0, t.1)
    else ("", s)
  }

  function TakeSep(s: string): (r: (string, string))
    ensures r.0 + r.1 == s && OptSep(r.0)
    ensures r.0 == "" ==> !StartsSep(r.1)
  {
    if StartsSep(s) then
      assert s == s[..1] + s[1..];
      (s[..1], s[1..])
    else ("", s)
  }

  /** The optional separator and number after a pre, post or dev letter, greedily. */
  function TakeTail(s: string): (r: (string, string, string))
    ensures r.0 + r.1 + r.2 == s
    ensures OptSep(r.0) && AllDigits(r.1) && !StartsDigit(r.2)
    ensures r.0 == "" && r.1 == "" ==> !StartsSep(r.2)
  {
    var (sep, r1) := TakeSep(s);
    var (num, r2) := TakeDigits(r1);
    (sep, num, r2)
  }

  function PreLetter(s: string): string {
    if Starts(s, "alpha") then "alpha" else if Starts(s, "a") then "a"
    else if Starts(s, "beta") then "beta" else if Starts(s, "b") then "b"
    else if Starts(s, "preview") then "preview" else if Starts(s, "pre") then "pre"
    else if Starts(s, "c") then "c" else if Starts(s, "rc") then "rc" else ""
  }

  function PostLetter(s: string): string {
    if Starts(s, "post") then "post" else if Starts(s, "rev") then "rev" else if Starts(s, "r") then "r" else ""
  }

  function DevLetter(s: string): string {
    if Starts(s, "dev") then "dev" else ""
  }

  function TakeRelease(s: string): Option<(seq<string>, string)>
    decreases |s|
  {
    var (d, r) := TakeDigits(s);
    if d == "" then None
    else if r != "" && r[0] == '.' && StartsDigit(r[1..]) then
      assert |r| < |s|;
      var t := TakeRelease(r[1..]);
      if t.None? then None else Some(([d] + t.value.0, t.value.1))
    else Some(([d], r))
  }

  function TakePre(s: string): (Option<Pre>, string) {
    var (sep1, r1) := TakeSep(s);
    var l := PreLetter(r1);
    if l == "" || |r1| < |l| then (None, s)
    else
      var (sep2, num, rest) := TakeTail(r1[|l|..]);
      (Some(Pre(sep1, l, sep2, num)), rest)
  }

  function TakePost(s: string): (Option<Post>, string) {
    if |s| > 1 && s[0] == '-' && IsDigit(s[1]) then
      var (num, rest) := TakeDigits(s[1..]);
      (Some(Implicit(num)), rest)
    else
      var (sep1, r1) := TakeSep(s);
      var l := PostLetter(r1);
      if l == "" || |r1| < |l| then (None, s)
      else
        var (sep2, num, rest) := TakeTail(r1[|l|..]);
        (Some(Explicit(sep1, l, sep2, num)), rest)
  }

  function TakeDev(s: string): (Option<Dev>, string) {
    var (sep1, r1) := TakeSep(s);
    var l := DevLetter(r1);
    if l == "" || |r1| < |l| then (None, s)
    else
      var (sep2, num, rest) := TakeTail(r1[|l|..]);
      (Some(Dev(sep1, sep2, num)), rest)
  }

  function TakeLocal(s: string): Option<string> {
    if s == "" then Some("")
    else if s[0] == '+' && LocalOK(s[1..]) then Some(s[1..])
    else None
  }

  function ParseEpoch(s: string): (string, string) {
    var (d, r) := TakeDigits(s);
    if d != "" && r != "" && r[0] == '!' then (d, r[1..]) else ("", s)
  }

  /** The groups the regular expression captures, or None when it does not match. The
      argument is trimmed and lower-cased already. */
  function Parse(s: string): Option<Parts> {
    var v := s != "" && s[0] == 'v';
    var (epoch, s2) := ParseEpoch(if v then s[1..] else s);
    var rel := TakeRelease(s2);
    if rel.None? then None
    else
      var (pre, s3) := TakePre(rel.value.1);
      var (post, s4) := TakePost(s3);
      var (dev, s5) := TakeDev(s4);
      var local := TakeLocal(s5);
      if local.None? then None
      else Some(Parts(v, epoch, rel.value.0, pre, post, dev, local.value))
  }

  /** Greedy matching never leaves behind a separator a group could have taken. */
  predicate Greedy(p: Parts) {
    && (p.pre.Some? && p.pre.value.sep2 == "" && p.pre.value.num == "" ==> !StartsSep(AfterPre(p)))
    && (p.post.Some? && p.post.value.Explicit? && p.post.value.sep2 == "" && p.post.value.num == "" ==>
          !StartsSep(AfterPost(p)))
  }

  // ---------------------------------------------------------------- soundness

  lemma MarkerRest(sep1: string, letter: string, sep2: string, num: string, rest: string)
    ensures Marker(sep1, letter, sep2, num) + rest == sep1 + (letter + (sep2 + num + rest))
  {
  }

  lemma LetterRest(letter: string, rest: string)
    ensures (letter + rest)[|letter|..] == rest && Starts(letter + rest, letter)
  {
  }

  lemma StartsSplit(s: string, l: string)
    requires Starts(s, l)
    ensures s == l + s[|l|..]
  {
  }

  lemma PreLetterStarts(s: string)
    ensures Starts(s, PreLetter(s)) && (PreLetter(s) != "" ==> IsPreLetter(PreLetter(s)))
  {
  }

  lemma PostLetterStarts(s: string)
    ensures Starts(s, PostLetter(s)) && (PostLetter(s) != "" ==> IsPostLetter(PostLetter(s)))
  {
  }

  lemma MarkerSound(s: string, l: string)
    requires Starts(TakeSep(s).1, l)
    ensures var (sep1, r1) := TakeSep(s);
            var (sep2, num, rest) := TakeTail(r1[|l|..]);
            Marker(sep1, l, sep2, num) + rest == s
  {
    var (sep1, r1) := TakeSep(s);
    var (sep2, num, rest) := TakeTail(r1[|l|..]);
    hide *;
    MarkerRest(sep1, l, sep2, num, rest);
    StartsSplit(r1, l);
  }

  lemma TakePreSound(s: string)
    ensures var r := TakePre(s);
            && RenderPre(r.0) + r.1 == s
            && (r.0.Some? ==> PreWF(r.0.value) && !StartsDigit(r.1))
            && (r.0.Some? && r.0.value.sep2 == "" && r.0.value.num == "" ==> !StartsSep(r.1))
  {
    var r1 := TakeSep(s).1;
    PreLetterStarts(r1);
    MarkerSound(s, PreLetter(r1));
    hide PreLetter, TakeSep, TakeTail, Marker;
  }

  lemma TakePostSound(s: string)
    ensures var r := TakePost(s);
            && RenderPost(r.0) + r.1 == s
            && (r.0.Some? ==> PostWF(r.0.value) && !StartsDigit(r.1))
            && (r.0.Some? && r.0.value.Explicit? && r.0.value.sep2 == "" && r.0.value.num == "" ==> !StartsSep(r.1))
  {
    if |s| > 1 && s[0] == '-' && IsDigit(s[1]) {
      assert s == "-" + s[1..];
    } else {
      var r1 := TakeSep(s).1;
      PostLetterStarts(r1);
      MarkerSound(s, PostLetter(r1));
      hide PostLetter, TakeSep, TakeTail, Marker;
    }
  }

  lemma TakeDevSound(s: string)
    ensures var r := TakeDev(s); RenderDev(r.0) + r.1 == s && (r.0.Some? ==> DevWF(r.0.value))
  {
    var r1 := TakeSep(s).1;
    MarkerSound(s, DevLetter(r1));
    hide TakeSep, TakeTail, Marker;
  }

  lemma {:induction false} TakeReleaseSound(s: string)
    requires TakeRelease(s).Some?
    ensures var (rel, rest) := TakeRelease(s).value;
            && rel != [] && (forall k :: 0 <= k < |rel| ==> Digits(rel[k]))
            && Join(rel, '.') + rest == s
    decreases |s|
  {
    var (d, r) := TakeDigits(s);
    if r != "" && r[0] == '.' && StartsDigit(r[1..]) {
      var t := TakeRelease(r[1..]).value;
      TakeReleaseSound(r[1..]);
      assert TakeRelease(s).value == ([d] + t.0, t.1);
      hide Join, TakeDigits, TakeRelease, StartsDigit;
      JoinCons(d, t.0, '.');
      assert s == d + ['.'] + (Join(t.0, '.') + t.1);
    }
  }

  lemma ParseEpochSound(s: string)
    ensures var r := ParseEpoch(s);
            (if r.0 == "" then "" else r.0 + ['!']) + r.1 == s && AllDigits(r.0)
  {
    var (d, r) := TakeDigits(s);
    if d != "" && r != "" && r[0] == '!' {
      assert r == ['!'] + r[1..];
    }
  }

  lemma TakeLocalSound(s: string)
    ensures var r := TakeLocal(s); r.Some? ==> RenderLocal(r.value) == s && (r.value == "" || LocalOK(r.value))
  {
    if s != "" { assert s == [s[0]] + s[1..]; }
  }

  /** The text left after each group of a successful parse. */
  lemma ParseTrace(s: string) returns (s1: string, s2: string, s3: string, s4: string, s5: string, s6: string)
    requires Parse(s).Some?
    ensures var p := Parse(s).value;
            && s == (if p.v then "v" else "") + s1
            && ParseEpoch(s1) == (p.epoch, s2) && TakeRelease(s2) == Some((p.rel, s3))
            && TakePre(s3) == (p.pre, s4) && TakePost(s4) == (p.post, s5)
            && TakeDev(s5) == (p.dev, s6) && TakeLocal(s6) == Some(p.local)
  {
    hide TakeRelease, TakePre, TakePost, TakeDev, TakeLocal, ParseEpoch;
    var p := Parse(s).value;
    s1 := if p.v then s[1..] else s;
    s2 := ParseEpoch(s1).1;
    s3 := TakeRelease(s2).value.1;
    s4 := TakePre(s3).1;
    s5 := TakePost(s4).1;
    s6 := TakeDev(s5).1;
    assert s == (if p.v then "v" else "") + s1;
  }

  lemma GroupsFit(p: Parts, s4: string, s5: string)
    requires AllDigits(p.epoch) && p.rel != [] && forall k :: 0 <= k < |p.rel| ==> Digits(p.rel[k])
    requires p.pre.Some? ==> PreWF(p.pre.value)
    requires p.post.Some? ==> PostWF(p.post.value)
    requires p.dev.Some? ==> DevWF(p.dev.value)
    requires p.local == "" || LocalOK(p.local)
    requires p.pre.Some? && p.pre.value.sep2 == "" && p.pre.value.num == "" ==> !StartsSep(s4)
    requires p.post.Some? && p.post.value.Explicit? && p.post.value.sep2 == "" && p.post.value.num == "" ==>
               !StartsSep(s5)
    requires AfterPre(p) == s4 && AfterPost(p) == s5
    ensures PartsWF(p) && Greedy(p)
  {
    hide AfterPre, AfterPost, LocalOK, PreWF, PostWF, DevWF, StartsSep, AllDigits;
  }

  /** What is captured is well formed, greedy, and spells the input. */
  lemma ParseSound(s: string)
    requires Parse(s).Some?
    ensures PartsWF(Parse(s).value) && Greedy(Parse(s).value) && Render(Parse(s).value) == s
  {
    var p := Parse(s).value;
    var s1, s2, s3, s4, s5, s6 := ParseTrace(s);
    hide *;
    ParseEpochSound(s1);
    TakeReleaseSound(s2);
    TakePreSound(s3);
    TakePostSound(s4);
    TakeDevSound(s5);
    TakeLocalSound(s6);
    SpellsInput(p, s, s1, s2, s3, s4, s5, s6);
    GroupsFit(p, s4, s5);
  }

  lemma SpellsInput(p: Parts, s: string, s1: string, s2: string, s3: string, s4: string, s5: string, s6: string)
    requires s == (if p.v then "v" else "") + s1
    requires s1 == (if p.epoch == "" then "" else p.epoch + ['!']) + s2
    requires s2 == Join(p.rel, '.') + s3 && s3 == RenderPre(p.pre) + s4 && s4 == RenderPost(p.post) + s5
    requires s5 == RenderDev(p.dev) + s6 && s6 == RenderLocal(p.local)
    ensures Render(p) == s && AfterPre(p) == s4 && AfterPost(p) == s5
  {
    hide Join, RenderPre, RenderPost, RenderDev, RenderLocal;
  }

  // ---------------------------------------------------------------- completeness

  lemma {:induction false} TakeDigitsOf(num: string, rest: string)
    requires AllDigits(num) && !StartsDigit(rest)
    ensures TakeDigits(num + rest) == (num, rest)
  {
    if num == "" {
      assert num + rest == rest;
    } else {
      assert (num + rest)[1..] == num[1..] + rest;
      TakeDigitsOf(num[1..], rest);
      assert num == [num[0]] + num[1..];
    }
  }

  lemma TakeSepOf(sep: string, rest: string)
    requires OptSep(sep) && (sep == "" ==> !StartsSep(rest))
    ensures TakeSep(sep + rest) == (sep, rest)
  {
    if sep == "" {
      assert sep + rest == rest;
    } else {
      assert (sep + rest)[1..] == rest && (sep + rest)[..1] == sep;
    }
  }

  lemma TakeTailOf(sep: string, num: string, rest: string)
    requires OptSep(sep) && AllDigits(num) && !StartsDigit(rest)
    requires sep == "" && num == "" ==> !StartsSep(rest)
    ensures TakeTail(sep + num + rest) == (sep, num, rest)
  {
    assert sep + num + rest == sep + (num + rest);
    assert num != "" ==> (num + rest)[0] == num[0] && IsDigit(num[0]);
    assert num == "" ==> num + rest == rest;
    TakeSepOf(sep, num + rest);
    TakeDigitsOf(num, rest);
  }

  lemma {:induction false} TakeReleaseOf(rel: seq<string>, rest: string)
    requires rel != [] && forall k :: 0 <= k < |rel| ==> Digits(rel[k])
    requires !StartsDigit(rest) && !(|rest| > 1 && rest[0] == '.' && IsDigit(rest[1]))
    ensures TakeRelease(Join(rel, '.') + rest) == Some((rel, rest))
  {
    if |rel| == 1 {
      TakeDigitsOf(rel[0], rest);
      assert Join(rel, '.') + rest == rel[0] + rest;
      assert rel == [rel[0]];
    } else {
      TakeReleaseOf(rel[1..], rest);
      TakeReleaseStep(rel[0], rel[1..], rest);
      assert rel == [rel[0]] + rel[1..];
    }
  }

  lemma TakeReleaseStep(d: string, rel: seq<string>, rest: string)
    requires Digits(d) && rel != [] && Digits(rel[0])
    requires TakeRelease(Join(rel, '.') + rest) == Some((rel, rest))
    ensures TakeRelease(Join([d] + rel, '.') + rest) == Some(([d] + rel, rest))
  {
    var more := Join(rel, '.') + rest;
    JoinStarts(rel, rest);
    JoinCons(d, rel, '.');
    hide Join;
    assert Join([d] + rel, '.') + rest == d + (['.'] + more);
    assert (['.'] + more)[1..] == more;
    TakeDigitsOf(d, ['.'] + more);
  }

  lemma JoinStarts(rel: seq<string>, rest: string)
    requires rel != [] && Digits(rel[0])
    ensures StartsDigit(Join(rel, '.') + rest) && (Join(rel, '.') + rest)[0] == rel[0][0]
  {
  }

  /** The text a dev or local group can start with, so that post and pre leave it alone. */
  predicate DevOrLocal(s: string) {
    || s == "" || s[0] == '+' || s[0] == 'd'
    || (IsSep(s[0]) && |s| > 1 && s[1] == 'd')
  }

  lemma AfterPostShape(p: Parts)
    requires PartsWF(p)
    ensures DevOrLocal(AfterPost(p))
    ensures TakeDev(AfterPost(p)) == (p.dev, RenderLocal(p.local))
  {
    var l := RenderLocal(p.local);
    assert l == "" || l[0] == '+';
    hide RenderLocal, TakeDev, DevOrLocal, DevWF;
    if p.dev.None? {
      assert AfterPost(p) == l;
      NoDev(l);
    } else {
      TakeDevOf(p.dev.value, l);
    }
  }

  lemma NoDev(l: string)
    requires l == "" || l[0] == '+'
    ensures DevOrLocal(l) && TakeDev(l) == (None, l)
  {
  }

  lemma TakeDevOf(d: Dev, rest: string)
    requires DevWF(d) && (rest == "" || rest[0] == '+')
    ensures var s := RenderDev(Some(d)) + rest; TakeDev(s) == (Some(d), rest) && DevOrLocal(s)
  {
    var tail := d.sep2 + d.num + rest;
    var r := "dev" + tail;
    LetterRest("dev", tail);
    assert r[0] == 'd' && DevLetter(r) == "dev";
    TakeTailOf(d.sep2, d.num, rest);
    TakeSepOf(d.sep1, r);
    MarkerRest(d.sep1, "dev", d.sep2, d.num, rest);
    var s := d.sep1 + r;
    assert |s| > 1 && d.sep1 != "" ==> s[1] == r[0];
    hide Starts, DevLetter, Marker, TakeTail, TakeSep;
  }

  lemma NoLetter(r: string)
    requires r == "" || r[0] == '+' || r[0] == 'd'
    ensures PostLetter(r) == "" && PreLetter(r) == ""
  {
  }

  lemma PostLeavesDev(s: string)
    requires DevOrLocal(s)
    ensures TakePost(s) == (None, s) && TakePre(s) == (None, s)
  {
    NoLetter(TakeSep(s).1);
    hide PostLetter, PreLetter;
  }

  predicate PostHead(r: string) {
    r != "" && ((r[0] == 'p' && |r| > 1 && r[1] == 'o') || (r[0] == 'r' && (|r| == 1 || r[1] != 'c')))
  }

  /** The text a post group can start with, so that pre leaves it alone. */
  predicate PostText(s: string) {
    || (|s| > 1 && s[0] == '-' && IsDigit(s[1]))
    || PostHead(TakeSep(s).1)
  }

  lemma NoPreLetter(r: string)
    requires PostHead(r) || StartsDigit(r)
    ensures PreLetter(r) == ""
  {
  }

  lemma PreLeavesPost(s: string)
    requires PostText(s)
    ensures TakePre(s) == (None, s)
  {
    var r1 := TakeSep(s).1;
    assert PostHead(r1) || IsDigit(r1[0]);
    NoPreLetter(r1);
    hide PreLetter;
  }

  lemma PostLetterOf(letter: string, tail: string)
    requires IsPostLetter(letter)
    requires tail == "" || (tail[0] != 'e' && tail[0] != 'c')
    ensures PostLetter(letter + tail) == letter && PostHead(letter + tail)
  {
    assert letter == "r" && tail != "" ==> (letter + tail)[1] == tail[0];
  }

  lemma TakePostOf(p: Post, rest: string)
    requires PostWF(p) && DevOrLocal(rest)
    requires p.Explicit? && p.sep2 == "" && p.num == "" ==> !StartsSep(rest)
    ensures TakePost(RenderPost(Some(p)) + rest) == (Some(p), rest)
    ensures PostText(RenderPost(Some(p)) + rest)
  {
    match p
    case Implicit(num) =>
      var s := RenderPost(Some(p)) + rest;
      assert s[1..] == num + rest;
      TakeDigitsOf(num, rest);
    case Explicit(sep1, letter, sep2, num) =>
      TakeExplicitOf(sep1, letter, sep2, num, rest);
  }

  lemma TakeExplicitOf(sep1: string, letter: string, sep2: string, num: string, rest: string)
    requires PostWF(Explicit(sep1, letter, sep2, num)) && DevOrLocal(rest)
    requires sep2 == "" && num == "" ==> !StartsSep(rest)
    ensures var s := Marker(sep1, letter, sep2, num) + rest;
            TakePost(s) == (Some(Explicit(sep1, letter, sep2, num)), rest) && PostText(s)
  {
    var tail := sep2 + num + rest;
    assert tail != "" ==> tail[0] != 'e' && tail[0] != 'c';
    var r := letter + tail;
    PostLetterOf(letter, tail);
    assert !IsDigit(r[0]) && !StartsSep(r);
    TakeTailOf(sep2, num, rest);
    MarkerRest(sep1, letter, sep2, num, rest);
    TakeSepOf(sep1, r);
    LetterRest(letter, tail);
    var s := sep1 + r;
    assert |s| > 1 && sep1 != "" ==> s[1] == r[0];
    assert !(|s| > 1 && s[0] == '-' && IsDigit(s[1]));
    hide PostLetter, PostHead, Marker, TakeTail, TakeSep, DevOrLocal, IsDigit, IsPostLetter;
  }

  lemma PreLetterOf(letter: string, tail: string)
    requires IsPreLetter(letter)
    requires tail == "" || (tail[0] != 'l' && tail[0] != 'e' && tail[0] != 'v')
    ensures PreLetter(letter + tail) == letter && !StartsSep(letter + tail)
  {
    var s := letter + tail;
    assert forall i :: 0 <= i < |letter| ==> s[i] == letter[i];
    assert tail != "" ==> s[|letter|] == tail[0];
    assert Starts(s, "alpha") ==> s[1] == "alpha"[1];
    assert Starts(s, "beta") ==> s[1] == "beta"[1];
    assert Starts(s, "preview") ==> s[3] == "preview"[3];
    assert Starts(s, "rc") ==> s[0] == "rc"[0];
  }

  lemma TakePreOf(p: Pre, rest: string)
    requires PreWF(p) && (DevOrLocal(rest) || PostText(rest)) && !StartsDigit(rest)
    requires rest == "" || (rest[0] != 'l' && rest[0] != 'e' && rest[0] != 'v')
    requires p.sep2 == "" && p.num == "" ==> !StartsSep(rest)
    ensures TakePre(RenderPre(Some(p)) + rest) == (Some(p), rest)
  {
    var tail := p.sep2 + p.num + rest;
    assert tail != "" ==> tail[0] != 'l' && tail[0] != 'e' && tail[0] != 'v';
    PreLetterOf(p.letter, tail);
    assert RenderPre(Some(p)) == Marker(p.sep1, p.letter, p.sep2, p.num);
    TakeTailOf(p.sep2, p.num, rest);
    hide PreLetter, RenderPre, TakeTail, DevOrLocal, PostText;
    MarkerRest(p.sep1, p.letter, p.sep2, p.num, rest);
    TakeSepOf(p.sep1, p.letter + tail);
    LetterRest(p.letter, tail);
  }

  lemma TextHead(s: string)
    requires DevOrLocal(s) || PostText(s)
    ensures !StartsDigit(s) && (s == "" || (s[0] != 'l' && s[0] != 'e' && s[0] != 'v' && s[0] != '!'))
    ensures !(|s| > 1 && s[0] == '.' && IsDigit(s[1]))
  {
    var r := TakeSep(s).1;
    assert StartsSep(s) && |s| > 1 ==> s[1] == r[0];
  }

  lemma AfterPreShape(p: Parts)
    requires PartsWF(p) && Greedy(p)
    ensures TakePost(AfterPre(p)) == (p.post, AfterPost(p))
    ensures DevOrLocal(AfterPre(p)) || PostText(AfterPre(p))
    ensures TakePre(AfterRelease(p)) == (p.pre, AfterPre(p))
  {
    AfterPostShape(p);
    NothingRenders(p);
    hide TakePost, TakePre, TakeDev, RenderPost, RenderPre, RenderDev, RenderLocal, AfterPost, PostText, DevOrLocal,
      StartsDigit, StartsSep, PreWF, PostWF, DevWF;
    if p.post.None? {
      PostLeavesDev(AfterPost(p));
    } else {
      TakePostOf(p.post.value, AfterPost(p));
    }
    if p.pre.None? {
      if DevOrLocal(AfterPre(p)) { PostLeavesDev(AfterPre(p)); } else { PreLeavesPost(AfterPre(p)); }
    } else {
      TextHead(AfterPre(p));
      TakePreOf(p.pre.value, AfterPre(p));
    }
  }

  lemma NothingRenders(p: Parts)
    ensures p.post.None? ==> AfterPre(p) == AfterPost(p)
    ensures p.pre.None? ==> AfterRelease(p) == AfterPre(p)
  {
  }

  /** Text after the release starts with no digit, no dotted number, no '!'. */
  lemma AfterReleaseShape(p: Parts)
    requires PartsWF(p) && Greedy(p)
    ensures var s := AfterRelease(p);
            !StartsDigit(s) && !(|s| > 1 && s[0] == '.' && IsDigit(s[1])) && (s == "" || s[0] != '!')
  {
    AfterPreShape(p);
    TextHead(AfterPre(p));
    NothingRenders(p);
    if p.pre.Some? {
      PreHead(p.pre.value, AfterPre(p));
    }
  }

  lemma PreHead(p: Pre, rest: string)
    requires PreWF(p)
    ensures var s := RenderPre(Some(p)) + rest;
            !StartsDigit(s) && !(|s| > 1 && s[0] == '.' && IsDigit(s[1])) && (s == "" || s[0] != '!')
  {
    var s := RenderPre(Some(p)) + rest;
    var tail := p.sep2 + p.num + rest;
    MarkerRest(p.sep1, p.letter, p.sep2, p.num, rest);
    assert !IsDigit(p.letter[0]) && p.letter[0] != '.' && p.letter[0] != '!';
    if p.sep1 == "" {
      assert s[0] == p.letter[0];
    } else {
      assert s[0] == p.sep1[0] && s[1] == p.letter[0];
    }
  }

  lemma ParseEpochOf(p: Parts)
    requires PartsWF(p) && Greedy(p)
    ensures ParseEpoch(AfterV(p)) == (p.epoch, AfterEpoch(p))
    ensures StartsDigit(AfterV(p))
    ensures TakeRelease(AfterEpoch(p)) == Some((p.rel, AfterRelease(p)))
  {
    AfterReleaseShape(p);
    var rest, e := AfterRelease(p), AfterEpoch(p);
    assert e == Join(p.rel, '.') + rest;
    hide AfterRelease, AfterEpoch;
    TakeReleaseOf(p.rel, rest);
    hide TakeRelease, Join;
    if p.epoch != "" {
      assert AfterV(p) == p.epoch + (['!'] + e);
      TakeDigitsOf(p.epoch, ['!'] + e);
      assert (['!'] + e)[1..] == e;
      assert AfterV(p)[0] == p.epoch[0];
    } else {
      assert AfterV(p) == e;
      NoEpoch(p.rel, rest);
    }
  }

  lemma NoEpoch(rel: seq<string>, rest: string)
    requires rel != [] && forall k :: 0 <= k < |rel| ==> Digits(rel[k])
    requires !StartsDigit(rest) && (rest == "" || rest[0] != '!')
    ensures ParseEpoch(Join(rel, '.') + rest) == ("", Join(rel, '.') + rest)
    ensures StartsDigit(Join(rel, '.') + rest)
  {
    JoinStarts(rel, rest);
    var tail := JoinHead(rel, rest);
    hide Join;
    TakeDigitsOf(rel[0], tail);
  }

  lemma JoinHead(rel: seq<string>, rest: string) returns (tail: string)
    requires rel != [] && !StartsDigit(rest) && (rest == "" || rest[0] != '!')
    ensures Join(rel, '.') + rest == rel[0] + tail
    ensures !StartsDigit(tail) && (tail == "" || tail[0] != '!')
  {
    if |rel| == 1 {
      tail := rest;
    } else {
      var more := Join(rel[1..], '.');
      tail := ['.'] + (more + rest);
      assert Join(rel, '.') == rel[0] + ['.'] + more;
    }
  }

  lemma RenderAfterV(p: Parts)
    requires StartsDigit(AfterV(p))
    ensures var s := Render(p);
            s != "" && (p.v <==> s[0] == 'v') && (if p.v then s[1..] else s) == AfterV(p)
  {
    hide AfterV;
    assert p.v ==> Render(p)[1..] == AfterV(p);
    assert !p.v ==> Render(p) == AfterV(p);
  }

  lemma ParseSteps(s: string, p: Parts, s1: string, s2: string, s3: string, s4: string, s5: string, s6: string)
    requires s != "" && (p.v <==> s[0] == 'v') && (if p.v then s[1..] else s) == s1
    requires ParseEpoch(s1) == (p.epoch, s2) && TakeRelease(s2) == Some((p.rel, s3))
    requires TakePre(s3) == (p.pre, s4) && TakePost(s4) == (p.post, s5)
    requires TakeDev(s5) == (p.dev, s6) && TakeLocal(s6) == Some(p.local)
    ensures Parse(s) == Some(p)
  {
    hide TakeRelease, TakePre, TakePost, TakeDev, TakeLocal, ParseEpoch;
  }

  /** Rendering greedy parts and parsing gives the same parts back. */
  lemma ParseRender(p: Parts)
    requires PartsWF(p) && Greedy(p)
    ensures Parse(Render(p)) == Some(p)
  {
    assert TakeLocal(RenderLocal(p.local)) == Some(p.local) by {
      if p.local != "" { assert ("+" + p.local)[1..] == p.local; }
    }
    hide *;
    ParseEpochOf(p);
    AfterPreShape(p);
    AfterPostShape(p);
    RenderAfterV(p);
    ParseSteps(Render(p), p, AfterV(p), AfterEpoch(p), AfterRelease(p), AfterPre(p), AfterPost(p),
      RenderLocal(p.local));
  }

  function MoveDevSep(p: Parts): Parts {
    if p.post.Some? && p.post.value.Explicit? && p.post.value.sep2 == "" && p.post.value.num == "" &&
       p.dev.Some? then
      p.(post := Some(p.post.value.(sep2 := p.dev.value.sep1)), dev := Some(p.dev.value.(sep1 := "")))
    else p
  }

  function MoveSepToPre(p: Parts): Parts {
    if p.pre.None? || p.pre.value.sep2 != "" || p.pre.value.num != "" then p
    else
      match p.post
      case Some(Implicit(num)) => p.(pre := Some(p.pre.value.(sep2 := "-", num := num)), post := None)
      case Some(Explicit(sep1, _, _, _)) =>
        p.(pre := Some(p.pre.value.(sep2 := sep1)), post := Some(p.post.value.(sep1 := "")))
      case None =>
        if p.dev.Some? then
          p.(pre := Some(p.pre.value.(sep2 := p.dev.value.sep1)), dev := Some(p.dev.value.(sep1 := "")))
        else p
  }

  lemma MarkersMove(s1: string, l1: string, sep: string, l2: string, s2: string, num: string, rest: string)
    ensures Marker(s1, l1, "", "") + (Marker(sep, l2, s2, num) + rest) ==
            Marker(s1, l1, sep, "") + (Marker("", l2, s2, num) + rest)
  {
    assert "" + "" == "" && sep + "" == sep;
    MarkerRest(s1, l1, "", "", Marker(sep, l2, s2, num) + rest);
    MarkerRest(s1, l1, sep, "", Marker("", l2, s2, num) + rest);
    MarkerRest(sep, l2, s2, num, rest);
    MarkerRest("", l2, s2, num, rest);
    var x := l2 + (s2 + num + rest);
    hide Marker;
    assert "" + x == x;
    assert "" + "" + (sep + x) == sep + "" + x;
  }

  lemma MarkerNoSep(l: string, s2: string, num: string, rest: string)
    requires l != "" && !IsSep(l[0])
    ensures !StartsSep(Marker("", l, s2, num) + rest)
  {
    MarkerRest("", l, s2, num, rest);
  }

  predicate PostGreedy(p: Parts) {
    p.post.Some? && p.post.value.Explicit? && p.post.value.sep2 == "" && p.post.value.num == "" ==>
      !StartsSep(AfterPost(p))
  }

  predicate SameFront(p: Parts, q: Parts) {
    p.local == q.local && p.rel == q.rel && p.epoch == q.epoch && p.v == q.v
  }

  lemma MoveDevSepKeeps(p: Parts)
    requires PartsWF(p)
    ensures var q := MoveDevSep(p);
            PartsWF(q) && PostGreedy(q) && SameFront(p, q) && q.pre == p.pre && AfterPre(q) == AfterPre(p)
  {
    var q := MoveDevSep(p);
    var l := RenderLocal(p.local);
    if q != p {
      var o, d := p.post.value, p.dev.value;
      MarkersMove(o.sep1, o.letter, d.sep1, "dev", d.sep2, d.num, l);
      MarkerNoSep("dev", d.sep2, d.num, l);
      hide Marker;
    } else if p.dev.None? {
      assert AfterPost(p) == l;
    }
  }

  lemma MoveSepToPreKeeps(p: Parts)
    requires PartsWF(p) && PostGreedy(p)
    ensures var q := MoveSepToPre(p);
            PartsWF(q) && Greedy(q) && SameFront(p, q) && AfterRelease(q) == AfterRelease(p)
  {
    var q := MoveSepToPre(p);
    if q != p {
      var r, rest := p.pre.value, AfterPost(p);
      match p.post
      case Some(Implicit(num)) => MoveImplicit(r, num, rest);
      case Some(Explicit(sep1, letter, sep2, num)) =>
        MarkersMove(r.sep1, r.letter, sep1, letter, sep2, num, rest);
        MarkerNoSep(letter, sep2, num, rest);
        hide Marker, AfterPost;
      case None =>
        var d := p.dev.value;
        MarkersMove(r.sep1, r.letter, d.sep1, "dev", d.sep2, d.num, RenderLocal(p.local));
        MarkerNoSep("dev", d.sep2, d.num, RenderLocal(p.local));
        NothingRenders(p);
        NothingRenders(q);
        hide Marker;
    } else {
      StaysGreedy(p);
    }
  }

  lemma MoveImplicit(r: Pre, num: string, rest: string)
    requires r.sep2 == "" && r.num == ""
    ensures RenderPre(Some(r)) + (RenderPost(Some(Implicit(num))) + rest) ==
            RenderPre(Some(r.(sep2 := "-", num := num))) + (RenderPost(None) + rest)
  {
    MarkerRest(r.sep1, r.letter, "", "", "-" + num + rest);
    MarkerRest(r.sep1, r.letter, "-", num, rest);
    assert "" + "" + ("-" + num + rest) == "-" + num + rest;
    assert "" + rest == rest;
  }

  lemma PostLeadsPlain(p: Parts)
    requires PartsWF(p) && p.post.Some? && p.post.value.Explicit? && p.post.value.sep1 == ""
    ensures !StartsSep(AfterPre(p))
  {
    var o := p.post.value;
    hide AfterPost, Marker;
    MarkerNoSep(o.letter, o.sep2, o.num, AfterPost(p));
  }

  lemma DevLeadsPlain(p: Parts)
    requires PartsWF(p) && p.post.None? && p.dev.Some? && p.dev.value.sep1 == ""
    ensures !StartsSep(AfterPre(p))
  {
    var d := p.dev.value;
    hide RenderLocal, Marker;
    NothingRenders(p);
    MarkerNoSep("dev", d.sep2, d.num, RenderLocal(p.local));
  }

  lemma LocalLeadsPlain(p: Parts)
    requires PartsWF(p) && p.post.None? && p.dev.None?
    ensures !StartsSep(AfterPre(p))
  {
    NothingRenders(p);
    assert AfterPost(p) == RenderLocal(p.local);
  }

  lemma StaysGreedy(p: Parts)
    requires PartsWF(p) && PostGreedy(p) && MoveSepToPre(p) == p
    ensures Greedy(p)
  {
    hide PartsWF, StartsSep, AfterPre, AfterPost;
    if p.pre.Some? && p.pre.value.sep2 == "" && p.pre.value.num == "" {
      if p.post.Some? {
        PostLeadsPlain(p);
      } else if p.dev.Some? {
        DevLeadsPlain(p);
      } else {
        LocalLeadsPlain(p);
      }
    }
  }

  /** No string the regular expression describes is refused: taking each optional separator
      as soon as it can be taken never makes a match impossible. */
  lemma ParseComplete(p: Parts)
    requires PartsWF(p)
    ensures Parse(Render(p)).Some?
  {
    var q := MoveDevSep(p);
    MoveDevSepKeeps(p);
    MoveSepToPreKeeps(q);
    ParseRender(MoveSepToPre(q));
    hide Parse, AfterPre;
  }

  /** The parser accepts exactly the language of the regular expression. */
  lemma ParseExact(s: string)
    ensures Parse(s).Some? <==> exists p :: PartsWF(p) && Render(p) == s
  {
    hide Parse, Render, PartsWF;
    if Parse(s).Some? {
      ParseSound(s);
    }
    forall p | PartsWF(p) && Render(p) == s ensures Parse(s).Some? {
      ParseComplete(p);
    }
  }
}
