/** pep440.go's regular expression, written out as such: what it matches, by the usual meaning of
    regular expressions, is what the parser accepts. */
module Pep440Regex {
  import opened GoStrings
  import opened Pep440Grammar

  datatype Regex =
    | Lit(text: string)
    | Class(ranges: seq<(char, char)>)
    | Cat(first: Regex, second: Regex)
    | Alt(left: Regex, right: Regex)
    | Opt(body: Regex)
    | Star(body: Regex)

  /** A character class, as ranges: [a-z0-9] is two of them. */
  predicate InClass(c: char, ranges: seq<(char, char)>) {
    exists k :: 0 <= k < |ranges| && ranges[k].0 <= c <= ranges[k].1
  }

  ghost predicate Matches(re: Regex, s: string)
    decreases re, |s|
  {
    match re
    case Lit(text) => s == text
    case Class(ranges) => |s| == 1 && InClass(s[0], ranges)
    case Cat(a, b) => exists i :: 0 <= i <= |s| && Matches(a, s[..i]) && Matches(b, s[i..])
    case Alt(a, b) => Matches(a, s) || Matches(b, s)
    case Opt(a) => s == "" || Matches(a, s)
    case Star(a) => s == "" || exists i :: 0 < i <= |s| && Matches(a, s[..i]) && Matches(re, s[i..])
  }

  function Plus(re: Regex): Regex {
    Cat(re, Star(re))
  }

  // ---------------------------------------------------------------- the expression

  const DIGIT := [('0', '9')]
  const ALNUM := [('a', 'z'), ('0', '9')]
  const DASH := [('-', '-'), ('_', '_'), ('.', '.')]

  const NUMBER := Plus(Class(DIGIT))
  const SEP := Opt(Class(DASH))
  const RUN := Plus(Class(ALNUM))

  const EPOCH := Cat(NUMBER, Lit("!"))
  const RELEASE := Cat(NUMBER, Star(Cat(Lit("."), NUMBER)))

  /** One of these words. */
  function Words(words: seq<string>): Regex
    requires words != []
  {
    if |words| == 1 then Lit(words[0]) else Alt(Lit(words[0]), Words(words[1..]))
  }

  const PRE_LETTER := Words(["alpha", "a", "beta", "b", "preview", "pre", "c", "rc"])
  const POST_LETTER := Words(["post", "rev", "r"])

  /** Separator, letters, separator, number. */
  function Group(letters: Regex): Regex {
    Cat(SEP, Cat(letters, Cat(SEP, Opt(NUMBER))))
  }

  const POST := Alt(Cat(Lit("-"), NUMBER), Group(POST_LETTER))
  const LOCAL := Cat(RUN, Star(Cat(Class(DASH), RUN)))

  const VERSION :=
    Cat(Opt(Lit("v")), Cat(Opt(EPOCH), Cat(RELEASE, Cat(Opt(Group(PRE_LETTER)), Cat(Opt(POST),
    Cat(Opt(Group(Lit("dev"))), Opt(Cat(Lit("+"), LOCAL))))))))

  // ---------------------------------------------------------------- cutting and joining

  lemma CatOf(a: Regex, b: Regex, x: string, y: string)
    requires Matches(a, x) && Matches(b, y)
    ensures Matches(Cat(a, b), x + y)
  {
    assert (x + y)[..|x|] == x && (x + y)[|x|..] == y;
  }

  lemma CatCut(a: Regex, b: Regex, s: string) returns (x: string, y: string)
    requires Matches(Cat(a, b), s)
    ensures s == x + y && Matches(a, x) && Matches(b, y)
  {
    var i :| 0 <= i <= |s| && Matches(a, s[..i]) && Matches(b, s[i..]);
    x, y := s[..i], s[i..];
  }

  lemma StarOf(a: Regex, x: string, y: string)
    requires x != "" && Matches(a, x) && Matches(Star(a), y)
    ensures Matches(Star(a), x + y)
  {
    assert (x + y)[..|x|] == x && (x + y)[|x|..] == y;
  }

  lemma StarCut(a: Regex, s: string) returns (x: string, y: string)
    requires Matches(Star(a), s) && s != ""
    ensures s == x + y && x != "" && Matches(a, x) && Matches(Star(a), y)
  {
    var i :| 0 < i <= |s| && Matches(a, s[..i]) && Matches(Star(a), s[i..]);
    x, y := s[..i], s[i..];
  }

  lemma StarNone(a: Regex)
    ensures Matches(Star(a), "")
  {
  }

  // ---------------------------------------------------------------- runs of one class

  predicate AllIn(s: string, ranges: seq<(char, char)>) {
    forall i :: 0 <= i < |s| ==> InClass(s[i], ranges)
  }

  lemma {:induction false} StarOfClass(ranges: seq<(char, char)>, s: string)
    ensures Matches(Star(Class(ranges)), s) <==> AllIn(s, ranges)
    decreases |s|
  {
    hide InClass;
    if s != "" {
      if Matches(Star(Class(ranges)), s) {
        var x, y := StarCut(Class(ranges), s);
        StarOfClass(ranges, y);
      }
      if AllIn(s, ranges) {
        StarOfClass(ranges, s[1..]);
        StarOf(Class(ranges), [s[0]], s[1..]);
        assert [s[0]] + s[1..] == s;
      }
    }
  }

  lemma PlusOfClass(ranges: seq<(char, char)>, s: string)
    ensures Matches(Plus(Class(ranges)), s) <==> s != "" && AllIn(s, ranges)
  {
    hide InClass;
    if Matches(Plus(Class(ranges)), s) {
      var x, y := CatCut(Class(ranges), Star(Class(ranges)), s);
      StarOfClass(ranges, y);
    }
    if s != "" && AllIn(s, ranges) {
      StarOfClass(ranges, s[1..]);
      CatOf(Class(ranges), Star(Class(ranges)), [s[0]], s[1..]);
      assert [s[0]] + s[1..] == s;
    }
  }

  lemma ClassesAre(c: char)
    ensures InClass(c, DIGIT) <==> IsDigit(c)
    ensures InClass(c, ALNUM) <==> LocalChar(c)
    ensures InClass(c, DASH) <==> IsSep(c)
  {
    assert DIGIT[0] == ('0', '9') && ALNUM[0] == ('a', 'z') && ALNUM[1] == ('0', '9');
    assert DASH[0] == ('-', '-') && DASH[1] == ('_', '_') && DASH[2] == ('.', '.');
  }

  lemma IsNumber(s: string)
    ensures Matches(NUMBER, s) <==> Digits(s)
  {
    PlusOfClass(DIGIT, s);
    forall c ensures InClass(c, DIGIT) <==> IsDigit(c) { ClassesAre(c); }
    hide InClass, Matches;
  }

  predicate Run(s: string) {
    s != "" && forall i :: 0 <= i < |s| ==> LocalChar(s[i])
  }

  lemma IsRun(s: string)
    ensures Matches(RUN, s) <==> Run(s)
  {
    PlusOfClass(ALNUM, s);
    forall c ensures InClass(c, ALNUM) <==> LocalChar(c) { ClassesAre(c); }
    hide InClass, Matches;
  }

  lemma IsOptSep(s: string)
    ensures Matches(SEP, s) <==> OptSep(s)
    ensures Matches(Class(DASH), s) <==> |s| == 1 && IsSep(s[0])
  {
    forall c ensures InClass(c, DASH) <==> IsSep(c) { ClassesAre(c); }
    hide InClass;
  }

  lemma IsOptNumber(s: string)
    ensures Matches(Opt(NUMBER), s) <==> AllDigits(s)
  {
    IsNumber(s);
  }

  // ---------------------------------------------------------------- the groups

  lemma {:induction false} WordsAre(words: seq<string>, s: string)
    requires words != []
    ensures Matches(Words(words), s) <==> s in words
  {
    if |words| > 1 {
      WordsAre(words[1..], s);
      assert words == [words[0]] + words[1..];
    }
  }

  lemma IsPre(l: string)
    ensures Matches(PRE_LETTER, l) <==> IsPreLetter(l)
    ensures Matches(POST_LETTER, l) <==> IsPostLetter(l)
  {
    hide Matches, Words;
    WordsAre(["alpha", "a", "beta", "b", "preview", "pre", "c", "rc"], l);
    WordsAre(["post", "rev", "r"], l);
    assert l in ["alpha", "a", "beta", "b", "preview", "pre", "c", "rc"] <==> IsPreLetter(l);
    assert l in ["post", "rev", "r"] <==> IsPostLetter(l);
  }

  lemma GroupOf(letters: Regex, sep1: string, letter: string, sep2: string, num: string)
    requires OptSep(sep1) && OptSep(sep2) && AllDigits(num) && Matches(letters, letter)
    ensures Matches(Group(letters), Marker(sep1, letter, sep2, num))
  {
    hide Matches, OptSep, AllDigits;
    IsOptSep(sep1);
    IsOptSep(sep2);
    IsOptNumber(num);
    CatOf(SEP, Opt(NUMBER), sep2, num);
    CatOf(letters, Cat(SEP, Opt(NUMBER)), letter, sep2 + num);
    CatOf(SEP, Cat(letters, Cat(SEP, Opt(NUMBER))), sep1, letter + (sep2 + num));
  }

  lemma GroupCut(letters: Regex, s: string) returns (sep1: string, letter: string, sep2: string, num: string)
    requires Matches(Group(letters), s)
    ensures OptSep(sep1) && OptSep(sep2) && AllDigits(num) && Matches(letters, letter)
    ensures s == Marker(sep1, letter, sep2, num)
  {
    hide Matches, OptSep, AllDigits;
    var r1, r2;
    sep1, r1 := CatCut(SEP, Cat(letters, Cat(SEP, Opt(NUMBER))), s);
    letter, r2 := CatCut(letters, Cat(SEP, Opt(NUMBER)), r1);
    sep2, num := CatCut(SEP, Opt(NUMBER), r2);
    IsOptSep(sep1);
    IsOptSep(sep2);
    IsOptNumber(num);
  }

  const DOTTED := Cat(Lit("."), NUMBER)

  lemma {:induction false} ReleaseOf(rel: seq<string>)
    requires rel != [] && forall k :: 0 <= k < |rel| ==> Digits(rel[k])
    ensures exists tail :: Join(rel, '.') == rel[0] + tail && Matches(Star(DOTTED), tail)
  {
    hide Matches, Digits;
    if |rel| == 1 {
      StarNone(DOTTED);
      assert Join(rel, '.') == rel[0] + "";
    } else {
      ReleaseOf(rel[1..]);
      var t :| Join(rel[1..], '.') == rel[1] + t && Matches(Star(DOTTED), t);
      IsNumber(rel[1]);
      LitIs(".");
      CatOf(Lit("."), NUMBER, ".", rel[1]);
      StarOf(DOTTED, "." + rel[1], t);
      assert Join(rel, '.') == rel[0] + ("." + rel[1] + t);
    }
  }

  lemma LitIs(t: string)
    ensures Matches(Lit(t), t)
    ensures forall s :: Matches(Lit(t), s) ==> s == t
  {
  }

  lemma {:induction false} ReleaseCut(head: string, tail: string) returns (rel: seq<string>)
    requires Digits(head) && Matches(Star(DOTTED), tail)
    ensures rel != [] && (forall k :: 0 <= k < |rel| ==> Digits(rel[k])) && Join(rel, '.') == head + tail
    decreases |tail|
  {
    hide Matches, Digits;
    if tail == "" {
      rel := [head];
      assert head + "" == head;
    } else {
      var x, y := StarCut(DOTTED, tail);
      var dot, num := CatCut(Lit("."), NUMBER, x);
      LitIs(".");
      IsNumber(num);
      var rest := ReleaseCut(num, y);
      rel := [head] + rest;
      JoinCons(head, rest, '.');
      assert head + ['.'] + (num + y) == head + tail;
    }
  }

  lemma IsRelease(s: string)
    ensures Matches(RELEASE, s) <==>
              exists rel :: rel != [] && (forall k :: 0 <= k < |rel| ==> Digits(rel[k])) && Join(rel, '.') == s
  {
    hide Matches, Digits, Join;
    if Matches(RELEASE, s) {
      var head, tail := CatCut(NUMBER, Star(DOTTED), s);
      IsNumber(head);
      var rel := ReleaseCut(head, tail);
    }
    forall rel | rel != [] && (forall k :: 0 <= k < |rel| ==> Digits(rel[k])) && Join(rel, '.') == s
      ensures Matches(RELEASE, s) {
      ReleaseOf(rel);
      var tail :| Join(rel, '.') == rel[0] + tail && Matches(Star(DOTTED), tail);
      IsNumber(rel[0]);
      CatOf(NUMBER, Star(DOTTED), rel[0], tail);
    }
  }

  const JOINED := Cat(Class(DASH), RUN)

  lemma LocalJoin(x: string, c: char, b: string)
    requires Run(x) && IsSep(c) && LocalOK(b)
    ensures LocalOK(x + [c] + b)
  {
    var s := x + [c] + b;
    assert s[|x|] == c && s[|x| - 1] == x[|x| - 1] && s[|x| + 1] == b[0];
    assert forall i :: |x| < i < |s| ==> s[i] == b[i - |x| - 1];
  }

  lemma RunIsLocal(x: string)
    requires Run(x)
    ensures LocalOK(x)
  {
  }

  lemma {:induction false} LocalGlue(x: string, tail: string)
    requires Run(x) && Matches(Star(JOINED), tail)
    ensures LocalOK(x + tail)
    decreases |tail|
  {
    hide Matches, LocalOK, Run;
    if tail == "" {
      RunIsLocal(x);
      assert x + "" == x;
    } else {
      var j, y := StarCut(JOINED, tail);
      var sep, run := CatCut(Class(DASH), RUN, j);
      IsOptSep(sep);
      IsRun(run);
      LocalGlue(run, y);
      LocalJoin(x, sep[0], run + y);
      assert x + [sep[0]] + (run + y) == x + tail;
    }
  }

  lemma FirstSep(s: string) returns (i: nat)
    requires LocalOK(s)
    ensures 0 < i <= |s| && Run(s[..i]) && (i < |s| ==> IsSep(s[i]) && LocalOK(s[i + 1..]))
  {
    i := 1;
    while i < |s| && LocalChar(s[i])
      invariant 0 < i <= |s| && forall j :: 0 <= j < i ==> LocalChar(s[j])
    {
      i := i + 1;
    }
    if i < |s| {
      assert LocalChar(s[i + 1]);
      var r := s[i + 1..];
      assert forall j :: 0 <= j < |r| ==> r[j] == s[i + 1 + j];
    }
  }

  lemma {:induction false} LocalCut(s: string) returns (x: string, tail: string)
    requires LocalOK(s)
    ensures s == x + tail && Run(x) && Matches(Star(JOINED), tail)
    decreases |s|
  {
    hide Matches, LocalOK, Run;
    var i := FirstSep(s);
    x, tail := s[..i], s[i..];
    if i == |s| {
      StarNone(JOINED);
    } else {
      var run, y := LocalCut(s[i + 1..]);
      IsOptSep([s[i]]);
      IsRun(run);
      CatOf(Class(DASH), RUN, [s[i]], run);
      StarOf(JOINED, [s[i]] + run, y);
      assert tail == [s[i]] + run + y;
    }
  }

  lemma IsLocal(s: string)
    ensures Matches(LOCAL, s) <==> LocalOK(s)
  {
    hide Matches, LocalOK, Run;
    if Matches(LOCAL, s) {
      var x, tail := CatCut(RUN, Star(JOINED), s);
      IsRun(x);
      LocalGlue(x, tail);
    }
    if LocalOK(s) {
      var x, tail := LocalCut(s);
      IsRun(x);
      CatOf(RUN, Star(JOINED), x, tail);
    }
  }

  // ---------------------------------------------------------------- optional groups

  lemma OptIs(a: Regex, s: string)
    ensures Matches(Opt(a), s) <==> s == "" || Matches(a, s)
  {
  }

  lemma OptLit(t: string, s: string)
    ensures Matches(Opt(Lit(t)), s) <==> s == "" || s == t
  {
  }

  lemma IsEpoch(s: string)
    ensures Matches(Opt(EPOCH), s) <==> exists e :: AllDigits(e) && s == if e == "" then "" else e + ['!']
  {
    hide Matches, AllDigits;
    OptIs(EPOCH, s);
    LitIs("!");
    if Matches(EPOCH, s) {
      var e, bang := CatCut(NUMBER, Lit("!"), s);
      IsNumber(e);
    }
    forall e | AllDigits(e) && s == if e == "" then "" else e + ['!'] ensures Matches(Opt(EPOCH), s) {
      if e != "" {
        IsNumber(e);
        CatOf(NUMBER, Lit("!"), e, "!");
      }
    }
    NoDigits();
  }

  lemma NoDigits()
    ensures AllDigits("")
  {
  }

  lemma IsOptPre(s: string)
    ensures Matches(Opt(Group(PRE_LETTER)), s) <==>
              exists p: Option<Pre> :: (p.Some? ==> PreWF(p.value)) && s == RenderPre(p)
  {
    hide Matches, AllDigits, OptSep, IsPreLetter, Marker;
    OptIs(Group(PRE_LETTER), s);
    if Matches(Group(PRE_LETTER), s) {
      var sep1, l, sep2, num := GroupCut(PRE_LETTER, s);
      IsPre(l);
      assert s == RenderPre(Some(Pre(sep1, l, sep2, num)));
    }
    if s == "" { assert s == RenderPre(None); }
    forall p: Option<Pre> | (p.Some? ==> PreWF(p.value)) && s == RenderPre(p)
      ensures Matches(Opt(Group(PRE_LETTER)), s)
    {
      if p.Some? {
        IsPre(p.value.letter);
        GroupOf(PRE_LETTER, p.value.sep1, p.value.letter, p.value.sep2, p.value.num);
      }
    }
  }

  lemma IsOptDev(s: string)
    ensures Matches(Opt(Group(Lit("dev"))), s) <==>
              exists d: Option<Dev> :: (d.Some? ==> DevWF(d.value)) && s == RenderDev(d)
  {
    hide Matches, AllDigits, OptSep, Marker;
    OptIs(Group(Lit("dev")), s);
    LitIs("dev");
    if Matches(Group(Lit("dev")), s) {
      var sep1, l, sep2, num := GroupCut(Lit("dev"), s);
      assert s == RenderDev(Some(Dev(sep1, sep2, num)));
    }
    if s == "" { assert s == RenderDev(None); }
    forall d: Option<Dev> | (d.Some? ==> DevWF(d.value)) && s == RenderDev(d)
      ensures Matches(Opt(Group(Lit("dev"))), s) {
      if d.Some? { GroupOf(Lit("dev"), d.value.sep1, "dev", d.value.sep2, d.value.num); }
    }
  }

  lemma IsPost(s: string)
    ensures Matches(POST, s) <==> exists o :: PostWF(o) && s == RenderPost(Some(o))
  {
    hide Matches, AllDigits, OptSep, IsPostLetter, Marker;
    AltIs(Cat(Lit("-"), NUMBER), Group(POST_LETTER), s);
    LitIs("-");
    if Matches(Cat(Lit("-"), NUMBER), s) {
      var dash, num := CatCut(Lit("-"), NUMBER, s);
      IsNumber(num);
      assert s == RenderPost(Some(Implicit(num)));
    } else if Matches(Group(POST_LETTER), s) {
      var sep1, l, sep2, num := GroupCut(POST_LETTER, s);
      IsPre(l);
      assert s == RenderPost(Some(Explicit(sep1, l, sep2, num)));
    }
    forall o | PostWF(o) && s == RenderPost(Some(o)) ensures Matches(POST, s) {
      match o
      case Implicit(num) =>
        IsNumber(num);
        CatOf(Lit("-"), NUMBER, "-", num);
      case Explicit(sep1, letter, sep2, num) =>
        IsPre(letter);
        GroupOf(POST_LETTER, sep1, letter, sep2, num);
    }
  }

  lemma AltIs(a: Regex, b: Regex, s: string)
    ensures Matches(Alt(a, b), s) <==> Matches(a, s) || Matches(b, s)
  {
  }

  lemma IsOptPost(s: string)
    ensures Matches(Opt(POST), s) <==> exists o: Option<Post> :: (o.Some? ==> PostWF(o.value)) && s == RenderPost(o)
  {
    hide Matches, PostWF;
    OptIs(POST, s);
    IsPost(s);
    if Matches(POST, s) {
      var o :| PostWF(o) && s == RenderPost(Some(o));
      assert Some(o).value == o;
    }
    if s == "" { assert s == RenderPost(None); }
  }

  lemma IsOptLocal(s: string)
    ensures Matches(Opt(Cat(Lit("+"), LOCAL)), s) <==> exists l :: (l == "" || LocalOK(l)) && s == RenderLocal(l)
  {
    hide Matches, LocalOK;
    OptIs(Cat(Lit("+"), LOCAL), s);
    LitIs("+");
    if Matches(Cat(Lit("+"), LOCAL), s) {
      var plus, l := CatCut(Lit("+"), LOCAL, s);
      IsLocal(l);
      LocalNotEmpty(l);
      assert s == RenderLocal(l);
    }
    if s == "" { assert s == RenderLocal(""); }
    forall l | (l == "" || LocalOK(l)) && s == RenderLocal(l) ensures Matches(Opt(Cat(Lit("+"), LOCAL)), s) {
      if l != "" {
        IsLocal(l);
        CatOf(Lit("+"), LOCAL, "+", l);
      }
    }
  }

  lemma LocalNotEmpty(l: string)
    requires LocalOK(l)
    ensures l != ""
  {
  }

  // ---------------------------------------------------------------- the whole

  const R6 := Opt(Cat(Lit("+"), LOCAL))
  const R5 := Cat(Opt(Group(Lit("dev"))), R6)
  const R4 := Cat(Opt(POST), R5)
  const R3 := Cat(Opt(Group(PRE_LETTER)), R4)
  const R2 := Cat(RELEASE, R3)
  const R1 := Cat(Opt(EPOCH), R2)

  lemma ChainMatches(v: string, e: string, r: string, a: string, o: string, d: string, l: string)
    requires Matches(Opt(Lit("v")), v) && Matches(Opt(EPOCH), e) && Matches(RELEASE, r)
    requires Matches(Opt(Group(PRE_LETTER)), a) && Matches(Opt(POST), o) && Matches(Opt(Group(Lit("dev"))), d)
    requires Matches(R6, l)
    ensures Matches(VERSION, v + (e + (r + (a + (o + (d + l))))))
  {
    hide Matches, Group;
    CatOf(Opt(Group(Lit("dev"))), R6, d, l);
    CatOf(Opt(POST), R5, o, d + l);
    CatOf(Opt(Group(PRE_LETTER)), R4, a, o + (d + l));
    CatOf(RELEASE, R3, r, a + (o + (d + l)));
    CatOf(Opt(EPOCH), R2, e, r + (a + (o + (d + l))));
    CatOf(Opt(Lit("v")), R1, v, e + (r + (a + (o + (d + l)))));
  }

  function EpochText(e: string): string {
    if e == "" then "" else e + ['!']
  }

  lemma RenderChain(p: Parts)
    ensures Render(p) ==
            (if p.v then "v" else "") + (EpochText(p.epoch) + (Join(p.rel, '.') + (RenderPre(p.pre) +
            (RenderPost(p.post) + (RenderDev(p.dev) + RenderLocal(p.local))))))
  {
    hide Join, RenderPre, RenderPost, RenderDev, RenderLocal;
  }

  lemma FrontMatches(p: Parts)
    requires PartsWF(p)
    ensures Matches(Opt(Lit("v")), if p.v then "v" else "") && Matches(Opt(EPOCH), EpochText(p.epoch))
    ensures Matches(RELEASE, Join(p.rel, '.'))
  {
    hide Matches, LocalOK, PreWF, PostWF, DevWF, AllDigits, Digits, Join;
    OptLit("v", if p.v then "v" else "");
    IsEpoch(EpochText(p.epoch));
    IsRelease(Join(p.rel, '.'));
  }

  lemma BackMatches(p: Parts)
    requires PartsWF(p)
    ensures Matches(Opt(Group(PRE_LETTER)), RenderPre(p.pre)) && Matches(Opt(POST), RenderPost(p.post))
    ensures Matches(Opt(Group(Lit("dev"))), RenderDev(p.dev)) && Matches(R6, RenderLocal(p.local))
  {
    hide Matches, LocalOK, PreWF, PostWF, DevWF, AllDigits, Digits, RenderPre, RenderPost, RenderDev, RenderLocal;
    IsOptPre(RenderPre(p.pre));
    IsOptPost(RenderPost(p.post));
    IsOptDev(RenderDev(p.dev));
    IsOptLocal(RenderLocal(p.local));
  }

  lemma PartsMatch(p: Parts)
    requires PartsWF(p)
    ensures Matches(VERSION, Render(p))
  {
    hide *;
    FrontMatches(p);
    BackMatches(p);
    RenderChain(p);
    ChainMatches(if p.v then "v" else "", EpochText(p.epoch), Join(p.rel, '.'), RenderPre(p.pre), RenderPost(p.post),
      RenderDev(p.dev), RenderLocal(p.local));
  }

  lemma VersionCut(s: string) returns (v: string, e: string, r: string, a: string, o: string, d: string, l: string)
    requires Matches(VERSION, s)
    ensures s == v + (e + (r + (a + (o + (d + l)))))
    ensures Matches(Opt(Lit("v")), v) && Matches(Opt(EPOCH), e) && Matches(RELEASE, r)
    ensures Matches(Opt(Group(PRE_LETTER)), a) && Matches(Opt(POST), o) && Matches(Opt(Group(Lit("dev"))), d)
    ensures Matches(R6, l)
  {
    hide Matches, Group;
    var s1, s2, s3, s4, s5;
    v, s1 := CatCut(Opt(Lit("v")), R1, s);
    e, s2 := CatCut(Opt(EPOCH), R2, s1);
    r, s3 := CatCut(RELEASE, R3, s2);
    a, s4 := CatCut(Opt(Group(PRE_LETTER)), R4, s3);
    o, s5 := CatCut(Opt(POST), R5, s4);
    d, l := CatCut(Opt(Group(Lit("dev"))), R6, s5);
  }

  lemma FrontParts(e: string, r: string) returns (epoch: string, rel: seq<string>)
    requires Matches(Opt(EPOCH), e) && Matches(RELEASE, r)
    ensures AllDigits(epoch) && e == EpochText(epoch)
    ensures rel != [] && (forall k :: 0 <= k < |rel| ==> Digits(rel[k])) && Join(rel, '.') == r
  {
    hide Matches, AllDigits, Digits, Join;
    IsEpoch(e);
    IsRelease(r);
    epoch :| AllDigits(epoch) && e == if epoch == "" then "" else epoch + ['!'];
    rel :| rel != [] && (forall k :: 0 <= k < |rel| ==> Digits(rel[k])) && Join(rel, '.') == r;
  }

  lemma BackParts(a: string, o: string, d: string, l: string)
    returns (pre: Option<Pre>, post: Option<Post>, dev: Option<Dev>, local: string)
    requires Matches(Opt(Group(PRE_LETTER)), a) && Matches(Opt(POST), o) && Matches(Opt(Group(Lit("dev"))), d)
    requires Matches(R6, l)
    ensures (pre.Some? ==> PreWF(pre.value)) && a == RenderPre(pre)
    ensures (post.Some? ==> PostWF(post.value)) && o == RenderPost(post)
    ensures (dev.Some? ==> DevWF(dev.value)) && d == RenderDev(dev)
    ensures (local == "" || LocalOK(local)) && l == RenderLocal(local)
  {
    hide Matches, LocalOK, PreWF, PostWF, DevWF, RenderPre, RenderPost, RenderDev, RenderLocal;
    IsOptPre(a);
    IsOptPost(o);
    IsOptDev(d);
    IsOptLocal(l);
    pre :| (pre.Some? ==> PreWF(pre.value)) && a == RenderPre(pre);
    post :| (post.Some? ==> PostWF(post.value)) && o == RenderPost(post);
    dev :| (dev.Some? ==> DevWF(dev.value)) && d == RenderDev(dev);
    local :| (local == "" || LocalOK(local)) && l == RenderLocal(local);
  }

  lemma MatchParts(s: string) returns (p: Parts)
    requires Matches(VERSION, s)
    ensures PartsWF(p) && Render(p) == s
  {
    var v, e, r, a, o, d, l := VersionCut(s);
    OptLit("v", v);
    hide Matches, LocalOK, PreWF, PostWF, DevWF, AllDigits, Digits, RenderPre, RenderPost, RenderDev, RenderLocal, Join,
      Render, EpochText;
    var epoch, rel := FrontParts(e, r);
    var pre, post, dev, local := BackParts(a, o, d, l);
    p := Parts(v == "v", epoch, rel, pre, post, dev, local);
    RenderChain(p);
  }

  /** The parser accepts exactly what the source's regular expression matches. */
  lemma RegexExactly(s: string)
    ensures Parse(s).Some? <==> Matches(VERSION, s)
  {
    hide Matches, PartsWF, Render, Parse;
    ParseExact(s);
    if Parse(s).Some? {
      var p :| PartsWF(p) && Render(p) == s;
      PartsMatch(p);
    }
    if Matches(VERSION, s) {
      var p := MatchParts(s);
    }
  }
}
