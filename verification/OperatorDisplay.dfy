/** operatorlist.go: what the console displays of a list can be pasted back into the file. For
    npm, PyPI and Maven the display entries parse to the list they were made from. */
module OperatorDisplay {
  import opened GoStrings
  import opened OperatorList
  import opened PackageKeys
  import opened Sorting

  // ---------------------------------------------------------------- lines and names

  /** A text as TextOf leaves it, with no inner blank or tab. */
  predicate Clean(t: string) {
    t != "" && !IsSpace(t[0]) && !IsSpace(t[|t| - 1]) && '#' !in t && ' ' !in t && '\t' !in t
  }

  lemma TextOfFixed(t: string)
    requires Clean(t)
    ensures TextOf(t) == t
  {
    TrimSpaceFixed(t);
  }

  lemma TextOfIs(line: string)
    ensures var text := TrimSpace(line);
            var i := IndexByte(text, '#');
            TextOf(line) == if i >= 0 then TrimSpace(text[..i]) else text
  {
    hide TrimSpace, IndexByte;
  }

  lemma TextOfClean(line: string)
    ensures var t := TextOf(line); t == "" || (!IsSpace(t[0]) && !IsSpace(t[|t| - 1]) && '#' !in t)
  {
    hide *;
    TextOfIs(line);
    var text := TrimSpace(line);
    var i := IndexByte(text, '#');
    if i >= 0 && '#' in TextOf(line) { TrimSpaceMembers(text[..i], '#'); }
  }

  lemma AfterNulOfKey(eco: string, n: string)
    requires NUL !in eco
    ensures AfterNul(eco + [NUL] + n) == n
  {
    IndexByteCut(eco, NUL, n);
  }

  predicate KnownEco(ecosystem: string) {
    var eco := EcoName(ecosystem); eco == "npm" || eco == "pypi" || eco == "maven"
  }

  /** A character no normalisation introduces. */
  predicate Foreign(c: char) {
    c == '#' || c == ' ' || c == '\t' || c == ':' || c == '@' || c == '='
  }

  lemma {:induction false} CollapseMembers(s: string, after: bool, c: char)
    requires c in CollapseSeps(s, after)
    ensures c == '-' || c in s
  {
    hide *;
    if s != "" {
      CollapseStep(s, after);
      var next := NameSep(s[0]);
      if c in CollapseSeps(s[1..], next) { CollapseMembers(s[1..], next, c); }
    } else {
      CollapseStep(s, after);
    }
  }

  lemma CollapseStep(s: string, after: bool)
    ensures s == "" ==> CollapseSeps(s, after) == ""
    ensures s != "" ==> CollapseSeps(s, after) ==
                        (if !NameSep(s[0]) then [s[0]] else if after then "" else "-")
                          + CollapseSeps(s[1..], NameSep(s[0]))
  {
  }

  lemma LowerMembers(s: string, c: char)
    requires Foreign(c) && c in ToLower(s)
    ensures c in s
  {
    var i :| 0 <= i < |s| && ToLower(s)[i] == c;
    assert s[i] == c;
  }

  lemma KeyNameMembers(ecosystem: string, n: string, c: char)
    requires KnownEco(ecosystem) && Foreign(c) && c in KeyName(ecosystem, n)
    ensures c in n
  {
    var t := TrimSpace(n);
    if EcoName(ecosystem) == "pypi" {
      CollapseMembers(ToLower(t), false, c);
      LowerMembers(t, c);
    } else if EcoName(ecosystem) == "npm" {
      LowerMembers(t, c);
    }
    TrimSpaceMembers(n, c);
  }

  /** The two ends of a collapsed name are a dash or the ends of the name. */
  lemma {:induction false} CollapseEnds(s: string, after: bool)
    requires s != ""
    ensures var r := CollapseSeps(s, after);
            && (r != "" ==> r[|r| - 1] == '-' || r[|r| - 1] == s[|s| - 1])
            && (!after ==> r != "" && (r[0] == '-' || r[0] == s[0]))
  {
    hide *;
    CollapseStep(s, after);
    if s[1..] != "" {
      CollapseEnds(s[1..], NameSep(s[0]));
    } else {
      CollapseStep(s[1..], NameSep(s[0]));
    }
    assert CollapseSeps(s[1..], NameSep(s[0])) == "" && !NameSep(s[0]) ==> s[1..] == "";
  }

  lemma {:induction false} TrimRightStarts(s: string)
    requires s != "" && !IsSpace(s[0])
    ensures TrimRight(s) != ""
  {
    if IsSpace(s[|s| - 1]) { TrimRightStarts(s[..|s| - 1]); }
  }

  lemma TrimStarts(n: string)
    requires n != "" && !IsSpace(n[0])
    ensures TrimSpace(n) != "" && TrimSpace(n) <= n
  {
    TrimRightStarts(n);
  }

  predicate Trimmed(d: string) {
    d != "" && !IsSpace(d[0]) && !IsSpace(d[|d| - 1])
  }

  lemma PypiKeyFixed(t: string)
    requires Trimmed(t)
    ensures var d := NormalizePypiName(t); Trimmed(d) && TrimSpace(d) == d && NormalizePypiName(d) == d
  {
    NormalizePypiNameIdempotent(t);
    CollapseEnds(ToLower(t), false);
    hide CollapseSeps;
    TrimSpaceFixed(NormalizePypiName(t));
  }

  lemma NpmKeyFixed(t: string)
    requires Trimmed(t)
    ensures var d := ToLower(t); Trimmed(d) && TrimSpace(d) == d && ToLower(d) == d
  {
    LowerFixed(ToLower(t));
    TrimSpaceFixed(ToLower(t));
  }

  lemma KeyNameOf(ecosystem: string, n: string)
    requires KnownEco(ecosystem)
    ensures EcoName(ecosystem) == "pypi" ==> KeyName(ecosystem, n) == NormalizePypiName(TrimSpace(n))
    ensures EcoName(ecosystem) == "npm" ==> KeyName(ecosystem, n) == ToLower(TrimSpace(n))
    ensures EcoName(ecosystem) == "maven" ==> KeyName(ecosystem, n) == TrimSpace(n)
    ensures EcoName(ecosystem) == "pypi" || EcoName(ecosystem) == "npm" || EcoName(ecosystem) == "maven"
  {
    hide EcoName, NormalizePypiName, TrimSpace, ToLower;
  }

  /** A key name is trimmed, and is its own key name. */
  lemma KeyNameFixed(ecosystem: string, n: string)
    requires KnownEco(ecosystem) && n != "" && !IsSpace(n[0])
    ensures var d := KeyName(ecosystem, n);
            d != "" && !IsSpace(d[0]) && !IsSpace(d[|d| - 1]) && KeyName(ecosystem, d) == d
  {
    hide *;
    var t, d := TrimSpace(n), KeyName(ecosystem, n);
    TrimStarts(n);
    TrimmedIs(t);
    TrimmedIs(d);
    TrimSpaceFixed(t);
    KeyNameOf(ecosystem, n);
    KeyNameOf(ecosystem, d);
    if EcoName(ecosystem) == "pypi" {
      PypiKeyFixed(t);
    } else if EcoName(ecosystem) == "npm" {
      NpmKeyFixed(t);
    }
  }

  lemma TrimmedIs(d: string)
    ensures Trimmed(d) <==> d != "" && !IsSpace(d[0]) && !IsSpace(d[|d| - 1])
  {
  }

  lemma MalwareKeyOf(ecosystem: string, n: string)
    ensures MalwareKey(ecosystem, n) == EcoName(ecosystem) + [NUL] + KeyName(ecosystem, n)
  {
    hide EcoName, KeyName;
  }

  lemma KnownEcoPlain(ecosystem: string)
    requires KnownEco(ecosystem)
    ensures NUL !in EcoName(ecosystem)
  {
    hide EcoName;
  }

  lemma KeyRepeats(ecosystem: string, n: string)
    requires KnownEco(ecosystem) && n != "" && !IsSpace(n[0])
    ensures var d := KeyName(ecosystem, n);
            MalwareKey(ecosystem, d) == MalwareKey(ecosystem, n) && AfterNul(MalwareKey(ecosystem, n)) == d
  {
    hide *;
    KeyNameFixed(ecosystem, n);
    KnownEcoPlain(ecosystem);
    MalwareKeyOf(ecosystem, n);
    MalwareKeyOf(ecosystem, KeyName(ecosystem, n));
    AfterNulOfKey(EcoName(ecosystem), KeyName(ecosystem, n));
  }

  // ---- the grammar read on a displayed name, one ecosystem at a time

  lemma {:induction false} CountTrimRight(s: string, c: char)
    requires !IsSpace(c)
    ensures CountChar(TrimRight(s), c) == CountChar(s, c)
  {
    if s != "" && IsSpace(s[|s| - 1]) {
      CountTrimRight(s[..|s| - 1], c);
      CountConcat(s[..|s| - 1], [s[|s| - 1]], c);
      assert s == s[..|s| - 1] + [s[|s| - 1]];
    }
  }

  lemma {:induction false} CountConcat(a: string, b: string, c: char)
    ensures CountChar(a + b, c) == CountChar(a, c) + CountChar(b, c)
  {
    if a == "" {
      assert a + b == b;
    } else {
      CountConcat(a[1..], b, c);
      assert (a + b)[1..] == a[1..] + b;
    }
  }

  lemma {:induction false} CountNone(s: string, c: char)
    requires c !in s
    ensures CountChar(s, c) == 0
  {
    if s != "" { CountNone(s[1..], c); }
  }

  lemma NpmAt(ecosystem: string, n: string)
    requires EcoName(ecosystem) == "npm" && n != "" && !IsSpace(n[0])
    ensures var d := KeyName(ecosystem, n); |d| <= |n| && forall i :: 0 <= i < |d| ==> (d[i] == '@' <==> n[i] == '@')
  {
    TrimStarts(n);
    var t := TrimSpace(n);
    forall i | 0 <= i < |t| ensures LowerChar(t[i]) == '@' <==> n[i] == '@' {
      assert t[i] == n[i];
    }
  }

  lemma NpmCheck(ecosystem: string, n: string)
    requires EcoName(ecosystem) == "npm"
    ensures CheckName(ecosystem, n).None? <==> n != "" && ':' !in n && '=' !in n && IndexByte(n, '@') <= 0
  {
    hide EcoName, IndexByte;
  }

  lemma PypiCheck(ecosystem: string, n: string)
    requires EcoName(ecosystem) == "pypi"
    ensures CheckName(ecosystem, n).None? <==> n != "" && ':' !in n && '@' !in n && '=' !in n
  {
    hide EcoName;
  }

  lemma MavenCheck(ecosystem: string, n: string)
    requires EcoName(ecosystem) == "maven"
    ensures CheckName(ecosystem, n).None? <==> n != "" && '@' !in n && '=' !in n && CountChar(n, ':') == 1
  {
    hide EcoName, CountChar;
  }

  lemma SameAts(n: string, d: string)
    requires |d| <= |n| && forall i :: 0 <= i < |d| ==> (d[i] == '@' <==> n[i] == '@')
    ensures IndexByte(n, '@') <= 0 ==> IndexByte(d, '@') <= 0
    ensures LastIndexByte(n, '@') <= 0 ==> LastIndexByte(d, '@') <= 0
  {
    var i := IndexByte(d, '@');
    if i > 0 {
      assert d[0] == d[..i][0];
      assert n[i] == '@' && n[0] != '@';
    }
    var k, r := LastIndexByte(d, '@'), LastIndexByte(n, '@');
  }

  lemma NpmName(ecosystem: string, n: string)
    requires EcoName(ecosystem) == "npm" && n != "" && !IsSpace(n[0]) && CheckName(ecosystem, n).None?
    ensures var d := KeyName(ecosystem, n);
            CheckName(ecosystem, d).None? && (LastIndexByte(n, '@') <= 0 ==> LastIndexByte(d, '@') <= 0)
  {
    var d := KeyName(ecosystem, n);
    assert KnownEco(ecosystem) && Foreign(':') && Foreign('=');
    hide *;
    KeyNameFixed(ecosystem, n);
    NpmAt(ecosystem, n);
    NpmCheck(ecosystem, n);
    NpmCheck(ecosystem, d);
    if ':' in d { KeyNameMembers(ecosystem, n, ':'); }
    if '=' in d { KeyNameMembers(ecosystem, n, '='); }
    SameAts(n, d);
  }

  lemma PypiName(ecosystem: string, n: string)
    requires EcoName(ecosystem) == "pypi" && n != "" && !IsSpace(n[0]) && CheckName(ecosystem, n).None?
    ensures CheckName(ecosystem, KeyName(ecosystem, n)).None? && '=' !in KeyName(ecosystem, n)
  {
    var d := KeyName(ecosystem, n);
    assert KnownEco(ecosystem) && Foreign(':') && Foreign('=') && Foreign('@');
    hide *;
    KeyNameFixed(ecosystem, n);
    PypiCheck(ecosystem, n);
    PypiCheck(ecosystem, d);
    if ':' in d { KeyNameMembers(ecosystem, n, ':'); }
    if '@' in d { KeyNameMembers(ecosystem, n, '@'); }
    if '=' in d { KeyNameMembers(ecosystem, n, '='); }
  }

  lemma MavenKey(ecosystem: string, n: string)
    requires EcoName(ecosystem) == "maven" && n != "" && !IsSpace(n[0])
    ensures KeyName(ecosystem, n) == TrimRight(n)
  {
    hide EcoName;
  }

  lemma MavenName(ecosystem: string, n: string)
    requires EcoName(ecosystem) == "maven" && n != "" && !IsSpace(n[0]) && CheckName(ecosystem, n).None?
    ensures CheckName(ecosystem, KeyName(ecosystem, n)).None? && CountChar(KeyName(ecosystem, n), ':') == 1
  {
    var d := KeyName(ecosystem, n);
    assert KnownEco(ecosystem) && Foreign('@') && Foreign('=') && !IsSpace(':');
    hide *;
    KeyNameFixed(ecosystem, n);
    MavenCheck(ecosystem, n);
    MavenCheck(ecosystem, d);
    if '@' in d { KeyNameMembers(ecosystem, n, '@'); }
    if '=' in d { KeyNameMembers(ecosystem, n, '='); }
    MavenKey(ecosystem, n);
    CountTrimRight(n, ':');
  }

  lemma NameStaysLegal(ecosystem: string, n: string)
    requires KnownEco(ecosystem) && n != "" && !IsSpace(n[0]) && CheckName(ecosystem, n).None?
    ensures CheckName(ecosystem, KeyName(ecosystem, n)).None?
  {
    hide CheckName, KeyName;
    if EcoName(ecosystem) == "npm" { NpmName(ecosystem, n); }
    else if EcoName(ecosystem) == "pypi" { PypiName(ecosystem, n); }
    else { MavenName(ecosystem, n); }
  }

  lemma NpmSplit(kind: Kind, ecosystem: string, t: string)
    requires EcoName(ecosystem) == "npm"
    ensures var i := LastIndexByte(t, '@');
            SplitEntry(kind, ecosystem, t) == if i > 0 then Entry(t[..i], t[i + 1..], true) else Entry(t, "", false)
  {
    hide EcoName, LastIndexByte, LastIndexFrom, Index, CountChar;
  }

  lemma PypiSplit(kind: Kind, ecosystem: string, t: string)
    requires EcoName(ecosystem) == "pypi"
    ensures var i := Index(t, "==");
            && (i > 0 ==>
                 i + 2 <= |t| && SplitEntry(kind, ecosystem, t) == Entry(t[..i], TrimPrefix(t[i + 2..], "="), true))
            && (i <= 0 ==> SplitEntry(kind, ecosystem, t) == Entry(t, "", false))
  {
    hide EcoName, LastIndexByte, LastIndexFrom, Index, CountChar, TrimPrefix;
  }

  lemma MavenSplit(kind: Kind, ecosystem: string, t: string)
    requires EcoName(ecosystem) == "maven"
    ensures var i := LastIndexByte(t, ':');
            SplitEntry(kind, ecosystem, t) ==
            if CountChar(t, ':') == 2 && i >= 0 then Entry(t[..i], t[i + 1..], true) else Entry(t, "", false)
  {
    hide EcoName, LastIndexByte, LastIndexFrom, Index, CountChar;
  }

  /** A bare name displays as a bare name. */
  lemma BareSplit(kind: Kind, ecosystem: string, t: string)
    requires KnownEco(ecosystem) && Clean(t) && !SplitEntry(kind, ecosystem, t).pinned && CheckName(ecosystem, t).None?
    ensures SplitEntry(kind, ecosystem, KeyName(ecosystem, t)) == Entry(KeyName(ecosystem, t), "", false)
  {
    var d := KeyName(ecosystem, t);
    var eco := EcoName(ecosystem);
    assert eco == "npm" || eco == "pypi" || eco == "maven";
    assert t != "" && !IsSpace(t[0]);
    hide *;
    if eco == "npm" {
      NpmName(ecosystem, t);
      NpmSplit(kind, ecosystem, t);
      NpmSplit(kind, ecosystem, d);
    } else if eco == "pypi" {
      PypiName(ecosystem, t);
      NoDoubleEqual(d);
      PypiSplit(kind, ecosystem, d);
    } else {
      MavenName(ecosystem, t);
      MavenSplit(kind, ecosystem, d);
    }
  }

  lemma NoDoubleEqual(d: string)
    requires '=' !in d
    ensures Index(d, "==") < 0
  {
    var r := Index(d, "==");
    if r >= 0 { EqualAt(d, r); }
  }

  lemma EqualAt(d: string, j: int)
    requires At(d, "==", j)
    ensures d[j] == '='
  {
    assert d[j] == d[j..j + 2][0];
  }

  lemma FirstDoubleEqual(d0: string, v: string)
    requires '=' !in d0
    ensures Index(d0 + "==" + v, "==") == |d0|
  {
    var d := d0 + "==" + v;
    assert At(d, "==", |d0|);
    var r := Index(d, "==");
    assert r >= 0;
    EqualAt(d, r);
    assert forall i :: 0 <= i < |d0| ==> d[i] == d0[i] != '=';
  }

  /** What displaying does to the version of a pin: nothing, unless pip's third "=" eats the
      first one of a PyPI version. */
  function Pasted(ecosystem: string, v: string): string {
    if EcoName(ecosystem) == "pypi" then TrimPrefix(v, "=") else v
  }

  lemma NpmPin(kind: Kind, ecosystem: string, d0: string, v: string)
    requires EcoName(ecosystem) == "npm" && d0 != "" && '@' !in v
    ensures SplitEntry(kind, ecosystem, JoinEntry(ecosystem, d0, v)) == Entry(d0, v, true)
  {
    hide SplitEntry, EcoName;
    CutLast(d0, '@', v);
    assert JoinEntry(ecosystem, d0, v) == d0 + ['@'] + v;
    NpmSplit(kind, ecosystem, d0 + ['@'] + v);
  }

  lemma PypiPin(kind: Kind, ecosystem: string, d0: string, v: string)
    requires EcoName(ecosystem) == "pypi" && d0 != "" && '=' !in d0
    ensures SplitEntry(kind, ecosystem, JoinEntry(ecosystem, d0, v)) == Entry(d0, TrimPrefix(v, "="), true)
  {
    hide SplitEntry, EcoName, Index, TrimPrefix;
    FirstDoubleEqual(d0, v);
    assert JoinEntry(ecosystem, d0, v) == d0 + "==" + v;
    PypiSplit(kind, ecosystem, d0 + "==" + v);
    assert (d0 + "==" + v)[..|d0|] == d0 && (d0 + "==" + v)[|d0| + 2..] == v;
  }

  lemma MavenPin(kind: Kind, ecosystem: string, d0: string, v: string)
    requires EcoName(ecosystem) == "maven" && CountChar(d0, ':') == 1 && ':' !in v
    ensures SplitEntry(kind, ecosystem, JoinEntry(ecosystem, d0, v)) == Entry(d0, v, true)
  {
    hide SplitEntry, EcoName;
    CutLast(d0, ':', v);
    assert JoinEntry(ecosystem, d0, v) == d0 + [':'] + v;
    MavenSplit(kind, ecosystem, d0 + [':'] + v);
    CountConcat(d0 + [':'], v, ':');
    CountConcat(d0, [':'], ':');
    CountNone(v, ':');
  }

  lemma PinSplit(kind: Kind, ecosystem: string, t: string)
    requires KnownEco(ecosystem) && Clean(t) && SplitEntry(kind, ecosystem, t).pinned
    requires CheckName(ecosystem, SplitEntry(kind, ecosystem, t).name).None?
    ensures var e := SplitEntry(kind, ecosystem, t);
            var d0 := KeyName(ecosystem, e.name);
            SplitEntry(kind, ecosystem, JoinEntry(ecosystem, d0, e.version)) ==
              Entry(d0, Pasted(ecosystem, e.version), true)
  {
    var e := SplitEntry(kind, ecosystem, t);
    var d0 := KeyName(ecosystem, e.name);
    var eco := EcoName(ecosystem);
    assert eco == "npm" || eco == "pypi" || eco == "maven";
    assert t != "" && !IsSpace(t[0]);
    assert Pasted(ecosystem, e.version) == if eco == "pypi" then TrimPrefix(e.version, "=") else e.version;
    hide *;
    NameNotEmpty(ecosystem, e.name);
    SplitParts(kind, ecosystem, t);
    KeyNameFixed(ecosystem, e.name);
    if eco == "npm" {
      NpmSplit(kind, ecosystem, t);
      NpmPin(kind, ecosystem, d0, e.version);
    } else if eco == "pypi" {
      PypiName(ecosystem, e.name);
      PypiPin(kind, ecosystem, d0, e.version);
    } else {
      MavenName(ecosystem, e.name);
      MavenSplit(kind, ecosystem, t);
      MavenPin(kind, ecosystem, d0, e.version);
    }
  }

  lemma CutLast(a: string, c: char, v: string)
    requires c !in v
    ensures LastIndexByte(a + [c] + v, c) == |a|
    ensures (a + [c] + v)[..|a|] == a && (a + [c] + v)[|a| + 1..] == v
  {
    hide *;
    var s := a + [c] + v;
    assert s[|a| + 1..] == v;
    LastIndexByteIs(s, c, |a|);
  }

  // ---- one entry

  lemma CleanName(ecosystem: string, t: string, n: string)
    requires KnownEco(ecosystem) && Clean(t) && n != "" && n <= t
    ensures var d := KeyName(ecosystem, n);
            d != "" && !IsSpace(d[0]) && !IsSpace(d[|d| - 1]) && '#' !in d && ' ' !in d && '\t' !in d
  {
    KeyNameFixed(ecosystem, n);
    var d := KeyName(ecosystem, n);
    if '#' in d { KeyNameMembers(ecosystem, n, '#'); }
    if ' ' in d { KeyNameMembers(ecosystem, n, ' '); }
    if '\t' in d { KeyNameMembers(ecosystem, n, '\t'); }
    hide KeyName;
    assert forall c :: c in n ==> c in t;
  }

  lemma ReadingOf(ecosystem: string, t: string, e: Entry)
    ensures var m := Reading(ecosystem, t, e);
            && (m.Bare? || m.Pinned? ==> CheckName(ecosystem, e.name).None?)
            && (m.Bare? ==> !e.pinned && e.version == "" && m.key == MalwareKey(ecosystem, t))
            && (m.Pinned? ==> e.version != "" && m == Pinned(MalwareKey(ecosystem, e.name), e.version)
                              && (e.pinned ==> TrimSpace(e.version) != ""))
            && (CheckName(ecosystem, e.name).None? ==>
                  && (!e.pinned && e.version == "" ==> m == Bare(MalwareKey(ecosystem, t)))
                  && (e.pinned && TrimSpace(e.version) == "" ==> m.Bad?)
                  && (e.pinned && TrimSpace(e.version) != "" && e.version != "" ==>
                       m == Pinned(MalwareKey(ecosystem, e.name), e.version)))
  {
    assert TrimSpace("") == "";
    hide CheckName, MalwareKey, TrimSpace;
  }

  lemma MeaningOf(kind: Kind, ecosystem: string, line: string)
    ensures var t := TextOf(line);
            var m := Meaning1(kind, ecosystem, line);
            if t != "" && ' ' !in t && '\t' !in t then m == Reading(ecosystem, t, SplitEntry(kind, ecosystem, t))
            else m.Blank? || m.Bad?
  {
    hide TextOf, SplitEntry, Reading;
  }

  lemma CleanParts(t: string)
    ensures Clean(t) <==> t != "" && !IsSpace(t[0]) && !IsSpace(t[|t| - 1]) && '#' !in t && ' ' !in t && '\t' !in t
  {
  }

  lemma BareAgain(kind: Kind, ecosystem: string, t: string)
    requires KnownEco(ecosystem) && Clean(t) && SplitEntry(kind, ecosystem, t) == Entry(t, "", false)
             && CheckName(ecosystem, t).None?
    ensures AfterNul(MalwareKey(ecosystem, t)) == KeyName(ecosystem, t)
    ensures Meaning1(kind, ecosystem, KeyName(ecosystem, t)) == Bare(MalwareKey(ecosystem, t))
  {
    var d := KeyName(ecosystem, t);
    hide *;
    CleanParts(t);
    CleanName(ecosystem, t, t);
    CleanParts(d);
    KeyRepeats(ecosystem, t);
    NameStaysLegal(ecosystem, t);
    BareSplit(kind, ecosystem, t);
    TextOfFixed(d);
    MeaningOf(kind, ecosystem, d);
    ReadingOf(ecosystem, d, Entry(d, "", false));
  }

  /** A bare entry, displayed and pasted back, means what it meant. */
  lemma RoundBare(kind: Kind, ecosystem: string, line: string)
    requires KnownEco(ecosystem) && Meaning1(kind, ecosystem, line).Bare?
    ensures var m := Meaning1(kind, ecosystem, line); Meaning1(kind, ecosystem, Display(ecosystem, m)) == m
  {
    var m := Meaning1(kind, ecosystem, line);
    var t := TextOf(line);
    assert Display(ecosystem, m) == AfterNul(m.key);
    hide *;
    TextOfClean(line);
    MeaningOf(kind, ecosystem, line);
    ReadingOf(ecosystem, t, SplitEntry(kind, ecosystem, t));
    CleanParts(t);
    SplitParts(kind, ecosystem, t);
    BareAgain(kind, ecosystem, t);
  }

  /** What a split leaves: an unpinned text is whole; a pinned one has a name in front and a
      version at the end. */
  lemma SplitParts(kind: Kind, ecosystem: string, t: string)
    requires KnownEco(ecosystem)
    ensures var e := SplitEntry(kind, ecosystem, t);
            && (!e.pinned ==> e.name == t && e.version == "")
            && (e.pinned ==> e.name <= t && |e.version| < |t| && e.version == t[|t| - |e.version|..])
  {
    var eco := EcoName(ecosystem);
    hide SplitEntry, EcoName, Index, LastIndexByte, CountChar;
    if eco == "npm" {
      NpmSplit(kind, ecosystem, t);
    } else if eco == "pypi" {
      PypiSplit(kind, ecosystem, t);
    } else {
      MavenSplit(kind, ecosystem, t);
    }
  }

  lemma CleanGlue(t: string, d0: string, sep: string, v: string)
    requires Clean(t) && v != "" && |v| < |t| && v == t[|t| - |v|..]
    requires d0 != "" && !IsSpace(d0[0]) && '#' !in d0 && ' ' !in d0 && '\t' !in d0
    requires '#' !in sep && ' ' !in sep && '\t' !in sep
    ensures Clean(d0 + sep + v)
  {
    hide IsSpace;
    var d := d0 + sep + v;
    assert forall c :: c in v ==> c in t;
    assert d[0] == d0[0] && d[|d| - 1] == v[|v| - 1] == t[|t| - 1];
  }

  lemma JoinIs(ecosystem: string, d0: string, v: string) returns (sep: string)
    ensures sep == "==" || sep == ":" || sep == "@"
    ensures JoinEntry(ecosystem, d0, v) == d0 + sep + v
  {
    var eco := EcoName(ecosystem);
    sep := if eco == "pypi" then "==" else if eco == "maven" then ":" else "@";
    hide EcoName;
  }

  lemma CleanDisplay(ecosystem: string, t: string, d0: string, v: string)
    requires Clean(t) && v != "" && |v| < |t| && v == t[|t| - |v|..]
    requires d0 != "" && !IsSpace(d0[0]) && '#' !in d0 && ' ' !in d0 && '\t' !in d0
    ensures Clean(JoinEntry(ecosystem, d0, v))
  {
    hide *;
    var sep := JoinIs(ecosystem, d0, v);
    CleanGlue(t, d0, sep, v);
  }

  /** A version-scoped entry, displayed and pasted back, means what it meant exactly when it is
      not a PyPI version beginning with "=". */
  lemma RoundPinned(kind: Kind, ecosystem: string, line: string)
    requires KnownEco(ecosystem) && Meaning1(kind, ecosystem, line).Pinned?
    ensures var m := Meaning1(kind, ecosystem, line);
            Meaning1(kind, ecosystem, Display(ecosystem, m)) == m <==>
              !(EcoName(ecosystem) == "pypi" && "=" <= m.version)
  {
    var m := Meaning1(kind, ecosystem, line);
    var t := TextOf(line);
    var e := SplitEntry(kind, ecosystem, t);
    assert Display(ecosystem, m) == JoinEntry(ecosystem, AfterNul(m.key), m.version);
    hide *;
    MeaningOf(kind, ecosystem, line);
    ReadingOf(ecosystem, t, e);
    TextOfClean(line);
    CleanParts(t);
    PinParts(kind, ecosystem, t, e);
    KeyRepeats(ecosystem, e.name);
    PinnedAgain(kind, ecosystem, t, e, m);
    PastedSame(ecosystem, e.version);
  }

  lemma PinParts(kind: Kind, ecosystem: string, t: string, e: Entry)
    requires KnownEco(ecosystem) && Clean(t) && e == SplitEntry(kind, ecosystem, t) && e.version != ""
    requires CheckName(ecosystem, e.name).None?
    ensures e.pinned && e.name != "" && !IsSpace(e.name[0]) && e.name <= t && |e.version| < |t|
            && e.version == t[|t| - |e.version|..]
  {
    hide *;
    SplitParts(kind, ecosystem, t);
    NameNotEmpty(ecosystem, e.name);
    CleanParts(t);
  }

  lemma PinnedAgain(kind: Kind, ecosystem: string, t: string, e: Entry, m: Meaning)
    requires KnownEco(ecosystem) && Clean(t) && e == SplitEntry(kind, ecosystem, t) && e.version != ""
    requires CheckName(ecosystem, e.name).None? && TrimSpace(e.version) != ""
    requires m == Pinned(MalwareKey(ecosystem, e.name), e.version)
    ensures Meaning1(kind, ecosystem, JoinEntry(ecosystem, KeyName(ecosystem, e.name), e.version)) == m
            <==> Pasted(ecosystem, e.version) == e.version
  {
    var d0 := KeyName(ecosystem, e.name);
    var d := JoinEntry(ecosystem, d0, e.version);
    hide *;
    PinParts(kind, ecosystem, t, e);
    CleanName(ecosystem, t, e.name);
    KeyRepeats(ecosystem, e.name);
    NameStaysLegal(ecosystem, e.name);
    PinSplit(kind, ecosystem, t);
    CleanDisplay(ecosystem, t, d0, e.version);
    CleanParts(d);
    TextOfFixed(d);
    MeaningOf(kind, ecosystem, d);
    ReadingOf(ecosystem, d, Entry(d0, Pasted(ecosystem, e.version), true));
  }

  lemma PastedSame(ecosystem: string, v: string)
    ensures Pasted(ecosystem, v) == v <==> !(EcoName(ecosystem) == "pypi" && "=" <= v)
  {
  }

  lemma NameNotEmpty(ecosystem: string, n: string)
    requires KnownEco(ecosystem) && CheckName(ecosystem, n).None?
    ensures n != ""
  {
  }

  /** The failing family by example: "a====1" pins "=1", which does not survive pasting back. */
  lemma ArbitraryEqualityIsEaten(kind: Kind, text: string)
    requires text == "a====1"
    ensures var m := Meaning1(kind, "pypi", text);
            m.Pinned? && m.version == "=1" && Meaning1(kind, "pypi", Display("pypi", m)) != m
  {
    hide *;
    EatenMeans(kind, text, "pypi");
    IsPypi();
    PypiIsKnown("pypi");
    RoundPinned(kind, "pypi", text);
  }

  lemma EatenMeans(kind: Kind, text: string, ecosystem: string)
    requires text == "a====1" && ecosystem == "pypi"
    ensures var m := Meaning1(kind, ecosystem, text); m.Pinned? && m.version == "=1"
  {
    hide *;
    IsPypi();
    EatenSplit(kind);
    EatenName(ecosystem);
    EatenClean(text);
    CleanParts(text);
    TextOfFixed(text);
    MeaningOf(kind, ecosystem, text);
    ReadingOf(ecosystem, text, Entry("a", "=1", true));
    TrimKeeps("=1");
  }

  lemma EatenName(ecosystem: string)
    requires EcoName(ecosystem) == "pypi"
    ensures CheckName(ecosystem, "a").None?
  {
    hide *;
    PypiCheck(ecosystem, "a");
  }

  lemma PypiIsKnown(ecosystem: string)
    requires EcoName(ecosystem) == "pypi"
    ensures KnownEco(ecosystem)
  {
    hide EcoName;
  }

  lemma TrimKeeps(v: string)
    requires v != "" && v[0] == '='
    ensures TrimSpace(v) != ""
  {
    TrimStarts(v);
  }

  lemma EatenClean(text: string)
    requires text == "a====1"
    ensures Clean(text)
  {
  }

  lemma IsPypi()
    ensures EcoName("pypi") == "pypi"
  {
    TrimSpaceFixed("pypi");
    LowerFixed("pypi");
  }

  lemma EatenSplit(kind: Kind)
    ensures SplitEntry(kind, "pypi", "a====1") == Entry("a", "=1", true)
  {
    hide *;
    IsPypi();
    var text := "a" + "==" + "==1";
    assert text == "a====1";
    FirstDoubleEqual("a", "==1");
    PypiSplit(kind, "pypi", text);
    assert text[..1] == "a" && text[3..] == "==1";
    EatenPrefix();
  }

  lemma EatenPrefix()
    ensures TrimPrefix("==1", "=") == "=1"
  {
  }

  // ---- the whole list

  ghost predicate Faithful(ecosystem: string, m: Meaning) {
    !(m.Pinned? && EcoName(ecosystem) == "pypi" && "=" <= m.version)
  }

  lemma ItemIsALine(kind: Kind, ecosystem: string, lines: seq<string>, l: List, items: seq<Meaning>, i: nat)
    returns (j: nat)
    requires Denotes(l, multiset(Meanings(kind, ecosystem, lines))) && IsContents(items, l) && i < |items|
    ensures j < |lines| && Meaning1(kind, ecosystem, lines[j]) == items[i]
  {
    var ms := Meanings(kind, ecosystem, lines);
    assert items[i] in multiset(items);
    match items[i] {
      case Bare(k) => assert k in l.names;
      case Pinned(k, v) => assert Held(l, k, v) > 0;
    }
    assert items[i] in multiset(ms);
    assert items[i] in ms;
    j :| 0 <= j < |ms| && ms[j] == items[i];
  }

  lemma ItemSurvives(kind: Kind, ecosystem: string, line: string)
    requires KnownEco(ecosystem)
    requires var m := Meaning1(kind, ecosystem, line); (m.Bare? || m.Pinned?) && Faithful(ecosystem, m)
    ensures var m := Meaning1(kind, ecosystem, line); Meaning1(kind, ecosystem, Display(ecosystem, m)) == m
  {
    if Meaning1(kind, ecosystem, line).Bare? {
      RoundBare(kind, ecosystem, line);
    } else {
      RoundPinned(kind, ecosystem, line);
    }
    hide Meaning1, Display;
  }

  lemma ItemsAreMeant(kind: Kind, ecosystem: string, lines: seq<string>, l: List, items: seq<Meaning>)
    requires KnownEco(ecosystem)
    requires Denotes(l, multiset(Meanings(kind, ecosystem, lines))) && IsContents(items, l)
    requires forall i :: 0 <= i < |lines| ==> Faithful(ecosystem, Meaning1(kind, ecosystem, lines[i]))
    ensures Meanings(kind, ecosystem, Displays(ecosystem, items)) == items
  {
    hide Meaning1, Display, KnownEco, Denotes, Faithful;
    forall i | 0 <= i < |items| ensures Meaning1(kind, ecosystem, Display(ecosystem, items[i])) == items[i] {
      var j := ItemIsALine(kind, ecosystem, lines, l, items, i);
      ItemSurvives(kind, ecosystem, lines[j]);
    }
  }

  lemma NoneBad(ms: seq<Meaning>, items: seq<Meaning>, i: nat)
    requires multiset(ms) == multiset(items) && i < |ms|
    requires forall j :: 0 <= j < |items| ==> items[j].Bare? || items[j].Pinned?
    ensures !ms[i].Bad?
  {
    assert ms[i] in multiset(ms);
    assert ms[i] in items;
  }

  lemma ContentsAsked(items: seq<Meaning>, l: List)
    requires IsContents(items, l)
    ensures Asks(l, multiset(items))
    ensures forall j :: 0 <= j < |items| ==> items[j].Bare? || items[j].Pinned?
  {
    hide Held;
  }

  /** For npm, PyPI and Maven: the display entries of a loaded list, parsed again, are all
      legal lines and give the same list: the same names and, for every package, the same
      versions as often. For PyPI this is for versions that do not begin with "=". */
  lemma DisplayReparses(kind: Kind, ecosystem: string, lines: seq<string>, l: List, items: seq<Meaning>,
      entries: seq<string>, l2: List)
    requires KnownEco(ecosystem)
    requires Denotes(l, multiset(Meanings(kind, ecosystem, lines))) && IsContents(items, l)
    requires forall i :: 0 <= i < |lines| ==> Faithful(ecosystem, Meaning1(kind, ecosystem, lines[i]))
    requires entries == SortStrings(Displays(ecosystem, items))
    ensures forall i :: 0 <= i < |entries| ==> !Meaning1(kind, ecosystem, entries[i]).Bad?
    ensures Denotes(l2, multiset(Meanings(kind, ecosystem, entries))) ==>
              l2.names == l.names && forall k :: multiset(VersionsAt(l2, k)) == multiset(VersionsAt(l, k))
  {
    var ms := Meanings(kind, ecosystem, entries);
    ItemsAreMeant(kind, ecosystem, lines, l, items);
    MeaningsPermuted(kind, ecosystem, entries, Displays(ecosystem, items));
    ContentsAsked(items, l);
    forall i | 0 <= i < |entries| ensures !Meaning1(kind, ecosystem, entries[i]).Bad? {
      NoneBad(ms, items, i);
      hide Meaning1;
    }
    if Denotes(l2, multiset(ms)) {
      hide Asks;
      SameContents(l2, l, multiset(items));
    }
    hide *;
  }
}
