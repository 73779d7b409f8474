/** The one identity every list and feed lookup goes through: malwareKey and sameVersion
    (malware.go), with PyPI's name normalisation (ecosystem.go). */
module PackageKeys {
  import opened GoStrings
  import opened Pep440

  // ---------------------------------------------------------------- names

  predicate NameSep(c: char) {
    c == '-' || c == '_' || c == '.'
  }

  /** Runs of separators become one "-"; afterSep says the previous character was one. */
  function CollapseSeps(s: string, afterSep: bool): string {
    if s == "" then ""
    else if NameSep(s[0]) then (if afterSep then "" else "-") + CollapseSeps(s[1..], true)
    else [s[0]] + CollapseSeps(s[1..], false)
  }

  function NormalizePypiName(s: string): string {
    CollapseSeps(ToLower(s), false)
  }

  /** The builder loop of the source. */
  method NormalizePypiNameLoop(s: string) returns (b: string)
    ensures b == NormalizePypiName(s)
  {
    hide CollapseSeps;
    var lower := ToLower(s);
    var prevSep := false;
    b := "";
    assert lower[0..] == lower;
    for i := 0 to |lower|
      invariant b + CollapseSeps(lower[i..], prevSep) == NormalizePypiName(s)
    {
      CollapseNext(lower, i, prevSep, b);
      if NameSep(lower[i]) {
        if !prevSep {
          b := b + "-";
        }
        prevSep := true;
      } else {
        b := b + [lower[i]];
        prevSep := false;
      }
    }
    CollapseNone(prevSep);
    assert lower[|lower|..] == "";
  }

  lemma CollapseNone(afterSep: bool)
    ensures CollapseSeps("", afterSep) == ""
  {
  }

  /** One character of the loop. */
  lemma CollapseNext(s: string, i: nat, afterSep: bool, b: string)
    requires i < |s|
    ensures b + CollapseSeps(s[i..], afterSep) ==
            (if !NameSep(s[i]) then b + [s[i]] else if afterSep then b else b + "-")
              + CollapseSeps(s[i + 1..], NameSep(s[i]))
  {
    var t := s[i..];
    assert t[1..] == s[i + 1..];
    hide NameSep;
  }

  /** A collapsed name: lower case, one kind of separator, no two in a row. */
  predicate Collapsed(s: string, afterSep: bool) {
    && (forall i :: 0 <= i < |s| ==> !IsUpper(s[i]) && s[i] != '_' && s[i] != '.')
    && (forall i :: 0 < i < |s| ==> !(s[i - 1] == '-' && s[i] == '-'))
    && (afterSep && s != "" ==> s[0] != '-')
  }

  lemma {:induction false} CollapseSepsCollapsed(s: string, afterSep: bool)
    requires forall i :: 0 <= i < |s| ==> !IsUpper(s[i])
    ensures Collapsed(CollapseSeps(s, afterSep), afterSep)
  {
    if s != "" {
      if NameSep(s[0]) {
        CollapseSepsCollapsed(s[1..], true);
        CollapsedCons('-', CollapseSeps(s[1..], true));
      } else {
        CollapseSepsCollapsed(s[1..], false);
        CollapsedCons(s[0], CollapseSeps(s[1..], false));
      }
    }
  }

  lemma CollapsedCons(c: char, s: string)
    requires !IsUpper(c) && c != '_' && c != '.' && Collapsed(s, c == '-')
    ensures Collapsed([c] + s, false)
    ensures c != '-' ==> Collapsed([c] + s, true)
  {
  }

  lemma {:induction false} CollapsedFixed(s: string, afterSep: bool)
    requires Collapsed(s, afterSep)
    ensures CollapseSeps(s, afterSep) == s
  {
    if s != "" {
      CollapsedFixed(s[1..], s[0] == '-');
      assert s == [s[0]] + s[1..];
    }
  }

  lemma LowerFixed(s: string)
    requires forall i :: 0 <= i < |s| ==> !IsUpper(s[i])
    ensures ToLower(s) == s
  {
  }

  /** Normalising twice changes nothing, so every spelling of a project meets at one key. */
  lemma NormalizePypiNameIdempotent(s: string)
    ensures NormalizePypiName(NormalizePypiName(s)) == NormalizePypiName(s)
  {
    var n := NormalizePypiName(s);
    CollapseSepsCollapsed(ToLower(s), false);
    LowerFixed(n);
    CollapsedFixed(n, false);
  }

  /** Cuts an OCI identity at its reference. */
  function OciRepoOnly(name: string): (r: string)
    ensures r <= name && ':' !in r && '@' !in r
    ensures ':' !in name && '@' !in name ==> r == name
  {
    if name == "" then ""
    else if name[0] == ':' || name[0] == '@' then ""
    else
      var r := OciRepoOnly(name[1..]);
      assert name == [name[0]] + name[1..];
      [name[0]] + r
  }

  // ---------------------------------------------------------------- keys

  function EcoName(ecosystem: string): string {
    ToLower(TrimSpace(ecosystem))
  }

  function KeyName(ecosystem: string, name: string): string {
    var n := TrimSpace(name);
    var eco := EcoName(ecosystem);
    if eco == "pypi" then NormalizePypiName(n)
    else if eco == "npm" then ToLower(n)
    else if eco == "oci" then ToLower(OciRepoOnly(n))
    else n
  }

  const NUL: char := 0 as char

  function MalwareKey(ecosystem: string, name: string): string {
    EcoName(ecosystem) + [NUL] + KeyName(ecosystem, name)
  }

  /** Ecosystem-aware version equality: PEP 440 for PyPI, trimmed text elsewhere. */
  predicate SameVersion(ecosystem: string, a: string, b: string) {
    if EqualFold(TrimSpace(ecosystem), "pypi") then Pep440Same(a, b)
    else TrimSpace(a) == TrimSpace(b)
  }

  lemma SameVersionIsEquivalence(ecosystem: string, a: string, b: string, c: string)
    ensures SameVersion(ecosystem, a, a)
    ensures SameVersion(ecosystem, a, b) ==> SameVersion(ecosystem, b, a)
    ensures SameVersion(ecosystem, a, b) && SameVersion(ecosystem, b, c) ==> SameVersion(ecosystem, a, c)
  {
    SameIsEquivalence(a, b, c);
    hide Pep440Same;
  }

  // ---------------------------------------------------------------- exactly when names and versions meet

  predicate Separators(s: string) {
    forall i :: 0 <= i < |s| ==> s[i] in "-_."
  }

  /** r is s in lower case with every run of "-", "_" and "." replaced by one "-": the substitution of
      PEP 503. */
  ghost predicate Substituted(s: string, r: string)
    decreases |s|
  {
    if s == "" then r == ""
    else if s[0] !in "-_." then r != "" && r[0] == LowerChar(s[0]) && Substituted(s[1..], r[1..])
    else
      exists n :: 0 < n <= |s| && Separators(s[..n]) && (n < |s| ==> s[n] !in "-_.") && r != "" && r[0] == '-' &&
                  Substituted(s[n..], r[1..])
  }

  lemma {:induction false} CollapseRun(s: string, n: nat)
    requires n <= |s| && (forall i :: 0 <= i < n ==> NameSep(s[i]))
    ensures CollapseSeps(s, true) == CollapseSeps(s[n..], true)
  {
    if n > 0 {
      CollapseRun(s[1..], n - 1);
      assert s[1..][n - 1..] == s[n..];
    }
  }

  lemma LowerParts(s: string, n: nat)
    requires n <= |s|
    ensures ToLower(s)[n..] == ToLower(s[n..])
    ensures forall i :: 0 <= i < |s| ==> (NameSep(ToLower(s)[i]) <==> s[i] in "-_.")
  {
    forall i | 0 <= i < |s| ensures NameSep(ToLower(s)[i]) <==> s[i] in "-_." {
      FoldsExactly(s[i]);
    }
  }

  lemma AfterSepIsOff(s: string)
    requires s == "" || !NameSep(s[0])
    ensures CollapseSeps(s, true) == CollapseSeps(s, false)
  {
  }

  lemma RunLength(s: string) returns (n: nat)
    requires s != "" && s[0] in "-_."
    ensures 0 < n <= |s| && Separators(s[..n]) && (n < |s| ==> s[n] !in "-_.")
  {
    n := 1;
    while n < |s| && s[n] in "-_."
      invariant 0 < n <= |s| && forall i :: 0 <= i < n ==> s[i] in "-_."
    {
      n := n + 1;
    }
  }

  lemma {:induction false} SubstitutedIs(s: string, r: string)
    ensures Substituted(s, r) <==> CollapseSeps(ToLower(s), false) == r
    decreases |s|
  {
    if s != "" {
      LowerParts(s, 1);
      if s[0] !in "-_." {
        SubstitutedIs(s[1..], if r == "" then "" else r[1..]);
        FoldsExactly(s[0]);
        assert r != "" ==> r == [r[0]] + r[1..];
      } else {
        forall n | 0 < n <= |s| && Separators(s[..n]) && (n < |s| ==> s[n] !in "-_.")
          ensures CollapseSeps(ToLower(s), false) == "-" + CollapseSeps(ToLower(s[n..]), false)
        {
          RunCollapses(s, n);
        }
        var n := RunLength(s);
        RunCollapses(s, n);
        assert r != "" ==> r == [r[0]] + r[1..];
        forall n | 0 < n <= |s|
          ensures r != "" ==> (Substituted(s[n..], r[1..]) <==> CollapseSeps(ToLower(s[n..]), false) == r[1..])
        {
          if r != "" { SubstitutedIs(s[n..], r[1..]); }
        }
        hide CollapseSeps;
      }
    }
  }

  lemma RunCollapses(s: string, n: nat)
    requires 0 < n <= |s| && Separators(s[..n]) && (n < |s| ==> s[n] !in "-_.")
    ensures CollapseSeps(ToLower(s), false) == "-" + CollapseSeps(ToLower(s[n..]), false)
  {
    var l := ToLower(s);
    LowerParts(s, n);
    assert forall i :: 0 <= i < n ==> s[i] == s[..n][i];
    CollapseRun(l[1..], n - 1);
    assert l[1..][n - 1..] == l[n..];
    AfterSepIsOff(l[n..]);
  }

  /** PyPI's normal form is PEP 503's. */
  lemma NormalisesExactly(s: string, r: string)
    ensures NormalizePypiName(s) == r <==> Substituted(s, r)
  {
    SubstitutedIs(s, r);
    hide CollapseSeps, Substituted;
  }

  /** What an OCI identity is cut to: everything before its first ":" or "@". */
  lemma {:induction false} RepoOnlyExactly(name: string)
    ensures var r := OciRepoOnly(name);
            name == r || (|r| < |name| && r == name[..|r|] && (name[|r|] == ':' || name[|r|] == '@'))
  {
    if name != "" && name[0] != ':' && name[0] != '@' {
      RepoOnlyExactly(name[1..]);
    }
  }

  /** Exactly when two spellings have one key: the ecosystems are one in any case, and the names are
      one as that ecosystem reads them. */
  lemma KeysMeetExactly(e: string, a: string, f: string, b: string)
    requires NUL !in EcoName(e) && NUL !in EcoName(f)
    ensures MalwareKey(e, a) == MalwareKey(f, b) <==>
              && EqualFold(TrimSpace(e), TrimSpace(f))
              && var x, y := TrimSpace(a), TrimSpace(b);
                 if EqualFold(TrimSpace(e), "pypi") then exists r :: Substituted(x, r) && Substituted(y, r)
                 else if EqualFold(TrimSpace(e), "npm") then EqualFold(x, y)
                 else if EqualFold(TrimSpace(e), "oci") then EqualFold(OciRepoOnly(x), OciRepoOnly(y))
                 else x == y
  {
    hide *;
    var x, y := TrimSpace(a), TrimSpace(b);
    Folded(e, "pypi");
    Folded(e, "npm");
    Folded(e, "oci");
    FoldsMeet(TrimSpace(e), TrimSpace(f));
    NormalFormsMeet(x, y);
    FoldsMeet(x, y);
    FoldsMeet(OciRepoOnly(x), OciRepoOnly(y));
    KeyParts(e, a, f, b);
    EcoNameIs(e);
    EcoNameIs(f);
    KeyNameIs(e, a);
    KeyNameIs(f, b);
  }

  lemma Folded(e: string, name: string)
    requires name == "pypi" || name == "npm" || name == "oci"
    ensures EqualFold(TrimSpace(e), name) <==> EcoName(e) == name
  {
    LowerFixed(name);
    hide TrimSpace, ToLower;
  }

  lemma FoldsMeet(x: string, y: string)
    ensures EqualFold(x, y) <==> ToLower(x) == ToLower(y)
  {
  }

  lemma EcoNameIs(e: string)
    ensures EcoName(e) == ToLower(TrimSpace(e))
  {
    hide TrimSpace, ToLower;
  }

  lemma KeyNameIs(e: string, a: string)
    ensures var n, eco := TrimSpace(a), EcoName(e);
            KeyName(e, a) == if eco == "pypi" then NormalizePypiName(n) else if eco == "npm" then ToLower(n)
                             else if eco == "oci" then ToLower(OciRepoOnly(n)) else n
  {
    hide TrimSpace, ToLower, EcoName, NormalizePypiName, OciRepoOnly;
  }

  lemma NormalFormsMeet(x: string, y: string)
    ensures NormalizePypiName(x) == NormalizePypiName(y) <==> exists r :: Substituted(x, r) && Substituted(y, r)
  {
    NormalisesExactly(x, NormalizePypiName(x));
    NormalisesExactly(y, NormalizePypiName(x));
    forall r | Substituted(x, r) && Substituted(y, r) ensures NormalizePypiName(x) == NormalizePypiName(y) {
      NormalisesExactly(x, r);
      NormalisesExactly(y, r);
    }
    hide NormalizePypiName, Substituted;
  }

  lemma KeyParts(e: string, a: string, f: string, b: string)
    requires NUL !in EcoName(e) && NUL !in EcoName(f)
    ensures MalwareKey(e, a) == MalwareKey(f, b) <==> EcoName(e) == EcoName(f) && KeyName(e, a) == KeyName(f, b)
  {
    hide EcoName, KeyName;
    IndexByteCut(EcoName(e), NUL, KeyName(e, a));
    IndexByteCut(EcoName(f), NUL, KeyName(f, b));
  }

  /** Exactly when two versions are the same release: for PyPI, when they mean the same to PEP 440's
      key; elsewhere, when they are the same text between spaces. */
  lemma SameVersionExactly(ecosystem: string, a: string, b: string)
    ensures SameVersion(ecosystem, a, b) <==>
              if EcoName(ecosystem) == "pypi" then MeaningOf(a) == MeaningOf(b) else TrimSpace(a) == TrimSpace(b)
  {
    SameIffMeaning(a, b);
    Folded(ecosystem, "pypi");
    hide Pep440Same, MeaningOf, TrimSpace, ToLower, EqualFold, EcoName;
  }
}
