/** operatorlist.go: exactly what each line of a list asks for, in each ecosystem's own spelling. */
module OperatorGrammar {
  import opened GoStrings
  import opened OperatorDisplay
  import opened OperatorList
  import opened PackageKeys

  // ---------------------------------------------------------------- a line and its text

  /** Of a line only the text is read: what stands, between spaces, before the first "#". */
  lemma TextExactly(line: string) returns (a: string, b: string, rest: string)
    ensures line == a + TextOf(line) + b + rest && AllSpace(a) && AllSpace(b)
    ensures AllSpace(rest) || rest[0] == '#'
    ensures var t := TextOf(line); t == "" || (!IsSpace(t[0]) && !IsSpace(t[|t| - 1]) && '#' !in t)
  {
    hide *;
    TextOfClean(line);
    TextOfIs(line);
    var x, y := TrimSpaceExactly(line);
    var text := TrimSpace(line);
    var i := IndexByte(text, '#');
    if i < 0 {
      a, b, rest := x, "", y;
      NoSpaces();
      NothingAfter(x, text, y);
    } else {
      var c, d := TrimSpaceExactly(text[..i]);
      a, b, rest := x + c, d, text[i..] + y;
      SpacesJoin(x, c);
      Nested(x, c, TextOf(line), d, text, i, y);
    }
  }

  lemma NothingAfter(x: string, text: string, y: string)
    ensures x + text + y == x + text + "" + y
  {
  }

  lemma Nested(x: string, c: string, t: string, d: string, text: string, i: nat, y: string)
    requires i < |text| && text[..i] == c + t + d
    ensures x + text + y == (x + c) + t + d + (text[i..] + y) && (text[i..] + y)[0] == text[i]
  {
    assert text == c + t + d + text[i..];
  }

  lemma NoSpaces()
    ensures AllSpace("")
  {
  }

  lemma SpacesJoin(x: string, y: string)
    requires AllSpace(x) && AllSpace(y)
    ensures AllSpace(x + y)
  {
  }

  /** A line without text asks for nothing; a blank or a tab inside the text is an error. */
  lemma BlankExactly(kind: Kind, ecosystem: string, line: string)
    ensures Meaning1(kind, ecosystem, line) == Meaning.Blank <==> TextOf(line) == ""
    ensures TextOf(line) != "" && (' ' in TextOf(line) || '\t' in TextOf(line)) ==>
              Meaning1(kind, ecosystem, line) == Bad(Whitespace)
  {
    hide TextOf, SplitEntry, CheckName, MalwareKey, TrimSpace;
  }

  // ---------------------------------------------------------------- any ecosystem

  lemma CleanReads(kind: Kind, ecosystem: string, t: string)
    requires Clean(t)
    ensures Meaning1(kind, ecosystem, t) == Reading(ecosystem, t, SplitEntry(kind, ecosystem, t))
  {
    TextOfFixed(t);
    hide TextOf, SplitEntry, Reading;
  }

  /** A clean text has no space at its end. */
  lemma EndsPlain(front: string, v: string)
    requires Clean(front + v)
    ensures TrimSpace(v) == "" <==> v == ""
  {
    var t := front + v;
    if v != "" {
      assert v[|v| - 1] == t[|t| - 1];
      hide TrimSpace;
      var a, b := TrimSpaceExactly(v);
    }
  }

  /** What a text asks for whose version starts after the front. */
  lemma PinReads(kind: Kind, ecosystem: string, n: string, front: string, v: string)
    requires Clean(front + v) && SplitEntry(kind, ecosystem, front + v) == Entry(n, v, true)
    ensures Meaning1(kind, ecosystem, front + v) ==
            if CheckName(ecosystem, n).Some? then Bad(CheckName(ecosystem, n).value)
            else if v == "" then Bad(EmptyVersion) else Pinned(MalwareKey(ecosystem, n), v)
  {
    hide *;
    CleanReads(kind, ecosystem, front + v);
    EndsPlain(front, v);
    ReadingIs(ecosystem, front + v, Entry(n, v, true));
  }

  lemma ReadingIs(ecosystem: string, t: string, e: Entry)
    ensures Reading(ecosystem, t, e) ==
            if CheckName(ecosystem, e.name).Some? then Bad(CheckName(ecosystem, e.name).value)
            else if e.pinned && TrimSpace(e.version) == "" then Bad(EmptyVersion)
            else if e.version == "" then Bare(MalwareKey(ecosystem, t))
            else Pinned(MalwareKey(ecosystem, e.name), e.version)
  {
    hide CheckName, TrimSpace, MalwareKey;
  }

  lemma BareReads(kind: Kind, ecosystem: string, t: string)
    requires Clean(t) && SplitEntry(kind, ecosystem, t) == Entry(t, "", false)
    ensures Meaning1(kind, ecosystem, t) ==
            if CheckName(ecosystem, t).Some? then Bad(CheckName(ecosystem, t).value) else Bare(MalwareKey(ecosystem, t))
  {
    CleanReads(kind, ecosystem, t);
    hide Clean, SplitEntry, CheckName, TrimSpace, MalwareKey, Meaning1;
  }

  // ---------------------------------------------------------------- npm

  predicate NpmNameOk(n: string) {
    n != "" && ':' !in n && '=' !in n && ('@' !in n || n[0] == '@')
  }

  lemma NpmNameIs(ecosystem: string, n: string)
    requires EcoName(ecosystem) == "npm" && n != ""
    ensures CheckName(ecosystem, n) == if NpmNameOk(n) then None else Some(NotAName)
  {
    hide EcoName;
    if '@' in n && n[0] == '@' { IndexByteIs(n, '@', 0); }
  }

  /** npm: what follows the last "@" past the start is a version. */
  lemma NpmPinExactly(kind: Kind, ecosystem: string, n: string, v: string)
    requires EcoName(ecosystem) == "npm" && n != "" && '@' !in v && Clean(n + ['@'] + v)
    ensures Meaning1(kind, ecosystem, n + ['@'] + v) ==
            if !NpmNameOk(n) then Bad(NotAName)
            else if v == "" then Bad(EmptyVersion) else Pinned(MalwareKey(ecosystem, n), v)
  {
    hide *;
    CutLast(n, '@', v);
    NpmSplit(kind, ecosystem, n + ['@'] + v);
    PinReads(kind, ecosystem, n, n + ['@'], v);
    NpmNameIs(ecosystem, n);
  }

  /** And any other text is a bare name. */
  lemma NpmBareExactly(kind: Kind, ecosystem: string, t: string)
    requires EcoName(ecosystem) == "npm" && Clean(t) && '@' !in t[1..]
    ensures Meaning1(kind, ecosystem, t) == if NpmNameOk(t) then Bare(MalwareKey(ecosystem, t)) else Bad(NotAName)
  {
    NoLaterAt(t);
    NpmSplit(kind, ecosystem, t);
    BareReads(kind, ecosystem, t);
    NpmNameIs(ecosystem, t);
    hide *;
  }

  lemma NoLaterAt(t: string)
    requires t != "" && '@' !in t[1..]
    ensures LastIndexByte(t, '@') <= 0
  {
    assert forall i :: 0 < i < |t| ==> t[i] == t[1..][i - 1];
  }

  // ---------------------------------------------------------------- PyPI

  predicate PypiNameOk(n: string) {
    n != "" && ':' !in n && '@' !in n && '=' !in n
  }

  lemma PypiNameIs(ecosystem: string, n: string)
    requires EcoName(ecosystem) == "pypi" && n != ""
    ensures CheckName(ecosystem, n) == if PypiNameOk(n) then None else Some(NotAName)
  {
    hide EcoName;
  }

  /** PyPI: what follows the first "==" or "===" is a version. */
  lemma PypiPinExactly(kind: Kind, ecosystem: string, n: string, third: string, v: string)
    requires EcoName(ecosystem) == "pypi" && n != "" && '=' !in n
    requires third == "=" || (third == "" && (v == "" || v[0] != '='))
    requires Clean(n + "==" + third + v)
    ensures Meaning1(kind, ecosystem, n + "==" + third + v) ==
            if !PypiNameOk(n) then Bad(NotAName)
            else if v == "" then Bad(EmptyVersion) else Pinned(MalwareKey(ecosystem, n), v)
  {
    var t := n + "==" + (third + v);
    assert n + "==" + third + v == t && t[..|n|] == n && t[|n| + 2..] == third + v;
    ThirdTrims(third, v);
    hide *;
    FirstDoubleEqual(n, third + v);
    PypiSplit(kind, ecosystem, t);
    PinReads(kind, ecosystem, n, n + "==" + third, v);
    PypiNameIs(ecosystem, n);
  }

  lemma ThirdTrims(third: string, v: string)
    requires third == "=" || (third == "" && (v == "" || v[0] != '='))
    ensures TrimPrefix(third + v, "=") == v
  {
    if third == "=" { assert (third + v)[1..] == v; } else { assert third + v == v; }
  }

  lemma PypiBareExactly(kind: Kind, ecosystem: string, t: string)
    requires EcoName(ecosystem) == "pypi" && Clean(t) && !Contains(t, "==")
    ensures Meaning1(kind, ecosystem, t) == if PypiNameOk(t) then Bare(MalwareKey(ecosystem, t)) else Bad(NotAName)
  {
    CleanParts(t);
    PypiSplit(kind, ecosystem, t);
    BareReads(kind, ecosystem, t);
    PypiNameIs(ecosystem, t);
    hide *;
  }

  // ---------------------------------------------------------------- Maven

  /** One ":" between group and artifact. */
  predicate MavenNameOk(n: string) {
    '@' !in n && '=' !in n && CountChar(n, ':') == 1
  }

  lemma MavenNameIs(ecosystem: string, n: string)
    requires EcoName(ecosystem) == "maven" && n != ""
    ensures CheckName(ecosystem, n) == if MavenNameOk(n) then None else Some(NotAName)
  {
    hide EcoName, CountChar;
  }

  /** Maven: of two ":" the second starts a version. */
  lemma MavenPinExactly(kind: Kind, ecosystem: string, n: string, v: string)
    requires EcoName(ecosystem) == "maven" && CountChar(n, ':') == 1 && ':' !in v && Clean(n + [':'] + v)
    ensures Meaning1(kind, ecosystem, n + [':'] + v) ==
            if !MavenNameOk(n) then Bad(NotAName)
            else if v == "" then Bad(EmptyVersion) else Pinned(MalwareKey(ecosystem, n), v)
  {
    TwoColons(n, v);
    hide *;
    CutLast(n, ':', v);
    MavenSplit(kind, ecosystem, n + [':'] + v);
    PinReads(kind, ecosystem, n, n + [':'], v);
    MavenNameIs(ecosystem, n);
  }

  lemma TwoColons(n: string, v: string)
    requires ':' !in v && CountChar(n, ':') == 1
    ensures CountChar(n + [':'] + v, ':') == 2 && n != ""
  {
    CountConcat(n + [':'], v, ':');
    CountConcat(n, [':'], ':');
    CountNone(v, ':');
  }

  lemma MavenBareExactly(kind: Kind, ecosystem: string, t: string)
    requires EcoName(ecosystem) == "maven" && Clean(t) && CountChar(t, ':') != 2
    ensures Meaning1(kind, ecosystem, t) == if MavenNameOk(t) then Bare(MalwareKey(ecosystem, t)) else Bad(NotAName)
  {
    CleanParts(t);
    MavenSplit(kind, ecosystem, t);
    BareReads(kind, ecosystem, t);
    MavenNameIs(ecosystem, t);
    hide *;
  }

  // ---------------------------------------------------------------- OCI

  lemma OciSplit(kind: Kind, ecosystem: string, t: string)
    requires EcoName(ecosystem) == "oci"
    ensures var i := LastIndexFrom(t, DIGEST_MARK, |t|);
            SplitEntry(kind, ecosystem, t) ==
            if kind == Allow && i > 0 then Entry(t[..i], t[i + 1..], true) else Entry(t, "", false)
  {
    hide EcoName, LastIndexFrom;
  }

  lemma OciNameIs(ecosystem: string, n: string)
    requires EcoName(ecosystem) == "oci"
    ensures CheckName(ecosystem, n).None?
  {
    hide EcoName;
  }

  /** OCI: an allow entry that ends in a digest is pinned to it. */
  lemma OciPinExactly(ecosystem: string, n: string, h: string)
    requires EcoName(ecosystem) == "oci" && n != "" && '@' !in h && Clean(n + "@sha256:" + h)
    ensures Meaning1(Allow, ecosystem, n + "@sha256:" + h) == Pinned(MalwareKey(ecosystem, n), "sha256:" + h)
  {
    var t := n + ['@'] + ("sha256:" + h);
    assert n + "@sha256:" + h == t;
    LastMark(n, h);
    OciSplit(Allow, ecosystem, t);
    OciNameIs(ecosystem, n);
    hide *;
    PinReads(Allow, ecosystem, n, n + ['@'], "sha256:" + h);
    assert "sha256:" + h != "";
  }

  /** And any other entry names the repository. */
  lemma OciBareExactly(kind: Kind, ecosystem: string, t: string)
    requires EcoName(ecosystem) == "oci" && Clean(t) && (kind == Deny || !Contains(t[1..], "@sha256:"))
    ensures Meaning1(kind, ecosystem, t) == Bare(MalwareKey(ecosystem, t))
  {
    if kind == Allow { NoLaterMark(t); }
    OciSplit(kind, ecosystem, t);
    OciNameIs(ecosystem, t);
    BareReads(kind, ecosystem, t);
    hide *;
  }

  lemma MarkStartsAt(t: string, r: int)
    requires At(t, DIGEST_MARK, r)
    ensures 0 <= r < |t| && t[r] == '@'
  {
    assert t[r..r + |DIGEST_MARK|][0] == '@';
  }

  lemma LastMark(n: string, h: string)
    requires '@' !in h
    ensures var t := n + ['@'] + ("sha256:" + h);
            LastIndexFrom(t, DIGEST_MARK, |t|) == |n| && t[..|n|] == n && t[|n| + 1..] == "sha256:" + h
  {
    var t := n + ['@'] + ("sha256:" + h);
    assert t[|n|..|n| + |DIGEST_MARK|] == DIGEST_MARK;
    assert At(t, DIGEST_MARK, |n|);
    var r := LastIndexFrom(t, DIGEST_MARK, |t|);
    hide At, LastIndexFrom;
    MarkStartsAt(t, r);
    assert forall k :: |n| < k < |t| ==> t[k] == ("sha256:" + h)[k - |n| - 1];
    assert '@' !in "sha256:" + h by { assert '@' !in "sha256:"; }
  }

  lemma NoLaterMark(t: string)
    requires t != "" && !Contains(t[1..], DIGEST_MARK)
    ensures LastIndexFrom(t, DIGEST_MARK, |t|) <= 0
  {
    var r := LastIndexFrom(t, DIGEST_MARK, |t|);
    if r > 0 { MarkShifts(t, r); }
    hide At, LastIndexFrom;
  }

  lemma MarkShifts(t: string, r: int)
    requires r > 0 && At(t, DIGEST_MARK, r)
    ensures At(t[1..], DIGEST_MARK, r - 1)
  {
    assert t[1..][r - 1..r - 1 + |DIGEST_MARK|] == t[r..r + |DIGEST_MARK|];
  }
}
