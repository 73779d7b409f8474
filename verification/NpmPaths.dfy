/** ecosystem.go and proxy.go, npm: which control point a request path is for, and which package
    and version it names. */
module NpmPaths {
  import opened GoStrings
  import opened PathGuard

  const TARBALL_PREFIX := "/_tarball/"

  datatype Artifact = Artifact(pkg: string, objectPath: string)

  /** npmArtifactPath, on the escaped path: the minted "/_tarball/" shape, or the registry's
      own "/<pkg>/-/<file>". */
  function NpmArtifactPath(esc: string): Option<Artifact> {
    if TARBALL_PREFIX <= esc then
      var rest := esc[|TARBALL_PREFIX|..];
      var slash := IndexByte(rest, '/');
      if slash <= 0 then None
      else
        var name := Unescape(rest[..slash]);
        if name.None? || name.value == "" then None else Some(Artifact(name.value, rest[slash..]))
    else
      var idx := Index(esc, MARKER);
      if idx <= 0 then None
      else
        var name := Unescape(TrimPrefix(esc[..idx], "/"));
        if name.None? || name.value == "" then None else Some(Artifact(name.value, esc))
  }

  /** url.PathUnescape with its error dropped. */
  function UnescapeOrEmpty(s: string): string {
    var u := Unescape(s);
    if u.Some? then u.value else ""
  }

  /** npm's PackageNameFromPath, on the decoded path; it unescapes the name once more. */
  function PackageNameFromPath(path: string): string {
    var p := TrimPrefix(path, "/");
    if p == "" || Contains(p, MARKER) || "-/" <= p then ""
    else
      var segs := Split(p, '/');
      if "@" <= segs[0] then
        if |segs| >= 2 then UnescapeOrEmpty(segs[0] + "/" + segs[1]) else segs[0]
      else UnescapeOrEmpty(segs[0])
  }

  predicate ControlPlanePath(p: string) {
    p == "/" || p == "" || MARKER <= p
  }

  datatype Route =
    | Refused(why: Rejection) | ByteGate(artifact: Artifact) | Metadata(name: string) | ControlPlane | UnknownPath

  /** ServeHTTP for npm: the guard, the byte gate, the metadata gate, then the unidentified. */
  function Dispatch(esc: string): Route {
    var bad := CheckRequestPath(esc);
    if bad != PathOK then Refused(bad)
    else
      var artifact := NpmArtifactPath(esc);
      if artifact.Some? then ByteGate(artifact.value)
      else
        var name := PackageNameFromPath(UnescapeOrEmpty(esc));
        if name != "" then Metadata(name)
        else if ControlPlanePath(esc) then ControlPlane
        else UnknownPath
  }

  // ---------------------------------------------------------------- completeness

  /** The byte gate's two shapes. */
  predicate ArtifactShape(esc: string) {
    if TARBALL_PREFIX <= esc then '/' in esc[|TARBALL_PREFIX|..] else Index(esc, MARKER) > 0
  }

  /** The part of a decoded path that PackageNameFromPath unescapes a second time. */
  function Identity(d: string): string {
    var segs := Split(TrimPrefix(d, "/"), '/');
    if "@" <= segs[0] then (if |segs| >= 2 then segs[0] + "/" + segs[1] else "") else segs[0]
  }

  lemma UnescapeNotEmpty(s: string)
    requires Unescape(s).Some?
    ensures s != "" <==> Unescape(s).value != ""
  {
  }

  /** A piece of an accepted path that ends at a slash decodes. */
  lemma PieceDecodes(a: string, b: string)
    requires Unescape(a + ['/'] + b).Some?
    ensures Unescape(a).Some?
  {
    if Unescape(a).None? { BadStays(a, b); }
  }

  lemma {:induction false} BadStays(a: string, b: string)
    requires Unescape(a).None?
    ensures Unescape(a + ['/'] + b).None?
    decreases |a|
  {
    var s := a + ['/'] + b;
    if a == "" {
    } else if a[0] != '%' {
      assert s[1..] == a[1..] + ['/'] + b;
      BadStays(a[1..], b);
    } else if |a| >= 3 && IsHex(a[1]) && IsHex(a[2]) {
      assert s[3..] == a[3..] + ['/'] + b;
      BadStays(a[3..], b);
    } else {
      BadHead(a, b);
    }
  }

  lemma BadHead(a: string, b: string)
    requires a != "" && a[0] == '%' && !(|a| >= 3 && IsHex(a[1]) && IsHex(a[2]))
    ensures Unescape(a + ['/'] + b).None?
  {
    var s := a + ['/'] + b;
    assert s[0] == '%';
    assert |a| == 1 ==> s[1] == '/';
    assert |a| == 2 ==> s[2] == '/';
    assert |a| >= 2 ==> s[1] == a[1];
    assert |a| >= 3 ==> s[2] == a[2];
    assert !IsHex('/');
    assert !(|s| >= 3 && IsHex(s[1]) && IsHex(s[2]));
  }

  /** What follows a plain prefix of a decodable string decodes. */
  lemma AfterPlain(pre: string, x: string)
    requires '%' !in pre && Unescape(pre + x).Some?
    ensures Unescape(x).Some? && Unescape(pre + x).value == pre + Unescape(x).value
  {
    PlainDecodes(pre);
    UnescapeConcat(pre, x);
    hide Unescape;
  }

  lemma MarkerAt(s: string, i: nat)
    requires At(s, MARKER, i)
    ensures s[i] == '/' && s[i + 1] == '-' && s[i + 2] == '/'
  {
    var m := s[i..i + 3];
    assert m[0] == s[i] && m[1] == s[i + 1] && m[2] == s[i + 2];
  }

  lemma DoubleAt(s: string, i: nat)
    requires i + 1 < |s| && s[i] == '/' && s[i + 1] == '/'
    ensures Contains(s, "//")
  {
    assert s[i..i + 2] == "//";
    assert At(s, "//", i);
  }

  lemma NoDouble(s: string, i: nat)
    requires !Contains(s, "//") && i + 1 < |s|
    ensures !(s[i] == '/' && s[i + 1] == '/')
  {
    if s[i] == '/' && s[i + 1] == '/' { DoubleAt(s, i); }
  }

  /** The minted shape is always claimed: the guard leaves nothing to decline. */
  lemma MintedClaimed(esc: string)
    requires !Contains(esc, "//") && Unescape(esc).Some? && TARBALL_PREFIX <= esc
    ensures NpmArtifactPath(esc).Some? <==> '/' in esc[|TARBALL_PREFIX|..]
  {
    hide Unescape, IndexByte, Contains, Index;
    var rest := esc[|TARBALL_PREFIX|..];
    var slash := IndexByte(rest, '/');
    if slash >= 0 {
      NoDouble(esc, |TARBALL_PREFIX| - 1);
      assert esc[|TARBALL_PREFIX| - 1] == '/' && rest[0] == esc[|TARBALL_PREFIX|];
      MintedPiece(esc, rest, slash);
    }
  }

  lemma MintedPiece(esc: string, rest: string, slash: nat)
    requires esc == TARBALL_PREFIX + rest && slash < |rest| && rest[slash] == '/' && Unescape(esc).Some?
    ensures Unescape(rest[..slash]).Some?
    ensures rest[..slash] != "" <==> Unescape(rest[..slash]).value != ""
  {
    hide Unescape;
    var a := TARBALL_PREFIX + rest[..slash];
    assert esc == a + ['/'] + rest[slash + 1..];
    PieceDecodes(a, rest[slash + 1..]);
    AfterPlain(TARBALL_PREFIX, rest[..slash]);
    UnescapeNotEmpty(rest[..slash]);
  }

  lemma NativeClaimed(esc: string)
    requires !Contains(esc, "//") && Unescape(esc).Some? && "/" <= esc && !(TARBALL_PREFIX <= esc)
    ensures NpmArtifactPath(esc).Some? <==> Index(esc, MARKER) > 0
  {
    var idx := Index(esc, MARKER);
    if idx > 0 {
      MarkerAt(esc, idx);
      NoDouble(esc, 0);
      assert esc[0] == '/';
      var x := esc[1..idx];
      assert esc[..idx] == "/" + x && TrimPrefix(esc[..idx], "/") == x;
      Glue(esc, idx);
      PieceDecodes(esc[..idx], esc[idx + 1..]);
      AfterPlain("/", x);
      UnescapeNotEmpty(x);
    }
    hide Unescape, IndexByte, Contains, Index, TrimPrefix;
  }

  lemma ByteGateExactly(esc: string)
    requires CheckRequestPath(esc) == PathOK && "/" <= esc
    ensures NpmArtifactPath(esc).Some? <==> ArtifactShape(esc)
  {
    AcceptedDecodes(esc);
    GuardSteps(esc);
    hide CheckRequestPath, NpmArtifactPath, Unescape, Contains, Index;
    if TARBALL_PREFIX <= esc {
      MintedClaimed(esc);
    } else {
      NativeClaimed(esc);
    }
  }

  lemma MintedMarker(esc: string, i: nat)
    requires TARBALL_PREFIX <= esc && At(esc, MARKER, i)
    ensures i > 0 && '/' in esc[|TARBALL_PREFIX|..]
  {
    MarkerAt(esc, i);
    assert forall k :: 0 < k < |TARBALL_PREFIX| - 1 ==> esc[k] == TARBALL_PREFIX[k] != '/';
    assert esc[1] == TARBALL_PREFIX[1] == '_';
    assert esc[|TARBALL_PREFIX|..][i + 2 - |TARBALL_PREFIX|] == esc[i + 2];
  }

  lemma MarkerPrefix(s: string)
    ensures At(s, MARKER, 0) <==> MARKER <= s
  {
    if At(s, MARKER, 0) { assert s[..3] == MARKER; }
  }

  /** Outside the byte gate's shapes a marker can only be at the start. */
  lemma MarkerOnlyFirst(esc: string)
    requires "/" <= esc && !ArtifactShape(esc)
    ensures Contains(esc, MARKER) <==> MARKER <= esc
  {
    MarkerPrefix(esc);
    var i := Index(esc, MARKER);
    if i >= 0 && TARBALL_PREFIX <= esc { MintedMarker(esc, i); }
    hide Index, MARKER;
  }

  lemma ContainsTail(d: string)
    requires d != "" && Contains(d[1..], MARKER)
    ensures Contains(d, MARKER)
  {
    var i :| 0 <= i <= |d[1..]| && At(d[1..], MARKER, i);
    assert d[1..][i..i + 3] == d[i + 1..i + 4];
    assert At(d, MARKER, i + 1);
  }

  lemma DashFirst(d: string)
    requires "/" <= d && "-/" <= d[1..]
    ensures Contains(d, MARKER)
  {
    assert d[..3] == ['/'] + d[1..][..2];
    assert At(d, MARKER, 0);
  }

  /** PackageNameFromPath on a decoded path without a marker: empty only if the second
      unescape fails. */
  lemma NameUnlessUnescape(d: string)
    requires "/" <= d && d != "/" && !Contains(d, "//") && !Contains(d, MARKER)
    ensures PackageNameFromPath(d) == "" <==> Unescape(Identity(d)).None?
  {
    var p := d[1..];
    assert d[0] == '/' && TrimPrefix(d, "/") == p;
    if Contains(p, MARKER) { ContainsTail(d); }
    if "-/" <= p { DashFirst(d); }
    NoDouble(d, 0);
    assert p[0] == d[1] != '/';
    var segs := Split(p, '/');
    FirstNotEmpty(p);
    hide Contains, Split, Unescape, TrimPrefix;
    if "@" <= segs[0] && |segs| < 2 {
      PlainDecodes("");
    } else {
      if Unescape(Identity(d)).Some? { UnescapeNotEmpty(Identity(d)); }
    }
  }

  lemma FirstNotEmpty(p: string)
    requires p != "" && p[0] != '/'
    ensures Split(p, '/')[0] != ""
  {
    SplitStep(p, '/');
    hide Split;
  }

  // ---------------------------------------------------------------- double escapes

  lemma {:induction false} PercentFromEscape(s: string)
    requires Unescape(s).Some? && '%' in Unescape(s).value
    ensures Contains(s, "%25")
    decreases |s|
  {
    var n := if s[0] == '%' then 3 else 1;
    if n == 3 && (16 * HexValue(s[1]) + HexValue(s[2])) as char == '%' {
      assert s[1] == '2' && s[2] == '5';
      assert s[0..3] == "%25";
      assert At(s, "%25", 0);
    } else {
      PercentFromEscape(s[n..]);
      var i :| 0 <= i <= |s[n..]| && At(s[n..], "%25", i);
      assert s[n..][i..i + 3] == s[n + i..n + i + 3];
      assert At(s, "%25", n + i);
    }
  }

  lemma IdentityMembers(d: string)
    requires '%' in Identity(d)
    ensures '%' in d
  {
    var p := TrimPrefix(d, "/");
    var segs := Split(p, '/');
    SplitMembers(p);
    hide Split, TrimPrefix;
    if "@" <= segs[0] && |segs| >= 2 {
      assert '%' in segs[0] || '%' in segs[1];
    } else {
      assert '%' in segs[0];
    }
    assert '%' in p;
    TrimMembers(d);
  }

  lemma TrimMembers(d: string)
    ensures forall c :: c in TrimPrefix(d, "/") ==> c in d
  {
  }

  lemma {:induction false} SplitMembers(p: string)
    ensures forall k, c :: 0 <= k < |Split(p, '/')| && c in Split(p, '/')[k] ==> c in p
    decreases |p|
  {
    SplitStep(p, '/');
    var i := IndexByte(p, '/');
    hide Split;
    if i >= 0 {
      SplitMembers(p[i + 1..]);
      var a, rest := p[..i], Split(p[i + 1..], '/');
      forall k, c | 0 <= k < |[a] + rest| && c in ([a] + rest)[k] ensures c in p {
        if k == 0 {
          assert c in a;
        } else {
          assert c in rest[k - 1];
          assert c in p[i + 1..];
        }
      }
    }
  }

  /** npm dispatch is complete. An accepted absolute path is the byte gate's exactly when it has
      one of the two artifact shapes; it is relayed as registry infrastructure exactly when it
      is "/" or starts with the marker; and it is unknown exactly when it is neither and the
      name in it does not survive a second unescape, which takes a double escape. Everything
      else is judged as metadata of a package with a non-empty name. */
  lemma DispatchIsComplete(esc: string)
    requires CheckRequestPath(esc) == PathOK && "/" <= esc
    ensures Unescape(esc).Some?
    ensures Dispatch(esc).ByteGate? <==> ArtifactShape(esc)
    ensures Dispatch(esc).ControlPlane? <==> esc == "/" || MARKER <= esc
    ensures Dispatch(esc).UnknownPath? <==>
              !ArtifactShape(esc) && esc != "/" && !(MARKER <= esc) && Unescape(Identity(Unescape(esc).value)).None?
    ensures Dispatch(esc).UnknownPath? ==> Contains(esc, "%25")
    ensures Dispatch(esc).Metadata? ==> Dispatch(esc).name != ""
  {
    hide *;
    AcceptedIsCanonical(esc);
    DispatchIs(esc);
    ByteGateExactly(esc);
    var d := Unescape(esc).value;
    Absolute(esc);
    if esc == "/" || MARKER <= esc { StartsAreControl(esc); }
    if !ArtifactShape(esc) {
      MarkerOnlyFirst(esc);
      if esc != "/" && !(MARKER <= esc) {
        NameUnlessUnescape(d);
        if Unescape(Identity(d)).None? { DoubleEscaped(esc); }
      }
    }
  }

  lemma DoubleEscaped(esc: string)
    requires Unescape(esc).Some? && Unescape(Identity(Unescape(esc).value)).None?
    ensures Contains(esc, "%25")
  {
    hide *;
    var d := Unescape(esc).value;
    if '%' !in Identity(d) { PlainDecodes(Identity(d)); }
    IdentityMembers(d);
    PercentFromEscape(esc);
  }

  /** Dispatch unfolded once. */
  lemma DispatchIs(esc: string)
    requires CheckRequestPath(esc) == PathOK && "/" <= esc && Unescape(esc).Some?
    ensures var d := Unescape(esc).value;
            && (Dispatch(esc).ByteGate? <==> NpmArtifactPath(esc).Some?)
            && (NpmArtifactPath(esc).None? && PackageNameFromPath(d) != "" ==>
                 Dispatch(esc) == Metadata(PackageNameFromPath(d)))
            && (NpmArtifactPath(esc).None? && PackageNameFromPath(d) == "" ==>
                  Dispatch(esc) == if esc == "/" || MARKER <= esc then ControlPlane else UnknownPath)
  {
    hide CheckRequestPath, NpmArtifactPath, Unescape, PackageNameFromPath;
  }

  lemma NoPathIsInfrastructure()
    ensures Dispatch("") == ControlPlane
  {
    SegmentsExactly([""]);
    assert Split("", '/') == [""];
    assert CheckSegment("") == PathOK;
  }

  /** What the guard refuses is refused, for the guard's reason, and nothing else is. */
  lemma RefusedExactly(esc: string)
    ensures Dispatch(esc).Refused? <==> CheckRequestPath(esc) != PathOK
    ensures Dispatch(esc).Refused? ==> Dispatch(esc).why == CheckRequestPath(esc)
  {
    hide CheckRequestPath, NpmArtifactPath, PackageNameFromPath, UnescapeOrEmpty;
  }

  lemma Absolute(esc: string)
    requires "/" <= esc && Unescape(esc).Some?
    ensures var d := Unescape(esc).value; "/" <= d && (d == "/" <==> esc == "/")
  {
    assert esc == "/" + esc[1..];
    AfterPlain("/", esc[1..]);
    UnescapeNotEmpty(esc[1..]);
    hide Unescape;
  }

  /** The enumerated control-plane paths are no artifact and name no package. */
  lemma StartsAreControl(esc: string)
    requires Unescape(esc).Some? && (esc == "/" || MARKER <= esc)
    ensures !ArtifactShape(esc) && PackageNameFromPath(Unescape(esc).value) == ""
  {
    if esc == "/" {
      PlainDecodes(esc);
      RootIsNothing(esc);
      assert !(TARBALL_PREFIX <= esc);
      hide Unescape, Index, PackageNameFromPath;
    } else {
      MarkerShape(esc);
      MarkerNames(esc);
    }
  }

  lemma MarkerShape(esc: string)
    requires MARKER <= esc
    ensures !ArtifactShape(esc)
  {
    MarkerPrefix(esc);
    assert esc[1] == '-' != TARBALL_PREFIX[1];
    hide At;
  }

  lemma MarkerNames(esc: string)
    requires Unescape(esc).Some? && MARKER <= esc
    ensures PackageNameFromPath(Unescape(esc).value) == ""
  {
    assert esc == MARKER + esc[3..];
    var rest := esc[3..];
    hide Unescape, PackageNameFromPath;
    AfterPlain(MARKER, rest);
    MarkerHasNoName(Unescape(rest).value);
  }

  lemma MarkerHasNoName(rest: string)
    ensures PackageNameFromPath(MARKER + rest) == ""
  {
    hide Split, UnescapeOrEmpty, Contains;
    assert (MARKER + rest)[1..] == "-/" + rest;
  }

  lemma RootIsNothing(esc: string)
    requires esc == "/"
    ensures Index(esc, MARKER) < 0 && PackageNameFromPath(esc) == ""
  {
    hide Split, UnescapeOrEmpty;
    assert forall i :: !At(esc, MARKER, i);
  }

  // ---------------------------------------------------------------- one name at both gates

  lemma {:induction false} UnescapeShrinks(s: string)
    requires Unescape(s).Some?
    ensures |Unescape(s).value| <= |s|
    ensures Unescape(s).value == s <==> '%' !in s
    decreases |s|
  {
    if s != "" {
      if s[0] == '%' {
        UnescapeShrinks(s[3..]);
      } else {
        UnescapeShrinks(s[1..]);
        assert s == [s[0]] + s[1..];
      }
    }
  }

  /** The names the metadata gate reads as they are, given decoded: no marker in them, and a
      bare scope, or no "%" and exactly one part, or two behind a scope. */
  predicate ReadAsIs(n: string) {
    && !Contains(n, MARKER) && !("-/" <= n)
    && var parts := |Split(n, '/')|;
       if "@" <= n then parts == 1 || (parts == 2 && '%' !in n) else parts == 1 && '%' !in n
  }

  /** The part PackageNameFromPath reads of a decoded path without a marker. */
  function ReadPart(segs: seq<string>): string
    requires segs != []
  {
    if "@" <= segs[0] && |segs| >= 2 then segs[0] + "/" + segs[1] else segs[0]
  }

  lemma MetadataReads(n: string)
    requires n != ""
    ensures Contains(n, MARKER) || "-/" <= n ==> PackageNameFromPath("/" + n) == ""
    ensures !Contains(n, MARKER) && !("-/" <= n) ==>
              var segs := Split(n, '/');
              PackageNameFromPath("/" + n) ==
              if "@" <= segs[0] && |segs| == 1 then segs[0] else UnescapeOrEmpty(ReadPart(segs))
  {
    var p := "/" + n;
    assert TrimPrefix(p, "/") == n by { assert p[1..] == n; }
    hide Contains, Split, UnescapeOrEmpty, TrimPrefix;
  }

  lemma PartLengths(n: string, segs: seq<string>)
    requires n != "" && segs == Split(n, '/')
    ensures |segs| == 1 ==> segs[0] == n
    ensures |segs| == 2 ==> n == segs[0] + "/" + segs[1]
    ensures |segs| >= 2 ==> |segs[0]| < |n|
    ensures |segs| > 2 ==> |segs[0] + "/" + segs[1]| < |n|
    ensures "@" <= segs[0] <==> "@" <= n
  {
    JoinSplit(n, '/');
    JoinTwo(segs);
    SplitStep(n, '/');
    var i := IndexByte(n, '/');
    if i >= 0 {
      assert n[0] == '@' && i > 0 ==> n[..i][0] == '@';
      assert i > 0 ==> n[..i][0] == n[0];
    }
    hide Split, Join, IndexByte;
  }

  lemma JoinTwo(segs: seq<string>)
    ensures |segs| == 2 ==> Join(segs, '/') == segs[0] + "/" + segs[1]
    ensures |segs| == 1 ==> Join(segs, '/') == segs[0]
    ensures |segs| > 2 ==> |Join(segs, '/')| > |segs[0] + "/" + segs[1]|
    ensures |segs| >= 2 ==> |Join(segs, '/')| > |segs[0]|
  {
    if |segs| == 2 {
      assert segs[1..] == [segs[1]];
    }
    if |segs| > 2 {
      assert segs[1..][0] == segs[1] && |segs[1..]| > 1;
      assert |Join(segs[1..], '/')| > |segs[1]|;
    }
  }

  lemma UnescapedWhole(id: string, n: string)
    requires n != ""
    ensures |id| < |n| ==> UnescapeOrEmpty(id) != n
    ensures id == n ==> (UnescapeOrEmpty(id) == n <==> '%' !in n)
  {
    if Unescape(id).Some? { UnescapeShrinks(id); }
    if '%' !in id { PlainDecodes(id); }
    hide Unescape;
  }

  /** What the metadata gate reads of a decoded path is the whole of it exactly if it is plain. */
  lemma MetadataName(n: string)
    requires n != ""
    ensures PackageNameFromPath("/" + n) == n <==> ReadAsIs(n)
  {
    hide PackageNameFromPath, Contains, Split, UnescapeOrEmpty;
    var segs := Split(n, '/');
    MetadataReads(n);
    PartLengths(n, segs);
    UnescapedWhole(ReadPart(segs), n);
  }

  /** Every tarball path the registry shape claims, and its package's metadata: the byte gate
      judges the decoded name, and the metadata gate judges the same one if and only if that
      name is read as it is. The metadata gate unescapes a name that is already decoded, stops
      after one part (two behind a scope), and reads no name with a marker in it. */
  lemma OneNameAtBothGates(x: string, file: string)
    requires x != "" && Unescape(x).Some?
    requires !Contains("/" + x + "/-", MARKER) && !(TARBALL_PREFIX <= "/" + x + MARKER + file)
    ensures var n := Unescape(x).value;
            var tarball := "/" + x + MARKER + file;
            && NpmArtifactPath(tarball) == Some(Artifact(n, tarball))
            && (PackageNameFromPath("/" + n) == n <==> ReadAsIs(n))
  {
    hide *;
    UnescapeNotEmpty(x);
    MetadataName(Unescape(x).value);
    TarballName(x, file, Unescape(x).value);
  }

  lemma NativeIs(esc: string, x: string)
    requires !(TARBALL_PREFIX <= esc) && Index(esc, MARKER) > 0 && TrimPrefix(esc[..Index(esc, MARKER)], "/") == x
    ensures NpmArtifactPath(esc) ==
            if Unescape(x).None? || Unescape(x).value == "" then None else Some(Artifact(Unescape(x).value, esc))
  {
    hide Unescape, Index, TrimPrefix, IndexByte;
  }

  lemma FrontOf(x: string, rest: string)
    ensures TrimPrefix(("/" + x + rest)[..|x| + 1], "/") == x
  {
    assert ("/" + x + rest)[..|x| + 1] == "/" + x;
    assert ("/" + x)[1..] == x;
  }

  lemma TarballIs(x: string, rest: string, n: string, tarball: string)
    requires Unescape(x) == Some(n) && n != "" && x != "" && tarball == "/" + x + rest
    requires Index(tarball, MARKER) == |x| + 1 && !(TARBALL_PREFIX <= tarball)
    ensures NpmArtifactPath(tarball) == Some(Artifact(n, tarball))
  {
    hide *;
    FrontOf(x, rest);
    NativeIs(tarball, x);
  }

  /** A path with a double escape that the guard accepts: its tarball is judged as "a%41" and its
      metadata as "aA". */
  lemma DoubleEscapeSplitsTheName(x: string, n: string, file: string, esc: string)
    requires x == "a%2541" && n == "a%41" && file == "f.tgz" && esc == "/" + x + MARKER + file
    ensures CheckRequestPath(esc) == PathOK && Unescape(x) == Some(n)
    ensures NpmArtifactPath(esc) == Some(Artifact(n, esc)) && PackageNameFromPath("/" + n) == "aA"
  {
    NotMinted(x, file, esc);
    ShortPlain(x, file);
    hide *;
    EscapedOnce(x);
    EscapedTwice(n);
    ShortMarker(x);
    TarballName(x, file, n);
    GuardAccepts(x, file, esc);
  }

  lemma ShortPlain(x: string, file: string)
    requires x == "a%2541" && file == "f.tgz"
    ensures x != "" && x != "-" && '/' !in x && '/' !in file
  {
  }

  lemma TarballName(x: string, file: string, n: string)
    requires Unescape(x) == Some(n) && n != "" && x != ""
    requires !Contains("/" + x + "/-", MARKER) && !(TARBALL_PREFIX <= "/" + x + MARKER + file)
    ensures NpmArtifactPath("/" + x + MARKER + file) == Some(Artifact(n, "/" + x + MARKER + file))
  {
    hide *;
    FirstMarker("/" + x, file);
    assert "/" + x + MARKER + file == "/" + x + (MARKER + file);
    TarballIs(x, MARKER + file, n, "/" + x + MARKER + file);
  }

  lemma NotMinted(x: string, file: string, esc: string)
    requires x != "" && x[0] == 'a' && esc == "/" + x + MARKER + file
    ensures !(TARBALL_PREFIX <= esc)
  {
    assert esc[1] == x[0] != TARBALL_PREFIX[1];
  }

  lemma EscapedOnce(x: string)
    requires x == "a%2541"
    ensures Unescape(x) == Some("a%41")
  {
    var y := x[1..];
    assert y == "%2541" && y[3..] == "41" && HexValue('2') == 2 && HexValue('5') == 5 && IsHex('2') && IsHex('5');
    assert (16 * 2 + 5) as char == '%';
    hide Unescape, HexValue, IsHex;
    PlainDecodes("41");
    UnescapeUnit(x);
    UnescapeUnit(y);
    assert ['%'] + "41" == "%41" && ['a'] + "%41" == "a%41";
  }

  /** Unescape unfolded at the head of a string. */
  lemma UnescapeUnit(s: string)
    requires s != ""
    ensures s[0] != '%' && Unescape(s[1..]).Some? ==> Unescape(s) == Some([s[0]] + Unescape(s[1..]).value)
    ensures s[0] == '%' && |s| >= 3 && IsHex(s[1]) && IsHex(s[2]) && Unescape(s[3..]).Some? ==>
              Unescape(s) == Some([(16 * HexValue(s[1]) + HexValue(s[2])) as char] + Unescape(s[3..]).value)
  {
  }

  lemma EscapedTwice(n: string)
    requires n == "a%41"
    ensures PackageNameFromPath("/" + n) == "aA"
  {
    assert n[0] == 'a' != "-/"[0] && n[0] != "@"[0];
    hide *;
    UnescapedA(n);
    NoMarker(n);
    MetadataReads(n);
    SplitStep(n, '/');
    OnePart(n);
    OrEmptyIs(n);
  }

  lemma OnePart(n: string)
    requires !("@" <= n)
    ensures ReadPart([n]) == n
  {
  }

  lemma OrEmptyIs(s: string)
    requires Unescape(s).Some?
    ensures UnescapeOrEmpty(s) == Unescape(s).value
  {
    hide Unescape;
  }

  lemma UnescapedA(n: string)
    requires n == "a%41"
    ensures Unescape(n) == Some("aA")
  {
    var y := n[1..];
    assert y == "%41" && y[3..] == "" && HexValue('4') == 4 && HexValue('1') == 1 && IsHex('4') && IsHex('1');
    assert (16 * 4 + 1) as char == 'A';
    hide Unescape, HexValue, IsHex;
    PlainDecodes("");
    UnescapeUnit(n);
    UnescapeUnit(y);
    assert ['A'] + "" == "A" && ['a'] + "A" == "aA";
  }

  lemma NoMarker(n: string)
    requires '/' !in n
    ensures !Contains(n, MARKER)
  {
    assert forall i :: At(n, MARKER, i) ==> n[i] == n[i..i + 3][0] == '/';
  }

  lemma MarkerInShort(x: string, i: nat)
    requires '/' !in x && At("/" + x + "/-", MARKER, i)
    ensures x == "-"
  {
    var s := "/" + x + "/-";
    MarkerAt(s, i);
    assert forall k :: 0 < k <= |x| ==> s[k] == x[k - 1];
    assert i == 0 && |x| == 1 && s[1] == x[0];
  }

  lemma ShortMarker(x: string)
    requires '/' !in x && x != "-"
    ensures !Contains("/" + x + "/-", MARKER)
  {
    var s := "/" + x + "/-";
    if Contains(s, MARKER) {
      var i :| 0 <= i <= |s| && At(s, MARKER, i);
      MarkerInShort(x, i);
    }
  }

  lemma CheckCons(a: string, rest: seq<string>)
    requires CheckSegment(a) == PathOK
    ensures CheckSegments([a] + rest) == CheckSegments(rest)
  {
    assert ([a] + rest)[1..] == rest;
    hide CheckSegment;
  }

  /** A segment that decodes to a plain word passes. */
  lemma PlainSegment(seg: string, d: string)
    requires Unescape(seg) == Some(d) && !IsDot(d) && '/' !in d && (d == "-" ==> seg == "-")
    ensures CheckSegment(seg) == PathOK
  {
    hide Unescape, IsDot;
  }

  lemma ThreeSegments(x: string, file: string, esc: string)
    requires '/' !in x && '/' !in file && x != "" && esc == "/" + x + MARKER + file
    ensures Split(TrimPrefix(esc, "/"), '/') == [x, "-", file]
    ensures !Contains(esc, "//")
  {
    var t := x + ['/'] + ("-" + ['/'] + file);
    Slashed(x, file, esc, t);
    hide *;
    SplitThree(x, file);
    SplitCons("", '/', t);
    DoubleSlashIsInnerEmpty(esc);
    NoInnerEmpty(x, file);
  }

  lemma Slashed(x: string, file: string, esc: string, t: string)
    requires esc == "/" + x + MARKER + file && t == x + ['/'] + ("-" + ['/'] + file)
    ensures esc == "" + ['/'] + t && TrimPrefix(esc, "/") == t
  {
    assert esc[1..] == t;
  }

  lemma SplitThree(x: string, file: string)
    requires '/' !in x && '/' !in file
    ensures Split(x + ['/'] + ("-" + ['/'] + file), '/') == [x, "-", file]
  {
    assert '/' !in "-";
    hide *;
    SplitCons(x, '/', "-" + ['/'] + file);
    SplitCons("-", '/', file);
    SplitStep(file, '/');
    assert [x] + (["-"] + [file]) == [x, "-", file];
  }

  lemma NoInnerEmpty(x: string, file: string)
    requires x != ""
    ensures !InnerEmpty([""] + [x, "-", file])
  {
    hide *;
    InnerEmptyCons("", [x, "-", file]);
    assert [x, "-", file] == [x] + ["-", file];
    InnerEmptyCons(x, ["-", file]);
    InnerEmptyShort(["-", file]);
  }

  lemma MarkerInside(x: string, rest: string)
    ensures Contains("" + ['/'] + (x + ['/'] + ("-" + ['/'] + rest)), MARKER)
  {
    var s := "" + ['/'] + (x + ['/'] + ("-" + ['/'] + rest));
    assert s[|x| + 1..|x| + 4] == MARKER;
    assert At(s, MARKER, |x| + 1);
  }

  lemma WholeHasMarker(x: string, file: string, esc: string, n: string)
    requires Unescape(x) == Some(n) && Unescape(file).Some? && esc == "" + ['/'] + (x + ['/'] + ("-" + ['/'] + file))
    ensures Unescape(esc).Some? && Contains(Unescape(esc).value, MARKER) && Contains(esc, MARKER)
  {
    hide *;
    MarkerInside(x, file);
    MarkerInside(n, Unescape(file).value);
    PlainDecodes("-");
    PlainDecodes("");
    UnescapeJoin("-", file);
    UnescapeJoin(x, "-" + ['/'] + file);
    UnescapeJoin("", x + ['/'] + ("-" + ['/'] + file));
  }

  lemma GuardAccepts(x: string, file: string, esc: string)
    requires x == "a%2541" && file == "f.tgz" && esc == "/" + x + MARKER + file
    requires Unescape(x) == Some("a%41")
    ensures CheckRequestPath(esc) == PathOK
  {
    assert !IsDot("a%41") && !IsDot("-") && !IsDot(file);
    assert esc == "" + ['/'] + (x + ['/'] + ("-" + ['/'] + file));
    hide *;
    PlainDecodes(file);
    PlainDecodes("-");
    PlainSegment(x, "a%41");
    PlainSegment("-", "-");
    PlainSegment(file, file);
    ThreeSegments(x, file, esc);
    WholeHasMarker(x, file, esc, "a%41");
    AllPass(x, "-", file);
    GuardPasses(esc);
  }

  lemma AllPass(a: string, b: string, c: string)
    requires CheckSegment(a) == PathOK && CheckSegment(b) == PathOK && CheckSegment(c) == PathOK
    ensures CheckSegments([a, b, c]) == PathOK
  {
    hide CheckSegment, CheckSegments;
    assert [a, b, c] == [a] + ([b] + ([c] + []));
    CheckCons(a, [b] + ([c] + []));
    CheckCons(b, [c] + []);
    CheckCons(c, []);
    NothingToCheck();
  }

  lemma NothingToCheck()
    ensures CheckSegments([]) == PathOK
  {
  }

  lemma GuardPasses(esc: string)
    requires !Contains(esc, "//") && CheckSegments(Split(TrimPrefix(esc, "/"), '/')) == PathOK
    requires Unescape(esc).Some? && Contains(Unescape(esc).value, MARKER) && Contains(esc, MARKER)
    ensures CheckRequestPath(esc) == PathOK
  {
    hide Contains, CheckSegments, Split, TrimPrefix, Unescape;
  }

  lemma FirstMarker(q: string, file: string)
    requires q != "" && !Contains(q + "/-", MARKER)
    ensures Index(q + MARKER + file, MARKER) == |q|
  {
    var s := q + MARKER + file;
    assert s[|q|..|q| + 3] == MARKER;
    assert At(s, MARKER, |q|);
    var i := Index(s, MARKER);
    assert 0 <= i <= |q|;
    if i < |q| {
      assert (q + "/-")[i..i + 3] == s[i..i + 3];
      assert At(q + "/-", MARKER, i);
    }
  }

  // ---------------------------------------------------------------- the version a tarball is served as

  function BaseName(pkg: string): string {
    var i := LastIndexByte(pkg, '/');
    if i >= 0 then pkg[i + 1..] else pkg
  }

  /** npmTarballVersionFromPath. */
  function TarballVersion(pkg: string, objectPath: string): Option<string> {
    var idx := Index(objectPath, MARKER);
    if idx <= 0 then None
    else
      var file := Unescape(objectPath[idx + 3..]);
      if file.None? || '/' in file.value then None
      else
        var rest := TrimPrefix(file.value, BaseName(pkg) + "-");
        if rest == file.value then None
        else
          var version := TrimSuffix(rest, ".tgz");
          if version == rest || version == "" then None else Some(version)
  }

  function FileName(pkg: string, version: string): string {
    BaseName(pkg) + "-" + version + ".tgz"
  }

  /** A tarball is read as version v exactly when its file name, decoded, is the one the
      registry gives that version. */
  lemma TarballVersionExact(pkg: string, q: string, file: string, v: string)
    requires q != "" && !Contains(q + "/-", MARKER)
    ensures TarballVersion(pkg, q + MARKER + file) == Some(v)
       <==> Unescape(file) == Some(FileName(pkg, v)) && v != "" && '/' !in v
  {
    FirstMarker(q, file);
    assert (q + MARKER + file)[|q| + 3..] == file;
    BaseNamePlain(pkg);
    hide Index, Unescape, BaseName, Contains;
    var b := BaseName(pkg) + "-";
    if Unescape(file).Some? {
      NameCut(b, Unescape(file).value, v);
      SlashIn(BaseName(pkg), v);
    }
    hide TrimPrefix, TrimSuffix;
  }

  /** A path without the marker, or that starts with it, is no version. */
  lemma NoMarkerNoVersion(pkg: string, p: string)
    requires !Contains(p, MARKER) || MARKER <= p
    ensures TarballVersion(pkg, p).None?
  {
    if MARKER <= p {
      MarkerPrefix(p);
      assert Contains(p, MARKER);
    }
    hide Unescape, BaseName, TrimPrefix, TrimSuffix, At;
  }

  lemma BaseNamePlain(pkg: string)
    ensures '/' !in BaseName(pkg)
  {
  }

  lemma SlashIn(base: string, v: string)
    requires '/' !in base
    ensures '/' in base + "-" + v + ".tgz" <==> '/' in v
  {
    assert '/' !in "-" && '/' !in ".tgz";
  }

  lemma NameCut(b: string, f: string, v: string)
    requires b != ""
    ensures f == b + v + ".tgz" <==>
            TrimPrefix(f, b) != f && HasSuffix(TrimPrefix(f, b), ".tgz") && TrimSuffix(TrimPrefix(f, b), ".tgz") == v
  {
    var r := TrimPrefix(f, b);
    if f == b + v + ".tgz" {
      assert f == b + (v + ".tgz");
      assert r == v + ".tgz";
      assert r[|r| - 4..] == ".tgz" && r[..|r| - 4] == v;
    }
    if r != f && HasSuffix(r, ".tgz") && TrimSuffix(r, ".tgz") == v {
      assert r == v + ".tgz";
      assert f == b + r;
    }
  }
}
