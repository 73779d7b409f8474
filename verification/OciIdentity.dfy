/** ecosystem.go, oci.go, ocivalidate.go and malware.go: the OCI identity, a repository name
    with its reference, from the request path to the feed key. */
module OciIdentity {
  import opened GoStrings
  import opened PackageKeys
  import opened PathGuard

  // ---------------------------------------------------------------- legal names and references

  predicate LowerAlnum(c: char) {
    'a' <= c <= 'z' || IsDigit(c)
  }

  predicate Alnum(c: char) {
    LowerAlnum(c) || IsUpper(c)
  }

  predicate ValidComponent(c: string) {
    && c != "" && LowerAlnum(c[0]) && LowerAlnum(c[|c| - 1])
    && forall i :: 0 <= i < |c| ==> LowerAlnum(c[i]) || c[i] == '.' || c[i] == '_' || c[i] == '-'
  }

  predicate ValidName(s: string) {
    s != "" && |s| <= 255 && forall k :: 0 <= k < |Split(s, '/')| ==> ValidComponent(Split(s, '/')[k])
  }

  predicate ValidDigest(s: string, i: nat)
    requires i < |s|
  {
    && i > 0 && |s| - i - 1 >= 32
    && (forall j :: 0 <= j < i ==> Alnum(s[j]) || s[j] == '+' || s[j] == '.' || s[j] == '_' || s[j] == '-')
    && (forall j :: i < j < |s| ==> IsHex(s[j]))
  }

  predicate ValidRef(s: string) {
    var i := IndexByte(s, ':');
    s != "" &&
    if i >= 0 then ValidDigest(s, i)
    else
      && |s| <= 128 && (Alnum(s[0]) || s[0] == '_')
      && forall j :: 0 <= j < |s| ==> Alnum(s[j]) || s[j] == '.' || s[j] == '_' || s[j] == '-'
  }

  // ---------------------------------------------------------------- paths

  predicate FoldAt(s: string, sep: string, i: int) {
    0 <= i && i + |sep| <= |s| && EqualFold(s[i..i + |sep|], sep)
  }

  /** lastIndexFold: the last occurrence of sep at or before i, in any ASCII case, or -1. */
  function LastIndexFold(s: string, sep: string, i: int): (r: int)
    requires i + |sep| <= |s|
    ensures -1 <= r <= |s| && (r >= 0 ==> FoldAt(s, sep, r))
    ensures forall j :: r < j <= i ==> !FoldAt(s, sep, j)
    decreases i
  {
    if i < 0 then -1 else if FoldAt(s, sep, i) then i else LastIndexFold(s, sep, i - 1)
  }

  const API_PREFIX := "v2/"

  datatype Cut = Cut(name: string, ref: string)

  /** The two sides of the last separator. */
  function CutRest(rest: string, sep: string): Option<Cut> {
    var idx := LastIndexFold(rest, sep, |rest| - |sep|);
    if idx <= 0 then None else Some(Cut(rest[..idx], rest[idx + |sep|..]))
  }

  function CutTrimmed(p: string, sep: string): Option<Cut> {
    if |p| < |API_PREFIX| || !EqualFold(p[..|API_PREFIX|], API_PREFIX) then None
    else CutRest(p[|API_PREFIX|..], sep)
  }

  /** Where "/v2/<name><sep><ref>" is cut, before unescaping; shared by ociNameBefore and
      ociRefAfter. */
  function CutPath(path: string, sep: string): Option<Cut> {
    CutTrimmed(TrimPrefix(path, "/"), sep)
  }

  function NameBefore(path: string, sep: string): string {
    var c := CutPath(path, sep);
    var name := if c.Some? then Unescape(c.value.name) else None;
    if name.Some? then name.value else ""
  }

  function RefAfter(path: string, sep: string): string {
    var c := CutPath(path, sep);
    var ref := if c.Some? then Unescape(c.value.ref) else None;
    if ref.Some? then ref.value else ""
  }

  const MANIFESTS := "/manifests/"
  const BLOBS := "/blobs/"

  predicate LowerHex(c: char) {
    IsDigit(c) || 'a' <= c <= 'f'
  }

  const TAG_DIGEST := "sha256-"

  /** ociDigestFromTag: a digest spelled in tag position. */
  function DigestFromTag(ref: string): Option<string> {
    if |ref| == |TAG_DIGEST| + 64 && TAG_DIGEST <= ref && (forall i :: |TAG_DIGEST| <= i < |ref| ==> LowerHex(ref[i]))
    then Some("sha256:" + ref[|TAG_DIGEST|..]) else None
  }

  /** The reference a request commits to: a digest in tag position is the digest. */
  function Committed(ref: string): string {
    var d := DigestFromTag(ref);
    if ref == "" then "latest" else if d.Some? then d.value else ref
  }

  /** Exactly the 64-digit lower-case spelling in tag position is a digest, and it is the digest it
      spells; any other reference is committed to as it is, and none at all as "latest". */
  lemma CommittedExactly(ref: string)
    ensures forall h: string :: |h| == 64 && (forall i :: 0 <= i < 64 ==> '0' <= h[i] <= '9' || 'a' <= h[i] <= 'f') ==>
              Committed("sha256-" + h) == "sha256:" + h
    ensures ref != "" && (forall h: string :: ref == "sha256-" + h ==>
                            |h| != 64 || exists i :: 0 <= i < 64 && !('0' <= h[i] <= '9' || 'a' <= h[i] <= 'f')) ==>
              Committed(ref) == ref
    ensures Committed("") == "latest"
  {
    forall h: string | |h| == 64 && (forall i :: 0 <= i < 64 ==> '0' <= h[i] <= '9' || 'a' <= h[i] <= 'f')
      ensures Committed("sha256-" + h) == "sha256:" + h {
      var r := "sha256-" + h;
      assert r[|TAG_DIGEST|..] == h && forall i :: |TAG_DIGEST| <= i < |r| ==> r[i] == h[i - |TAG_DIGEST|];
    }
    if DigestFromTag(ref).Some? {
      var h := ref[|TAG_DIGEST|..];
      assert ref == "sha256-" + h && forall i :: 0 <= i < 64 ==>
               h[i] == ref[i + |TAG_DIGEST|] && LowerHex(ref[i + |TAG_DIGEST|]);
    }
  }

  function JoinRef(name: string, ref: string): string {
    var r := Committed(ref);
    name + (if ':' in r then "@" else ":") + r
  }

  function SplitRef(pkg: string): Cut {
    var i, j := LastIndexByte(pkg, '@'), LastIndexByte(pkg, ':');
    if i > 0 then Cut(pkg[..i], pkg[i + 1..])
    else if j > 0 then Cut(pkg[..j], pkg[j + 1..])
    else Cut(pkg, "latest")
  }

  /** OCI's PackageNameFromPath. */
  function PackageNameFromPath(path: string): string {
    var name := NameBefore(path, MANIFESTS);
    if name == "" then "" else JoinRef(name, RefAfter(path, MANIFESTS))
  }

  /** identityVersion: the reference an identity carries, with no "latest" default. */
  function IdentityVersion(ecosystem: string, pkg: string): Option<string> {
    var i, j := LastIndexByte(pkg, '@'), LastIndexByte(pkg, ':');
    if EcoName(ecosystem) != "oci" then None
    else if i > 0 then Some(pkg[i + 1..])
    else if j > 0 then Some(pkg[j + 1..])
    else None
  }

  // ---------------------------------------------------------------- what legal names leave out

  predicate NameChar(c: char) {
    LowerAlnum(c) || c == '.' || c == '_' || c == '-' || c == '/'
  }

  predicate RefChar(c: char) {
    Alnum(c) || c == '.' || c == '_' || c == '-' || c == '+' || c == ':'
  }

  lemma NameChars(s: string)
    requires ValidName(s)
    ensures forall i :: 0 <= i < |s| ==> NameChar(s[i])
    ensures LowerAlnum(s[0]) && LowerAlnum(s[|s| - 1])
  {
    var parts := Split(s, '/');
    JoinSplit(s, '/');
    hide Split;
    forall i | 0 <= i < |s| ensures NameChar(s[i]) {
      assert s[i] in Join(parts, '/');
      JoinMembers(parts, '/', s[i]);
      if s[i] != '/' {
        var k :| 0 <= k < |parts| && s[i] in parts[k];
        assert ValidComponent(parts[k]);
      }
    }
    JoinEnds(parts);
  }

  lemma {:induction false} JoinEnds(parts: seq<string>)
    requires parts != [] && forall k :: 0 <= k < |parts| ==> ValidComponent(parts[k])
    ensures var j := Join(parts, '/'); j != "" && LowerAlnum(j[0]) && LowerAlnum(j[|j| - 1])
  {
    assert ValidComponent(parts[0]);
    if |parts| > 1 {
      forall k | 0 <= k < |parts[1..]| ensures ValidComponent(parts[1..][k]) {
        assert ValidComponent(parts[k + 1]);
      }
      JoinEnds(parts[1..]);
    }
  }

  lemma RefChars(s: string)
    requires ValidRef(s)
    ensures s != "" && forall i :: 0 <= i < |s| ==> RefChar(s[i])
  {
    hide IndexByte;
  }

  // ---------------------------------------------------------------- the path round trip

  lemma FoldSlash(a: string, b: string, k: nat)
    requires EqualFold(a, b) && k < |b|
    ensures |a| == |b| && (a[k] == '/' <==> b[k] == '/')
  {
    assert ToLower(a)[k] == ToLower(b)[k];
    assert |ToLower(a)| == |ToLower(b)|;
  }

  lemma SlashAfter(name: string, sep: string, ref: string, r: int)
    requires sep != "" && sep[|sep| - 1] == '/' && FoldAt(name + ref, sep, r) && r + |sep| > |name|
    ensures '/' in ref
  {
    var s := name + ref;
    FoldSlash(s[r..r + |sep|], sep, |sep| - 1);
    assert s[r..r + |sep|][|sep| - 1] == s[r + |sep| - 1] == ref[r + |sep| - 1 - |name|];
  }

  /** The last separator is the real boundary, because a reference has no slash. */
  lemma LastSeparator(name: string, sep': string, sep: string, ref: string)
    requires sep != "" && sep[|sep| - 1] == '/' && EqualFold(sep', sep) && '/' !in ref
    ensures var s := name + sep' + ref;
            |sep'| == |sep| && LastIndexFold(s, sep, |s| - |sep|) == |name|
  {
    FoldSlash(sep', sep, |sep| - 1);
    var s := name + sep' + ref;
    assert s[|name|..|name| + |sep|] == sep';
    assert FoldAt(s, sep, |name|);
    var r := LastIndexFold(s, sep, |s| - |sep|);
    if r > |name| { SlashAfter(name + sep', sep, ref, r); }
    hide FoldAt, LastIndexFold;
  }

  lemma PrefixCut(pre: string, rest: string)
    requires |pre| == 3
    ensures TrimPrefix("/" + pre + rest, "/") == pre + rest
    ensures (pre + rest)[..3] == pre && (pre + rest)[3..] == rest
  {
    assert ("/" + pre + rest)[1..] == pre + rest;
  }

  lemma CutIs(pre: string, name: string, sep': string, sep: string, ref: string)
    requires EqualFold(pre, API_PREFIX) && name != ""
    requires sep != "" && sep[|sep| - 1] == '/' && EqualFold(sep', sep) && '/' !in ref
    ensures CutPath("/" + pre + name + sep' + ref, sep) == Some(Cut(name, ref))
  {
    hide *;
    PrefixLength(pre);
    LastSeparator(name, sep', sep, ref);
    var rest := name + sep' + ref;
    PrefixCut(pre, rest);
    CutPathIs("/" + pre + rest, sep);
    CutTrimmedIs(pre, rest, sep);
    CutRestIs(rest, sep);
    assert "/" + pre + name + sep' + ref == "/" + pre + rest;
    assert rest[..|name|] == name && rest[|name| + |sep|..] == ref;
  }

  lemma PrefixLength(pre: string)
    requires EqualFold(pre, API_PREFIX)
    ensures |pre| == 3
  {
    FoldSlash(pre, API_PREFIX, 2);
    hide EqualFold;
  }

  lemma CutPathIs(path: string, sep: string)
    ensures CutPath(path, sep) == CutTrimmed(TrimPrefix(path, "/"), sep)
  {
    hide CutTrimmed, TrimPrefix;
  }

  lemma CutTrimmedIs(pre: string, rest: string, sep: string)
    requires |pre| == 3 && EqualFold(pre, API_PREFIX)
    ensures CutTrimmed(pre + rest, sep) == CutRest(rest, sep)
  {
    assert (pre + rest)[..3] == pre && (pre + rest)[3..] == rest;
    hide CutRest, EqualFold;
  }

  lemma CutRestIs(rest: string, sep: string)
    requires |sep| <= |rest|
    ensures var idx := LastIndexFold(rest, sep, |rest| - |sep|);
            CutRest(rest, sep) == if idx <= 0 then None else Some(Cut(rest[..idx], rest[idx + |sep|..]))
  {
    hide LastIndexFold, FoldAt;
  }

  lemma PlainRef(ref: string)
    requires ref != "" && forall i :: 0 <= i < |ref| ==> RefChar(ref[i])
    ensures '/' !in ref && '%' !in ref && '@' !in ref && !IsSpace(ref[|ref| - 1])
  {
  }

  lemma PlainName(name: string)
    requires name != "" && forall i :: 0 <= i < |name| ==> NameChar(name[i])
    ensures '%' !in name && '@' !in name && ':' !in name && ToLower(name) == name && !IsSpace(name[0])
  {
  }

  /** Committing to a legal reference gives a legal reference, with no "/" or "@". */
  lemma CommittedPlain(ref: string)
    requires ValidRef(ref)
    ensures var r := Committed(ref); r != "" && forall i :: 0 <= i < |r| ==> RefChar(r[i])
  {
    RefChars(ref);
    hide ValidRef;
    var d := DigestFromTag(ref);
    if d.Some? {
      var hex := ref[|TAG_DIGEST|..];
      assert forall i :: 0 <= i < |hex| ==> hex[i] == ref[i + |TAG_DIGEST|];
      assert forall i :: 0 <= i < 7 ==> RefChar("sha256:"[i]);
    }
  }

  lemma SplitJoined(name: string, r: string)
    requires name != "" && '@' !in name && ':' !in name && '@' !in r
    ensures SplitRef(name + (if ':' in r then "@" else ":") + r) == Cut(name, r)
    ensures EcoName("oci") == "oci" ==>
              IdentityVersion("oci", name + (if ':' in r then "@" else ":") + r) == Some(r)
  {
    var c := if ':' in r then '@' else ':';
    var s := name + [c] + r;
    assert s == name + (if ':' in r then "@" else ":") + r;
    assert s[|name| + 1..] == r && s[..|name|] == name;
    LastIndexByteIs(s, c, |name|);
    hide EcoName, LastIndexByte;
    if ':' !in r {
      assert '@' !in s;
    }
  }

  lemma {:induction false} RepoOnlyCut(name: string, c: char, r: string)
    requires ':' !in name && '@' !in name && (c == ':' || c == '@')
    ensures OciRepoOnly(name + [c] + r) == name
  {
    var s := name + [c] + r;
    if name == "" {
      assert s[0] == c;
    } else {
      assert s[1..] == name[1..] + [c] + r;
      RepoOnlyCut(name[1..], c, r);
      assert name == [name[0]] + name[1..];
    }
  }

  lemma IsOci()
    ensures EcoName("oci") == "oci"
  {
    TrimSpaceFixed("oci");
    LowerFixed("oci");
  }

  lemma OciKey(ecosystem: string, id: string)
    requires EcoName(ecosystem) == "oci"
    ensures MalwareKey(ecosystem, id) == "oci" + [NUL] + ToLower(OciRepoOnly(TrimSpace(id)))
  {
    hide EcoName, OciRepoOnly, TrimSpace, ToLower;
  }

  /** For every legal name and reference, in every case spelling of the structural tokens:
      parsing the manifest path gives the joined identity; splitting that gives the name and
      the reference back, a digest in tag position read as the digest; the identity's version
      is that reference; and the feed key forgets the reference. */
  lemma ManifestRoundTrip(pre: string, sep: string, name: string, ref: string)
    requires EqualFold(pre, API_PREFIX) && EqualFold(sep, MANIFESTS) && ValidName(name) && ValidRef(ref)
    ensures var id := PackageNameFromPath("/" + pre + name + sep + ref);
            && id == JoinRef(name, ref)
            && SplitRef(id) == Cut(name, Committed(ref))
            && IdentityVersion("oci", id) == Some(Committed(ref))
            && MalwareKey("oci", id) == "oci" + [NUL] + name
  {
    hide *;
    ManifestPath(pre, sep, name, ref);
    RoundSplit(name, ref);
    NameChars(name);
    NameNotEmpty(name);
    PlainName(name);
    CommittedPlain(ref);
    PlainRef(Committed(ref));
    KeyForgets(name, ref, Committed(ref));
  }

  lemma ManifestPath(pre: string, sep: string, name: string, ref: string)
    requires EqualFold(pre, API_PREFIX) && EqualFold(sep, MANIFESTS) && ValidName(name) && ValidRef(ref)
    ensures PackageNameFromPath("/" + pre + name + sep + ref) == JoinRef(name, ref)
  {
    hide *;
    NameChars(name);
    RefChars(ref);
    NameNotEmpty(name);
    PlainName(name);
    PlainRef(ref);
    PlainDecodes(name);
    PlainDecodes(ref);
    ManifestsEnd();
    CutIs(pre, name, sep, MANIFESTS, ref);
    assert "/" + (pre + name + sep + ref) == "/" + pre + name + sep + ref;
    PathIs(pre + name + sep + ref, name, ref);
  }

  lemma NameNotEmpty(name: string)
    requires ValidName(name)
    ensures name != ""
  {
    hide Split;
  }

  lemma ManifestsEnd()
    ensures MANIFESTS != "" && MANIFESTS[|MANIFESTS| - 1] == '/'
    ensures BLOBS != "" && BLOBS[|BLOBS| - 1] == '/'
  {
  }

  lemma PathIs(tail: string, name: string, ref: string)
    requires CutPath("/" + tail, MANIFESTS) == Some(Cut(name, ref))
    requires Unescape(name) == Some(name) && Unescape(ref) == Some(ref) && name != ""
    ensures PackageNameFromPath("/" + tail) == JoinRef(name, ref)
  {
    hide CutPath, Unescape, JoinRef;
  }

  lemma JoinIs(name: string, ref: string)
    ensures JoinRef(name, ref) == name + (if ':' in Committed(ref) then "@" else ":") + Committed(ref)
  {
    hide Committed;
  }

  lemma KeyForgets(name: string, ref: string, r: string)
    requires r == Committed(ref) && r != "" && !IsSpace(r[|r| - 1])
    requires name != "" && ':' !in name && '@' !in name && ToLower(name) == name && !IsSpace(name[0])
    ensures MalwareKey("oci", JoinRef(name, ref)) == "oci" + [NUL] + name
  {
    hide *;
    JoinIs(name, ref);
    var c := if ':' in r then '@' else ':';
    var id := name + [c] + r;
    assert id == JoinRef(name, ref);
    TrimSpaceFixed(id);
    IsOci();
    OciKey("oci", id);
    RepoOnlyCut(name, c, r);
  }

  /** A blob path names the repository its manifest path names, however either is spelled. */
  lemma BlobAndManifestAgree(pre: string, sepB: string, sepM: string, name: string, blob: string, ref: string)
    requires EqualFold(pre, API_PREFIX) && EqualFold(sepB, BLOBS) && EqualFold(sepM, MANIFESTS)
    requires name != "" && '/' !in blob && '/' !in ref
    ensures NameBefore("/" + pre + name + sepB + blob, BLOBS) == NameBefore("/" + pre + name + sepM + ref, MANIFESTS)
  {
    ManifestsEnd();
    CutIs(pre, name, sepB, BLOBS, blob);
    CutIs(pre, name, sepM, MANIFESTS, ref);
    hide CutPath, Unescape;
  }

  /** Two requests get one identity exactly when they name one repository and commit to one
      reference. */
  lemma IdentityInjective(name: string, ref: string, name': string, ref': string)
    requires ValidName(name) && ValidRef(ref) && ValidName(name') && ValidRef(ref')
    ensures JoinRef(name, ref) == JoinRef(name', ref') <==> name == name' && Committed(ref) == Committed(ref')
  {
    hide *;
    RoundSplit(name, ref);
    RoundSplit(name', ref');
    JoinIs(name, ref);
    JoinIs(name', ref');
  }

  lemma RoundSplit(name: string, ref: string)
    requires ValidName(name) && ValidRef(ref)
    ensures SplitRef(JoinRef(name, ref)) == Cut(name, Committed(ref))
    ensures IdentityVersion("oci", JoinRef(name, ref)) == Some(Committed(ref))
  {
    hide *;
    IsOci();
    NameChars(name);
    NameNotEmpty(name);
    PlainName(name);
    CommittedPlain(ref);
    PlainRef(Committed(ref));
    SplitJoined(name, Committed(ref));
    JoinIs(name, ref);
  }
}
