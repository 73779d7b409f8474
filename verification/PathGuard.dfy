/** pathguard.go: the whitelist of request paths that every parser and every upstream must read
    alike. Strings are bytes: an escape decodes to one character below 256. */
module PathGuard {
  import opened GoStrings

  // ---------------------------------------------------------------- url.PathUnescape

  predicate IsHex(c: char) {
    IsDigit(c) || 'a' <= c <= 'f' || 'A' <= c <= 'F'
  }

  function HexValue(c: char): (v: nat)
    requires IsHex(c)
    ensures v < 16
  {
    if IsDigit(c) then c as int - '0' as int
    else if 'a' <= c <= 'f' then c as int - 'a' as int + 10
    else c as int - 'A' as int + 10
  }

  function Unescape(s: string): Option<string>
    decreases |s|
  {
    if s == "" then Some("")
    else if s[0] != '%' then
      var rest := Unescape(s[1..]);
      if rest.Some? then Some([s[0]] + rest.value) else None
    else if |s| < 3 || !IsHex(s[1]) || !IsHex(s[2]) then None
    else
      var rest := Unescape(s[3..]);
      if rest.Some? then Some([(16 * HexValue(s[1]) + HexValue(s[2])) as char] + rest.value) else None
  }

  // ---------------------------------------------------------------- checkRequestPath

  datatype Rejection = PathOK | EmptySegment | DotSegment | BadEscape | EncodedSlash | HiddenMarker

  predicate IsDot(part: string) {
    part == "." || part == ".."
  }

  /** The one legitimate encoded slash: a scope and a name, neither of them a dot segment. */
  predicate ScopedName(decoded: string) {
    && "@" <= decoded
    && var parts := Split(decoded, '/');
       |parts| == 2 && parts[0] != "" && parts[1] != "" && !IsDot(parts[1])
  }

  function CheckSegment(seg: string): Rejection {
    var decoded := Unescape(seg);
    if decoded.None? then BadEscape
    else if IsDot(decoded.value) then DotSegment
    else if '/' in decoded.value then
      if ScopedName(decoded.value) then PathOK else EncodedSlash
    else if seg != decoded.value && decoded.value == "-" then HiddenMarker
    else PathOK
  }

  function CheckSegments(segs: seq<string>): Rejection {
    if segs == [] then PathOK
    else
      var first := CheckSegment(segs[0]);
      if first != PathOK then first else CheckSegments(segs[1..])
  }

  const MARKER := "/-/"

  function CheckRequestPath(escapedPath: string): Rejection {
    if Contains(escapedPath, "//") then EmptySegment
    else
      var bad := CheckSegments(Split(TrimPrefix(escapedPath, "/"), '/'));
      if bad != PathOK then bad
      else
        var whole := Unescape(escapedPath);
        if whole.Some? && Contains(whole.value, MARKER) != Contains(escapedPath, MARKER) then HiddenMarker else PathOK
  }

  // ---------------------------------------------------------------- decoding and splitting

  /** The first unit of s, plain or escaped: how long it is and what it decodes to. */
  lemma UnescapeStep(s: string) returns (n: nat, c: char)
    requires s != "" && Unescape(s).Some?
    ensures 0 < n <= |s| && Unescape(s[n..]).Some? && Unescape(s) == Some([c] + Unescape(s[n..]).value)
    ensures forall b {:trigger s + b} :: Unescape(s[n..] + b).None? ==> Unescape(s + b).None?
    ensures forall b {:trigger s + b} :: Unescape(s[n..] + b).Some? ==>
              Unescape(s + b) == Some([c] + Unescape(s[n..] + b).value)
  {
    n := if s[0] == '%' then 3 else 1;
    c := if s[0] == '%' then (16 * HexValue(s[1]) + HexValue(s[2])) as char else s[0];
    forall b ensures Unescape(s[n..] + b).None? ==> Unescape(s + b).None?
             ensures Unescape(s[n..] + b).Some? ==> Unescape(s + b) == Some([c] + Unescape(s[n..] + b).value) {
      assert (s + b)[n..] == s[n..] + b;
    }
  }

  lemma {:induction false} UnescapeConcat(a: string, b: string)
    requires Unescape(a).Some?
    ensures Unescape(b).Some? ==> Unescape(a + b) == Some(Unescape(a).value + Unescape(b).value)
    ensures Unescape(b).None? ==> Unescape(a + b).None?
    decreases |a|
  {
    if a == "" {
      assert a + b == b;
      UnescapeEmpty();
      assert Unescape(b).Some? ==> "" + Unescape(b).value == Unescape(b).value;
    } else {
      hide Unescape;
      var n, c := UnescapeStep(a);
      UnescapeConcat(a[n..], b);
      if Unescape(b).Some? {
        assert [c] + (Unescape(a[n..]).value + Unescape(b).value) == Unescape(a).value + Unescape(b).value;
      }
    }
  }

  lemma {:induction false} PlainDecodes(s: string)
    requires '%' !in s
    ensures Unescape(s) == Some(s)
  {
    if s != "" {
      PlainDecodes(s[1..]);
      assert s == [s[0]] + s[1..];
    }
  }

  lemma UnescapePlain(c: char)
    requires c != '%'
    ensures Unescape([c]) == Some([c])
  {
    assert [c][1..] == "";
    assert Unescape("") == Some("");
    assert [c] + "" == [c];
  }

  lemma UnescapeJoin(a: string, b: string)
    requires Unescape(a).Some? && Unescape(b).Some?
    ensures Unescape(a + ['/'] + b) == Some(Unescape(a).value + ['/'] + Unescape(b).value)
  {
    hide Unescape;
    UnescapePlain('/');
    UnescapeConcat(a, ['/']);
    UnescapeConcat(a + ['/'], b);
  }

  lemma {:induction false} SplitConcat(a: string, b: string)
    ensures Split(a + ['/'] + b, '/') == Split(a, '/') + Split(b, '/')
    decreases |a|
  {
    hide *;
    SplitStep(a, '/');
    var i := IndexByte(a, '/');
    if i < 0 {
      SplitCons(a, '/', b);
    } else {
      Glue(a, i);
      var x, y := a[..i], a[i + 1..];
      SplitConcat(y, b);
      assert a + ['/'] + b == x + ['/'] + (y + ['/'] + b);
      SplitCons(x, '/', y + ['/'] + b);
    }
  }

  /** The decoded parts of a sequence of segments: a scoped segment gives two. */
  function Parts(segs: seq<string>): seq<string>
    requires forall i :: 0 <= i < |segs| ==> Unescape(segs[i]).Some?
  {
    if segs == [] then [] else Split(Unescape(segs[0]).value, '/') + Parts(segs[1..])
  }

  lemma {:induction false} SegmentsDecode(segs: seq<string>)
    requires CheckSegments(segs) == PathOK
    ensures forall i :: 0 <= i < |segs| ==> CheckSegment(segs[i]) == PathOK && Unescape(segs[i]).Some?
  {
    if segs != [] {
      SegmentsDecode(segs[1..]);
      hide Unescape, ScopedName;
      forall i | 0 <= i < |segs| ensures CheckSegment(segs[i]) == PathOK {
        if i > 0 { assert segs[i] == segs[1..][i - 1]; }
      }
    }
  }

  /** Decoding a joined path splits into the decoded parts of its segments. */
  lemma {:induction false} DecodedSplit(segs: seq<string>)
    requires segs != [] && forall i :: 0 <= i < |segs| ==> Unescape(segs[i]).Some?
    ensures Unescape(Join(segs, '/')).Some?
    ensures Split(Unescape(Join(segs, '/')).value, '/') == Parts(segs)
  {
    hide Unescape, Split;
    if |segs| == 1 {
      assert segs == [segs[0]];
      JoinOne(segs[0], '/');
      assert Parts(segs[1..]) == [];
    } else {
      DecodedSplit(segs[1..]);
      JoinCons(segs[0], segs[1..], '/');
      assert segs == [segs[0]] + segs[1..];
      UnescapeJoin(segs[0], Join(segs[1..], '/'));
      SplitConcat(Unescape(segs[0]).value, Unescape(Join(segs[1..], '/')).value);
    }
  }

  // ---------------------------------------------------------------- empty parts

  /** An empty part with a part on either side. */
  predicate InnerEmpty(parts: seq<string>) {
    |parts| >= 3 && (parts[1] == "" || InnerEmpty(parts[1..]))
  }

  lemma DoubleSlashAt(s: string, i: int)
    ensures At(s, "//", i) <==> 0 <= i < |s| - 1 && s[i] == '/' && s[i + 1] == '/'
  {
    if 0 <= i < |s| - 1 {
      assert s[i..i + 2] == [s[i], s[i + 1]];
      assert "//" == ['/', '/'];
    }
  }

  lemma DoubleSlashShift(a: string, b: string, i: int)
    requires '/' !in a
    ensures At(a + ['/'] + b, "//", i) <==> (i == |a| && "/" <= b) || (i > |a| && At(b, "//", i - |a| - 1))
  {
    var s := a + ['/'] + b;
    DoubleSlashAt(s, i);
    DoubleSlashAt(b, i - |a| - 1);
    hide At;
    assert 0 <= i < |a| ==> s[i] == a[i] && a[i] in a;
  }

  lemma DoubleSlashCons(a: string, b: string)
    requires '/' !in a
    ensures Contains(a + ['/'] + b, "//") <==> "/" <= b || Contains(b, "//")
  {
    var s := a + ['/'] + b;
    hide At;
    if "/" <= b {
      DoubleSlashShift(a, b, |a|);
    }
    if i :| 0 <= i <= |b| && At(b, "//", i) {
      DoubleSlashShift(a, b, |a| + 1 + i);
    }
    if i :| 0 <= i <= |s| && At(s, "//", i) {
      DoubleSlashShift(a, b, i);
    }
  }

  lemma SplitFirst(s: string)
    ensures |Split(s, '/')| >= 2 && Split(s, '/')[0] == "" <==> "/" <= s
  {
    var i := IndexByte(s, '/');
    if i >= 0 { assert i == 0 <==> s[..i] == ""; }
    if "/" <= s { assert s[0] == '/'; assert i == 0 by { IndexByteIs(s, '/', 0); } }
    hide IndexByte;
  }

  lemma NoSlashNoDouble(s: string)
    requires '/' !in s
    ensures !Contains(s, "//")
  {
    assert forall k :: At(s, "//", k) ==> s[k] == s[k..k + 2][0] == '/';
  }

  /** A path has "//" exactly when it has an empty inner part. */
  lemma {:induction false} DoubleSlashIsInnerEmpty(s: string)
    ensures Contains(s, "//") <==> InnerEmpty(Split(s, '/'))
    decreases |s|
  {
    var i := IndexByte(s, '/');
    SplitStep(s, '/');
    if i < 0 {
      hide Split, IndexByte;
      NoSlashNoDouble(s);
    } else {
      var a, b := s[..i], s[i + 1..];
      Glue(s, i);
      DoubleSlashIsInnerEmpty(b);
      DoubleSlashCons(a, b);
      SplitFirst(b);
      hide Split, IndexByte, Contains;
      var rest := Split(b, '/');
      assert ([a] + rest)[1..] == rest;
    }
  }

  // ---------------------------------------------------------------- what the guard promises

  /** Any server that merges repeated slashes. */
  function CollapseSlashes(s: string): string {
    if |s| < 2 then s
    else if s[0] == '/' && s[1] == '/' then CollapseSlashes(s[1..])
    else [s[0]] + CollapseSlashes(s[1..])
  }

  lemma {:induction false} CollapseFixed(s: string)
    requires !Contains(s, "//")
    ensures CollapseSlashes(s) == s
  {
    if |s| >= 2 {
      assert !At(s, "//", 0);
      assert s[0..2] == [s[0], s[1]];
      forall i | At(s[1..], "//", i) ensures false {
        assert s[1..][i..i + 2] == s[1 + i..1 + i + 2];
        assert At(s, "//", i + 1);
      }
      CollapseFixed(s[1..]);
      assert s == [s[0]] + s[1..];
    }
  }

  lemma NoDoubleCons(c: char, r: string)
    requires !Contains(r, "//") && !(c == '/' && r != "" && r[0] == '/')
    ensures !Contains([c] + r, "//")
  {
    hide At;
    forall i | 0 <= i <= |[c] + r| ensures !At([c] + r, "//", i) {
      DoubleSlashAt([c] + r, i);
      DoubleSlashAt(r, i - 1);
    }
  }

  lemma {:induction false} CollapseClears(s: string)
    ensures !Contains(CollapseSlashes(s), "//") && |CollapseSlashes(s)| <= |s|
    ensures s != "" ==> CollapseSlashes(s) != "" && CollapseSlashes(s)[0] == s[0]
  {
    if |s| >= 2 {
      CollapseClears(s[1..]);
      if !(s[0] == '/' && s[1] == '/') {
        NoDoubleCons(s[0], CollapseSlashes(s[1..]));
      }
    } else {
      assert forall i :: !At(s, "//", i);
    }
  }

  /** Collapsing leaves no two slashes touching, and so leaves alone exactly the paths without. */
  lemma CollapseExactly(s: string)
    ensures !Contains(CollapseSlashes(s), "//")
    ensures CollapseSlashes(s) == s <==> !Contains(s, "//")
  {
    CollapseClears(s);
    if !Contains(s, "//") { CollapseFixed(s); }
  }

  predicate NoDots(parts: seq<string>) {
    forall i :: 0 <= i < |parts| ==> !IsDot(parts[i])
  }

  /** remove_dot_segments, section 5.2.4 of RFC 3986, rules A to E in order. */
  function RemoveDots(input: string, output: string): string
    decreases |input|
  {
    if input == "" then output
    else if "../" <= input then RemoveDots(input[3..], output)
    else if "./" <= input then RemoveDots(input[2..], output)
    else if "/./" <= input then RemoveDots(input[2..], output)
    else if input == "/." then RemoveDots("/", output)
    else if "/../" <= input then RemoveDots(input[3..], DropLast(output))
    else if input == "/.." then RemoveDots("/", DropLast(output))
    else if IsDot(input) then output
    else
      var n := FirstSegment(input);
      RemoveDots(input[n..], output + input[..n])
  }

  /** The output without its last segment and the slash before it. */
  function DropLast(output: string): string {
    var i := LastIndexByte(output, '/');
    if i < 0 then "" else output[..i]
  }

  /** The length of the first segment, with its leading slash if it has one. */
  function FirstSegment(input: string): (n: nat)
    requires input != ""
    ensures 0 < n <= |input| && '/' !in input[1..n] && (n < |input| ==> input[n] == '/')
  {
    var i := IndexByte(input[1..], '/');
    if i < 0 then |input|
    else
      assert input[1..i + 1] == input[1..][..i];
      i + 1
  }

  lemma {:induction false} SplitTail(s: string, n: nat)
    requires s != "" && n == FirstSegment(s)
    ensures s[0] != '/' ==> Split(s, '/')[0] == s[..n]
    ensures s[0] == '/' ==> |Split(s, '/')| >= 2 && Split(s, '/')[1] == s[1..n]
    ensures NoDots(Split(s, '/')) && n < |s| ==> NoDots(Split(s[n..], '/'))
  {
    hide *;
    var head, rest := s[..n], s[n..];
    if n < |s| {
      var x := s[n + 1..];
      assert rest == "" + ['/'] + x && s == head + ['/'] + x;
      SplitConcat("", x);
      SplitConcat(head, x);
      SplitStep("", '/');
      SplitHead(head);
      NoDotsTail(Split(head, '/'), [""], Split(x, '/'));
      assert s[1..n] == head[1..];
    } else {
      assert head == s;
      SplitHead(s);
      assert s[1..n] == s[1..];
    }
  }

  lemma SplitHead(head: string)
    requires head != "" && '/' !in head[1..]
    ensures Split(head, '/') == if head[0] == '/' then ["", head[1..]] else [head]
  {
    hide Split;
    if head[0] == '/' {
      assert head == "" + ['/'] + head[1..];
      SplitCons("", '/', head[1..]);
      SplitStep(head[1..], '/');
    } else {
      assert head == [head[0]] + head[1..];
      SplitStep(head, '/');
    }
  }

  lemma NoDotsTail(a: seq<string>, b: seq<string>, c: seq<string>)
    requires b == [""]
    ensures NoDots(a + c) ==> NoDots(b + c)
  {
    forall i | 0 <= i < |b + c| && NoDots(a + c) ensures !IsDot((b + c)[i]) {
      if i > 0 { assert (b + c)[i] == c[i - 1] == (a + c)[|a| + i - 1]; }
    }
  }

  /** With no dot part, only rule E ever applies. */
  lemma {:induction false} RemoveDotsFixed(input: string, output: string)
    requires NoDots(Split(input, '/'))
    ensures RemoveDots(input, output) == output + input
    decreases |input|
  {
    hide *;
    if input != "" {
      var n := FirstSegment(input);
      SplitTail(input, n);
      DotFree(input, n);
      RuleE(input, output, n);
      assert input == input[..n] + input[n..];
      if n < |input| {
        RemoveDotsFixed(input[n..], output + input[..n]);
        assert output + input[..n] + input[n..] == output + input;
      } else {
        assert input[n..] == "" && output + input[..n] == output + input;
        RemoveDotsNone(output + input);
      }
    } else {
      RemoveDotsNone(output);
    }
  }

  lemma RemoveDotsNone(output: string)
    ensures RemoveDots("", output) == output && output + "" == output
  {
  }

  lemma RuleE(s: string, output: string, n: nat)
    requires s != "" && n == FirstSegment(s)
    requires !("../" <= s) && !("./" <= s) && !("/./" <= s) && s != "/." && !("/../" <= s) && s != "/.." && !IsDot(s)
    ensures RemoveDots(s, output) == RemoveDots(s[n..], output + s[..n])
  {
    hide FirstSegment, DropLast, IsDot;
  }

  /** None of the rules A to D fires on an input whose first segment is not a dot segment. */
  lemma DotFree(s: string, n: nat)
    requires s != "" && n == FirstSegment(s) && NoDots(Split(s, '/'))
    ensures !("../" <= s) && !("./" <= s) && !("/./" <= s) && s != "/." && !("/../" <= s) && s != "/.." && !IsDot(s)
  {
    SplitTail(s, n);
    var parts := Split(s, '/');
    hide Split, FirstSegment;
    assert !IsDot(parts[0]);
    if s[0] == '/' {
      assert !IsDot(parts[1]);
      SegmentEnds(s, n);
    } else {
      SegmentEnds(s, n);
    }
  }

  lemma SegmentEnds(s: string, n: nat)
    requires s != "" && 0 < n <= |s| && '/' !in s[1..n] && (n < |s| ==> s[n] == '/')
    ensures "../" <= s ==> s[..n] == ".."
    ensures "./" <= s ==> s[..n] == "."
    ensures "/./" <= s || s == "/." ==> s[1..n] == "."
    ensures "/../" <= s || s == "/.." ==> s[1..n] == ".."
    ensures s == "." || s == ".." ==> s[..n] == s
  {
    assert forall i :: 1 <= i < n ==> s[i] == s[1..n][i - 1] != '/';
    if "../" <= s {
      assert s[0] == "../"[0] && s[1] == "../"[1] && s[2] == "../"[2];
      assert n == 2;
      assert s[..2] == "..";
    } else if "./" <= s {
      assert s[0] == "./"[0] && s[1] == "./"[1];
      assert n == 1;
      assert s[..1] == ".";
    }
    SlashedSegmentEnds(s, n);
  }

  lemma SlashedSegmentEnds(s: string, n: nat)
    requires s != "" && 0 < n <= |s| && (forall i :: 1 <= i < n ==> s[i] != '/') && (n < |s| ==> s[n] == '/')
    ensures "/./" <= s || s == "/." ==> s[1..n] == "."
    ensures "/../" <= s || s == "/.." ==> s[1..n] == ".."
  {
    if "/./" <= s {
      assert s[1] == "/./"[1] && s[2] == "/./"[2];
      assert n == 2;
      assert s[1..2] == ".";
    } else if "/../" <= s {
      assert s[1] == "/../"[1] && s[2] == "/../"[2] && s[3] == "/../"[3];
      assert n == 3;
      assert s[1..3] == "..";
    }
  }

  lemma {:induction false} PartsClean(segs: seq<string>)
    requires forall i :: 0 <= i < |segs| ==> CheckSegment(segs[i]) == PathOK && Unescape(segs[i]).Some?
    ensures NoDots(Parts(segs))
    ensures !InnerEmpty(segs) ==> !InnerEmpty(Parts(segs))
    ensures segs != [] && segs[0] != "" ==> Parts(segs) != [] && Parts(segs)[0] != ""
    ensures segs == [""] ==> Parts(segs) == [""]
    ensures |segs| >= 1 ==> |Parts(segs)| >= |segs|
  {
    hide *;
    PartsStep(segs);
    InnerEmptyNone();
    if segs != [] {
      PartsClean(segs[1..]);
      SegmentParts(segs[0]);
      var p, rest := Split(Unescape(segs[0]).value, '/'), Parts(segs[1..]);
      NoDotsConcat(p, rest);
      PartsStep(segs[1..]);
      if !InnerEmpty(segs) {
        RestJoins(segs, rest);
        PutBefore(p, rest);
      }
    }
  }

  lemma PartsStep(segs: seq<string>)
    requires forall i :: 0 <= i < |segs| ==> Unescape(segs[i]).Some?
    ensures segs == [] ==> Parts(segs) == [] && NoDots([])
    ensures segs != [] ==> Parts(segs) == Split(Unescape(segs[0]).value, '/') + Parts(segs[1..])
    ensures |segs| == 1 ==> segs[1..] == []
  {
    hide Split, Unescape;
  }

  lemma InnerEmptyNone()
    ensures !InnerEmpty([])
  {
  }

  lemma NoDotsConcat(a: seq<string>, b: seq<string>)
    requires NoDots(a) && NoDots(b)
    ensures NoDots(a + b)
  {
  }

  /** A legal segment decodes to one part, empty only if the segment is, or to a scope and a
      name. */
  lemma SegmentParts(seg: string)
    requires CheckSegment(seg) == PathOK
    ensures Unescape(seg).Some?
    ensures var p := Split(Unescape(seg).value, '/');
            && NoDots(p) && (|p| == 1 || |p| == 2)
            && (seg != "" ==> forall i :: 0 <= i < |p| ==> p[i] != "")
            && (seg == "" ==> p == [""])
  {
    assert seg == "" ==> Unescape(seg) == Some("");
    assert seg != "" && Unescape(seg).Some? ==> Unescape(seg).value != "";
    hide Unescape;
    var d := Unescape(seg).value;
    if '/' in d {
      ScopedParts(d);
    } else {
      SplitStep(d, '/');
      hide Split;
    }
  }

  lemma ScopedParts(d: string)
    requires ScopedName(d)
    ensures var p := Split(d, '/'); |p| == 2 && p[0] != "" && p[1] != "" && NoDots(p)
  {
    SplitAt(d);
    hide Split;
  }

  lemma SplitAt(d: string)
    requires "@" <= d
    ensures Split(d, '/') != [] && "@" <= Split(d, '/')[0]
  {
    SplitStep(d, '/');
    assert d[0] == '@';
    var i := IndexByte(d, '/');
    hide Split, IndexByte;
    assert i >= 0 ==> i > 0 && d[..i][0] == '@';
  }

  lemma PutBefore(p: seq<string>, rest: seq<string>)
    requires Joins(rest) && (|p| == 1 || (|p| == 2 && p[1] != ""))
    ensures !InnerEmpty(p + rest)
  {
    hide *;
    if |p| == 1 {
      assert p + rest == [p[0]] + rest;
      Prepend(p[0], rest);
    } else {
      Prepend(p[1], rest);
      Prepend(p[0], [p[1]] + rest);
      assert p + rest == [p[0]] + ([p[1]] + rest);
    }
  }

  /** Nothing empty would come to lie inside if a part were put in front. */
  predicate Joins(rest: seq<string>) {
    !InnerEmpty(rest) && (|rest| < 2 || rest[0] != "")
  }

  lemma Prepend(x: string, rest: seq<string>)
    requires Joins(rest)
    ensures !InnerEmpty([x] + rest) && (x != "" ==> Joins([x] + rest))
  {
    InnerEmptyCons(x, rest);
    hide InnerEmpty;
  }

  lemma RestJoins(segs: seq<string>, rest: seq<string>)
    requires segs != [] && !InnerEmpty(segs)
    requires !InnerEmpty(segs[1..]) ==> !InnerEmpty(rest)
    requires |segs| > 1 && segs[1] != "" ==> rest != [] && rest[0] != ""
    requires segs[1..] == [""] ==> rest == [""]
    requires |segs| == 1 ==> rest == []
    ensures Joins(rest)
  {
    assert segs == [segs[0]] + segs[1..];
    InnerEmptyCons(segs[0], segs[1..]);
    InnerEmptyShort(segs[1..]);
    InnerEmptyShort(rest);
    hide InnerEmpty;
    if |segs| > 1 && segs[1] == "" {
      assert segs[1..] == [""];
    }
  }

  lemma InnerEmptyShort(parts: seq<string>)
    ensures |parts| <= 2 ==> !InnerEmpty(parts)
  {
  }

  lemma InnerEmptyCons(x: string, rest: seq<string>)
    ensures InnerEmpty([x] + rest) <==> |rest| >= 2 && (rest[0] == "" || InnerEmpty(rest))
  {
    assert ([x] + rest)[1..] == rest;
  }

  /** What an accepted path decodes to. */
  lemma AcceptedDecodes(p: string)
    requires CheckRequestPath(p) == PathOK
    ensures Unescape(p).Some?
    ensures NoDots(Split(Unescape(p).value, '/')) && !InnerEmpty(Split(Unescape(p).value, '/'))
  {
    hide *;
    GuardSteps(p);
    var t := TrimPrefix(p, "/");
    var segs := Split(t, '/');
    SegmentsDecode(segs);
    JoinSplit(t, '/');
    DecodedSplit(segs);
    PartsClean(segs);
    DoubleSlashIsInnerEmpty(p);
    LeadingSlash(p, t, segs);
  }

  lemma GuardSteps(p: string)
    requires CheckRequestPath(p) == PathOK
    ensures !Contains(p, "//") && CheckSegments(Split(TrimPrefix(p, "/"), '/')) == PathOK
    ensures Unescape(p).Some? ==> (Contains(Unescape(p).value, MARKER) <==> Contains(p, MARKER))
  {
    hide Contains, Split, TrimPrefix, CheckSegments, Unescape;
  }

  lemma LeadingSlash(p: string, t: string, segs: seq<string>)
    requires t == TrimPrefix(p, "/") && segs == Split(t, '/') && !InnerEmpty(Split(p, '/'))
    requires Unescape(t).Some? && (forall i :: 0 <= i < |segs| ==> Unescape(segs[i]).Some?)
    requires Split(Unescape(t).value, '/') == Parts(segs)
    requires NoDots(Parts(segs)) && (!InnerEmpty(segs) ==> !InnerEmpty(Parts(segs)))
    requires segs[0] != "" ==> Parts(segs) != [] && Parts(segs)[0] != ""
    requires segs == [""] ==> Parts(segs) == [""]
    ensures Unescape(p).Some?
    ensures NoDots(Split(Unescape(p).value, '/')) && !InnerEmpty(Split(Unescape(p).value, '/'))
  {
    hide *;
    TrimSlash(p);
    if "/" <= p {
      UnescapeEmpty();
      UnescapeJoin("", t);
      SplitConcat("", t);
      SplitConcat("", Unescape(t).value);
      SplitEmpty();
      LeadingEmpty(segs, Parts(segs));
    }
  }

  lemma TrimSlash(p: string)
    ensures p == if "/" <= p then "" + ['/'] + TrimPrefix(p, "/") else TrimPrefix(p, "/")
  {
  }

  lemma LeadingEmpty(segs: seq<string>, parts: seq<string>)
    requires segs != [] && !InnerEmpty([""] + segs) && NoDots(parts) && (!InnerEmpty(segs) ==> !InnerEmpty(parts))
    requires segs[0] != "" ==> parts != [] && parts[0] != ""
    requires segs == [""] ==> parts == [""]
    ensures NoDots([""] + parts) && !InnerEmpty([""] + parts)
  {
    assert ([""] + segs)[1..] == segs && ([""] + parts)[1..] == parts;
    assert segs == [segs[0]] + segs[1..];
  }

  lemma UnescapeEmpty()
    ensures Unescape("") == Some("")
  {
  }

  lemma SplitEmpty()
    ensures Split("", '/') == [""]
  {
  }

  /** Every accepted path means the same before and after decoding and normalisation: it
      decodes; the decoded path has no empty inner part and no dot segment, so it is a fixed
      point of slash collapsing and of section 5.2.4 of RFC 3986; and the artifact marker is
      in it exactly when it is in the escaped path. */
  lemma AcceptedIsCanonical(p: string)
    requires CheckRequestPath(p) == PathOK
    ensures Unescape(p).Some?
    ensures var d := Unescape(p).value;
            && !Contains(d, "//") && NoDots(Split(d, '/'))
            && CollapseSlashes(d) == d && RemoveDots(d, "") == d
            && (Contains(d, MARKER) <==> Contains(p, MARKER))
  {
    hide *;
    AcceptedDecodes(p);
    GuardSteps(p);
    var d := Unescape(p).value;
    DoubleSlashIsInnerEmpty(d);
    CollapseFixed(d);
    RemoveDotsFixed(d, "");
    assert "" + d == d;
  }

  // ---------------------------------------------------------------- exactly what decodes

  const LOWER_HEX := "0123456789abcdef"
  const UPPER_HEX := "0123456789ABCDEF"

  /** c is the hexadecimal digit for n, in either case. */
  predicate HexFor(c: char, n: nat) {
    n < 16 && (c == LOWER_HEX[n] || c == UPPER_HEX[n])
  }

  lemma HexExactly(c: char)
    ensures IsHex(c) <==> exists n :: 0 <= n < 16 && HexFor(c, n)
    ensures forall n: nat :: HexFor(c, n) ==> IsHex(c) && HexValue(c) == n
  {
    if IsHex(c) {
      var n := HexValue(c);
      HexDigitAt(c, n);
    }
    forall n: nat | 0 <= n < 16 && HexFor(c, n) ensures IsHex(c) && HexValue(c) == n {
      HexDigitIs(n);
    }
  }

  lemma HexDigitAt(c: char, n: nat)
    requires IsHex(c) && HexValue(c) == n
    ensures HexFor(c, n)
  {
  }

  lemma HexDigitIs(n: nat)
    requires n < 16
    ensures IsHex(LOWER_HEX[n]) && HexValue(LOWER_HEX[n]) == n && IsHex(UPPER_HEX[n]) && HexValue(UPPER_HEX[n]) == n
  {
  }

  /** s spells d: each byte of d stands for itself, unless it is a percent sign, or is a percent
      sign and its two hexadecimal digits. */
  ghost predicate SpellsOut(s: string, d: string)
    decreases |d|
  {
    if d == "" then s == ""
    else
      || (s != "" && s[0] == d[0] && d[0] != '%' && SpellsOut(s[1..], d[1..]))
      || (|s| >= 3 && s[0] == '%' && SpellsOut(s[3..], d[1..]) &&
          exists i: nat, j: nat :: HexFor(s[1], i) && HexFor(s[2], j) && d[0] as int == 16 * i + j)
  }

  /** A string decodes to d if and only if it spells d. */
  lemma {:induction false} DecodesExactly(s: string, d: string)
    ensures Unescape(s) == Some(d) <==> SpellsOut(s, d)
    decreases |s|
  {
    if s != "" && d != "" {
      assert d == [d[0]] + d[1..];
      if s[0] != '%' {
        DecodesExactly(s[1..], d[1..]);
        Decoded1(s, d);
      } else if |s| >= 3 {
        DecodesExactly(s[3..], d[1..]);
        Decoded3(s, d);
      }
    }
  }

  lemma Decoded1(s: string, d: string)
    requires s != "" && d != "" && s[0] != '%' && (Unescape(s[1..]) == Some(d[1..]) <==> SpellsOut(s[1..], d[1..]))
    ensures Unescape(s) == Some(d) <==> SpellsOut(s, d)
  {
    assert d == [d[0]] + d[1..];
    hide HexFor;
  }

  lemma Decoded3(s: string, d: string)
    requires |s| >= 3 && d != "" && s[0] == '%' && (Unescape(s[3..]) == Some(d[1..]) <==> SpellsOut(s[3..], d[1..]))
    ensures Unescape(s) == Some(d) <==> SpellsOut(s, d)
  {
    assert d == [d[0]] + d[1..];
    HexPair(s[1], s[2], d[0]);
    Decodes3(s, d);
    hide HexFor, IsHex, HexValue, Unescape;
  }

  lemma Decodes3(s: string, d: string)
    requires |s| >= 3 && d != "" && s[0] == '%'
    ensures Unescape(s) == Some(d) <==>
              && IsHex(s[1]) && IsHex(s[2]) && 16 * HexValue(s[1]) + HexValue(s[2]) == d[0] as int
              && Unescape(s[3..]) == Some(d[1..])
  {
    assert d == [d[0]] + d[1..];
    hide IsHex, HexValue;
  }

  lemma HexPair(h: char, l: char, c: char)
    ensures IsHex(h) && IsHex(l) && 16 * HexValue(h) + HexValue(l) == c as int <==>
              exists i: nat, j: nat :: HexFor(h, i) && HexFor(l, j) && c as int == 16 * i + j
  {
    HexExactly(h);
    HexExactly(l);
    hide HexFor, IsHex, HexValue;
  }

  // ---------------------------------------------------------------- exactly what is accepted

  /** A scope and a name: two parts around one slash, the first starting with "@", the second
      neither empty nor a dot segment. */
  ghost predicate ScopeAndName(d: string) {
    exists a, b ::
      && d == a + ['/'] + b && a != "" && a[0] == '@' && '/' !in a && '/' !in b
      && b != "" && b != "." && b != ".."
  }

  lemma ScopedHasParts(d: string)
    requires ScopedName(d)
    ensures ScopeAndName(d)
  {
    JoinSplit(d, '/');
    var parts := Split(d, '/');
    hide Split, Contains;
    assert d[0] == '@';
    assert d == parts[0] + ['/'] + parts[1] by {
      assert parts == [parts[0], parts[1]] && parts[1..] == [parts[1]];
    }
  }

  lemma PartsAreScoped(d: string, a: string, b: string)
    requires d == a + ['/'] + b && a != "" && a[0] == '@' && '/' !in a && '/' !in b
    requires b != "" && b != "." && b != ".."
    ensures ScopedName(d)
  {
    SplitCons(a, '/', b);
    SplitStep(b, '/');
    hide Split;
    assert [a] + [b] == [a, b];
    assert "@" <= d by { assert d[..1] == "@"; }
  }

  lemma ScopedExactly(d: string)
    requires '/' in d
    ensures ScopedName(d) <==> ScopeAndName(d)
  {
    hide ScopedName;
    if ScopedName(d) { ScopedHasParts(d); }
    if ScopeAndName(d) {
      var a, b :| && d == a + ['/'] + b && a != "" && a[0] == '@' && '/' !in a && '/' !in b
                  && b != "" && b != "." && b != "..";
      PartsAreScoped(d, a, b);
    }
  }

  /** Why a segment is refused, or that it is not. */
  lemma SegmentExactly(seg: string)
    ensures CheckSegment(seg) == BadEscape <==> Unescape(seg).None?
    ensures Unescape(seg).Some? ==>
              var d := Unescape(seg).value;
              && (CheckSegment(seg) == DotSegment <==> d == "." || d == "..")
              && (CheckSegment(seg) == EncodedSlash <==> '/' in d && !ScopeAndName(d))
              && (CheckSegment(seg) == HiddenMarker <==> d == "-" && seg != "-")
              && CheckSegment(seg) != EmptySegment
  {
    if Unescape(seg).Some? && '/' in Unescape(seg).value { ScopedExactly(Unescape(seg).value); }
    hide Unescape, ScopedName, ScopeAndName;
  }

  /** A path is accepted if and only if no two slashes touch, every segment is accepted, and the
      artifact marker shows before decoding where it shows after; the refusal is that of the first
      of these to fail, and of the first segment to. */
  lemma {:induction false} SegmentsExactly(segs: seq<string>)
    ensures CheckSegments(segs) == PathOK <==> forall k :: 0 <= k < |segs| ==> CheckSegment(segs[k]) == PathOK
    ensures CheckSegments(segs) != PathOK ==>
              exists k :: 0 <= k < |segs| && CheckSegment(segs[k]) == CheckSegments(segs) &&
                          (forall j :: 0 <= j < k ==> CheckSegment(segs[j]) == PathOK)
  {
    hide CheckSegment;
    if segs != [] {
      SegmentsExactly(segs[1..]);
      assert forall k :: 0 < k < |segs| ==> segs[k] == segs[1..][k - 1];
      if CheckSegment(segs[0]) == PathOK && CheckSegments(segs) != PathOK {
        var k :| 0 <= k < |segs[1..]| && CheckSegment(segs[1..][k]) == CheckSegments(segs[1..]) &&
                 (forall j :: 0 <= j < k ==> CheckSegment(segs[1..][j]) == PathOK);
        assert CheckSegment(segs[k + 1]) == CheckSegments(segs);
      }
    }
  }

  /** A segment every reader reads alike. */
  ghost predicate CleanSegment(seg: string) {
    && Unescape(seg).Some?
    && var d := Unescape(seg).value;
       d != "." && d != ".." && ('/' in d ==> ScopeAndName(d)) && (d == "-" ==> seg == "-")
  }

  lemma CleanExactly(seg: string)
    ensures CheckSegment(seg) == PathOK <==> CleanSegment(seg)
  {
    SegmentExactly(seg);
    hide Unescape, ScopeAndName, CheckSegment;
  }

  /** The guard, exactly: a path is accepted if and only if no two slashes touch, each segment is
      clean, and decoding neither hides nor reveals an artifact marker. */
  lemma GuardExactly(p: string)
    ensures CheckRequestPath(p) == PathOK <==>
              && !Contains(p, "//")
              && (forall seg :: seg in Split(TrimPrefix(p, "/"), '/') ==> CleanSegment(seg))
              && (Unescape(p).Some? ==> (Contains(Unescape(p).value, MARKER) <==> Contains(p, MARKER)))
    ensures CheckRequestPath(p) == EmptySegment <==> Contains(p, "//")
  {
    var segs := Split(TrimPrefix(p, "/"), '/');
    SegmentsExactly(segs);
    forall seg | seg in segs ensures CheckSegment(seg) == PathOK <==> CleanSegment(seg) {
      CleanExactly(seg);
    }
    NeverEmptySegment(segs);
    hide Contains, Split, TrimPrefix, CheckSegments, CheckSegment, Unescape, CleanSegment;
  }

  lemma {:induction false} NeverEmptySegment(segs: seq<string>)
    ensures CheckSegments(segs) != EmptySegment
  {
    if segs != [] {
      NeverEmptySegment(segs[1..]);
      hide Unescape, ScopedName;
    }
  }
}
