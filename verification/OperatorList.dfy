/** operatorlist.go: the hand-written allow and deny lists: the entry grammar of each
    ecosystem, the loaded list, its lookups, and the display form its digest is taken of. */
module OperatorList {
  import opened GoStrings
  import opened PackageKeys
  import opened Sorting

  // ---------------------------------------------------------------- the entry grammar

  datatype Kind = Allow | Deny

  datatype Error = Whitespace | NoPackage | NotAName | EmptyVersion

  function CountChar(s: string, c: char): nat {
    if s == "" then 0 else (if s[0] == c then 1 else 0) + CountChar(s[1..], c)
  }

  /** strings.LastIndex: the last occurrence of sub at or before i, or -1. */
  function LastIndexFrom(s: string, sub: string, i: int): (r: int)
    requires i <= |s|
    ensures -1 <= r <= |s|
    ensures r >= 0 ==> r <= i && At(s, sub, r)
    ensures forall j :: r < j <= i ==> !At(s, sub, j)
    decreases i
  {
    if i < 0 then -1 else if At(s, sub, i) then i else LastIndexFrom(s, sub, i - 1)
  }

  const DIGEST_MARK := "@sha256:"

  datatype Entry = Entry(name: string, version: string, pinned: bool)

  /** splitOperatorEntryFor: where a version starts, in each ecosystem's own spelling. */
  function SplitEntry(kind: Kind, ecosystem: string, text: string): Entry {
    var eco := EcoName(ecosystem);
    if eco == "oci" then
      var i := LastIndexFrom(text, DIGEST_MARK, |text|);
      if kind == Allow && i > 0 then Entry(text[..i], text[i + 1..], true) else Entry(text, "", false)
    else if eco == "pypi" then
      var i := Index(text, "==");
      if i > 0 then Entry(text[..i], TrimPrefix(text[i + 2..], "="), true) else Entry(text, "", false)
    else if eco == "maven" then
      var i := LastIndexByte(text, ':');
      if CountChar(text, ':') == 2 && i >= 0 then Entry(text[..i], text[i + 1..], true) else Entry(text, "", false)
    else
      var i := LastIndexByte(text, '@');
      if i > 0 then Entry(text[..i], text[i + 1..], true) else Entry(text, "", false)
  }

  function JoinEntry(ecosystem: string, name: string, version: string): string {
    var eco := EcoName(ecosystem);
    name + (if eco == "pypi" then "==" else if eco == "maven" then ":" else "@") + version
  }

  /** checkOperatorName: a separator is legal only where the ecosystem's grammar puts one. */
  function CheckName(ecosystem: string, name: string): Option<Error> {
    var eco := EcoName(ecosystem);
    if eco == "oci" then None
    else if name == "" then Some(NoPackage)
    else if eco == "pypi" then
      if ':' in name || '@' in name || '=' in name then Some(NotAName) else None
    else if eco == "maven" then
      if '@' in name || '=' in name || CountChar(name, ':') != 1 then Some(NotAName) else None
    else
      if ':' in name || '=' in name || IndexByte(name, '@') > 0 then Some(NotAName) else None
  }

  /** The text of a line with its comment and surrounding space removed. */
  function TextOf(line: string): string {
    var text := TrimSpace(line);
    var i := IndexByte(text, '#');
    if i >= 0 then TrimSpace(text[..i]) else text
  }

  datatype Meaning = Blank | Bare(key: string) | Pinned(key: string, version: string) | Bad(error: Error)

  /** What a non-empty text split as e asks for. */
  function Reading(ecosystem: string, text: string, e: Entry): Meaning {
    var bad := CheckName(ecosystem, e.name);
    if bad.Some? then Bad(bad.value)
    else if e.pinned && TrimSpace(e.version) == "" then Bad(EmptyVersion)
    else if e.version == "" then Bare(MalwareKey(ecosystem, text))
    else Pinned(MalwareKey(ecosystem, e.name), e.version)
  }

  /** What one line asks for. */
  function Meaning1(kind: Kind, ecosystem: string, line: string): Meaning {
    var text := TextOf(line);
    if text == "" then Blank
    else if ' ' in text || '\t' in text then Bad(Whitespace)
    else Reading(ecosystem, text, SplitEntry(kind, ecosystem, text))
  }

  // ---------------------------------------------------------------- the loaded list

  datatype List = List(names: set<string>, versions: map<string, seq<string>>)

  function VersionsAt(l: List, key: string): seq<string> {
    if key in l.versions then l.versions[key] else []
  }

  function Held(l: List, key: string, version: string): nat {
    multiset(VersionsAt(l, key))[version]
  }

  /** l holds the bare names and the pins, each as often as written. */
  ghost predicate Asks(l: List, ms: multiset<Meaning>) {
    && (forall k :: k in l.names <==> Bare(k) in ms)
    && (forall k, v :: Held(l, k, v) == ms[Pinned(k, v)])
  }

  /** l holds what the meanings ask for, and no empty slot. */
  ghost predicate Denotes(l: List, ms: multiset<Meaning>) {
    && Asks(l, ms)
    && (forall k :: k in l.versions ==> l.versions[k] != [])
  }

  function Meanings(kind: Kind, ecosystem: string, lines: seq<string>): seq<Meaning> {
    Map((line: string) => Meaning1(kind, ecosystem, line), lines)
  }

  datatype Parsed = Ok(list: List) | Err(line: nat, error: Error)

  /** parseOperatorList. A malformed line refuses the whole file, naming the first one. */
  method ParseOperatorList(kind: Kind, ecosystem: string, lines: seq<string>) returns (p: Parsed)
    ensures p.Ok? <==> forall i :: 0 <= i < |lines| ==> !Meaning1(kind, ecosystem, lines[i]).Bad?
    ensures p.Ok? ==> Denotes(p.list, multiset(Meanings(kind, ecosystem, lines)))
    ensures p.Err? ==>
      && p.line < |lines| && Meaning1(kind, ecosystem, lines[p.line]) == Bad(p.error)
      && forall i :: 0 <= i < p.line ==> !Meaning1(kind, ecosystem, lines[i]).Bad?
  {
    hide TextOf, SplitEntry, CheckName, MalwareKey, Denotes, TrimSpace;
    var l := List({}, map[]);
    ghost var ms := Meanings(kind, ecosystem, lines);
    assert ms[..0] == [];
    DenotesNone(l);
    for n := 0 to |lines|
      invariant Denotes(l, multiset(ms[..n]))
      invariant forall i :: 0 <= i < n ==> !Meaning1(kind, ecosystem, lines[i]).Bad?
    {
      assert ms[..n + 1] == ms[..n] + [Meaning1(kind, ecosystem, lines[n])];
      var text := TextOf(lines[n]);
      if text == "" {
        DenotesBlank(l, ms[..n]);
        continue;
      }
      if ' ' in text || '\t' in text {
        return Err(n, Whitespace);
      }
      var e := SplitEntry(kind, ecosystem, text);
      var bad := CheckName(ecosystem, e.name);
      if bad.Some? {
        return Err(n, bad.value);
      }
      if e.pinned && TrimSpace(e.version) == "" {
        return Err(n, EmptyVersion);
      }
      if e.version == "" {
        DenotesBare(l, ms[..n], MalwareKey(ecosystem, text));
        l := l.(names := l.names + {MalwareKey(ecosystem, text)});
        continue;
      }
      var key := MalwareKey(ecosystem, e.name);
      DenotesPin(l, ms[..n], key, e.version);
      l := l.(versions := l.versions[key := VersionsAt(l, key) + [e.version]]);
    }
    assert ms[..|lines|] == ms;
    p := Ok(l);
  }

  lemma DenotesNone(l: List)
    requires l == List({}, map[])
    ensures Denotes(l, multiset{})
  {
  }

  lemma DenotesBlank(l: List, ms: seq<Meaning>)
    requires Denotes(l, multiset(ms))
    ensures Denotes(l, multiset(ms + [Blank]))
  {
    assert multiset(ms + [Blank]) == multiset(ms) + multiset{Blank};
    hide Held;
  }

  lemma DenotesBare(l: List, ms: seq<Meaning>, key: string)
    requires Denotes(l, multiset(ms))
    ensures Denotes(l.(names := l.names + {key}), multiset(ms + [Bare(key)]))
  {
    var next := l.(names := l.names + {key});
    assert multiset(ms + [Bare(key)]) == multiset(ms) + multiset{Bare(key)};
    assert forall k, v :: Held(next, k, v) == Held(l, k, v);
    hide Held;
  }

  lemma HeldAfterPin(l: List, key: string, version: string, k: string, v: string)
    ensures Held(l.(versions := l.versions[key := VersionsAt(l, key) + [version]]), k, v)
         == Held(l, k, v) + if k == key && v == version then 1 else 0
  {
    assert multiset(VersionsAt(l, key) + [version]) == multiset(VersionsAt(l, key)) + multiset{version};
  }

  lemma DenotesPin(l: List, ms: seq<Meaning>, key: string, version: string)
    requires Denotes(l, multiset(ms))
    ensures var next := l.(versions := l.versions[key := VersionsAt(l, key) + [version]]);
            Denotes(next, multiset(ms + [Pinned(key, version)]))
  {
    var next := l.(versions := l.versions[key := VersionsAt(l, key) + [version]]);
    var p := Pinned(key, version);
    assert multiset(ms + [p]) == multiset(ms) + multiset{p};
    forall k, v ensures Held(next, k, v) == Held(l, k, v) + multiset{p}[Pinned(k, v)] {
      HeldAfterPin(l, key, version, k, v);
    }
    hide Held, VersionsAt;
  }

  // ---------------------------------------------------------------- lookups

  predicate Has(l: List, ecosystem: string, name: string) {
    MalwareKey(ecosystem, name) in l.names
  }

  predicate HasVersion(l: List, ecosystem: string, name: string, version: string) {
    version != "" && exists v :: v in VersionsAt(l, MalwareKey(ecosystem, name)) && SameVersion(ecosystem, v, version)
  }

  predicate Covers(l: List, ecosystem: string, name: string, version: string) {
    Has(l, ecosystem, name) || HasVersion(l, ecosystem, name, version)
  }

  predicate HasAnyVersion(l: List, ecosystem: string, name: string) {
    VersionsAt(l, MalwareKey(ecosystem, name)) != []
  }

  /** The loop of hasVersion. */
  method HasVersionLoop(l: List, ecosystem: string, name: string, version: string) returns (found: bool)
    ensures found == HasVersion(l, ecosystem, name, version)
  {
    hide SameVersion, MalwareKey;
    if version == "" {
      return false;
    }
    var vs := VersionsAt(l, MalwareKey(ecosystem, name));
    for i := 0 to |vs|
      invariant forall j :: 0 <= j < i ==> !SameVersion(ecosystem, vs[j], version)
    {
      if SameVersion(ecosystem, vs[i], version) {
        return true;
      }
    }
    found := false;
  }

  /** Every lookup answers from the lines as written. */
  lemma LookupsReadTheLines(kind: Kind, ecosystem: string, lines: seq<string>, l: List, name: string, version: string)
    requires Denotes(l, multiset(Meanings(kind, ecosystem, lines)))
    ensures var ms, key := Meanings(kind, ecosystem, lines), MalwareKey(ecosystem, name);
            && (Has(l, ecosystem, name) <==> Bare(key) in ms)
            && (HasAnyVersion(l, ecosystem, name) <==> exists v :: Pinned(key, v) in ms)
            && (HasVersion(l, ecosystem, name, version) <==>
                  version != "" && exists v :: Pinned(key, v) in ms && SameVersion(ecosystem, v, version))
  {
    var ms, key := Meanings(kind, ecosystem, lines), MalwareKey(ecosystem, name);
    hide Meanings, MalwareKey, SameVersion;
    var vs := VersionsAt(l, key);
    assert forall v :: v in multiset(vs) <==> Pinned(key, v) in multiset(ms);
    assert forall v :: v in vs <==> v in multiset(vs);
    if vs != [] { assert vs[0] in vs; }
  }

  // ---------------------------------------------------------------- more entries

  /** l' holds every entry of l. */
  ghost predicate Extends(l: List, l': List) {
    && l.names <= l'.names
    && forall k, v :: v in VersionsAt(l, k) ==> v in VersionsAt(l', k)
  }

  /** A file with more lines loads a list with no fewer entries. */
  lemma MoreLinesExtend(kind: Kind, ecosystem: string, lines: seq<string>, lines': seq<string>, l: List, l': List)
    requires forall i :: 0 <= i < |lines| ==> lines[i] in lines'
    requires Denotes(l, multiset(Meanings(kind, ecosystem, lines)))
             && Denotes(l', multiset(Meanings(kind, ecosystem, lines')))
    ensures Extends(l, l')
  {
    var ms, ms' := Meanings(kind, ecosystem, lines), Meanings(kind, ecosystem, lines');
    hide Meaning1;
    forall m | m in ms ensures m in multiset(ms') {
      var i :| 0 <= i < |ms| && ms[i] == m;
      var j :| 0 <= j < |lines'| && lines'[j] == lines[i];
      assert ms'[j] == m;
    }
    hide Meanings;
    forall k | k in l.names ensures k in l'.names {
      assert Bare(k) in ms;
    }
    forall k, v | v in VersionsAt(l, k) ensures v in VersionsAt(l', k) {
      assert Held(l, k, v) > 0;
      assert Pinned(k, v) in ms;
      assert Held(l', k, v) > 0;
    }
  }

  /** Every lookup that holds keeps holding. */
  lemma LookupsGrow(l: List, l': List, ecosystem: string, name: string, version: string)
    requires Extends(l, l')
    ensures Has(l, ecosystem, name) ==> Has(l', ecosystem, name)
    ensures HasAnyVersion(l, ecosystem, name) ==> HasAnyVersion(l', ecosystem, name)
    ensures HasVersion(l, ecosystem, name, version) ==> HasVersion(l', ecosystem, name, version)
  {
    hide MalwareKey, SameVersion;
    var key := MalwareKey(ecosystem, name);
    if HasAnyVersion(l, ecosystem, name) { assert VersionsAt(l, key)[0] in VersionsAt(l, key); }
  }

  // ---------------------------------------------------------------- the display form

  function AfterNul(key: string): string {
    var i := IndexByte(key, NUL);
    if i >= 0 then key[i + 1..] else key
  }

  function Display(ecosystem: string, m: Meaning): string {
    match m
    case Bare(key) => AfterNul(key)
    case Pinned(key, version) => JoinEntry(ecosystem, AfterNul(key), version)
    case _ => ""   // never part of a list
  }

  /** The whole contents of l as entries: each bare name once, each pin as often as held. */
  ghost predicate IsContents(items: seq<Meaning>, l: List) {
    && (forall i :: 0 <= i < |items| ==> items[i].Bare? || items[i].Pinned?)
    && (forall k :: multiset(items)[Bare(k)] == if k in l.names then 1 else 0)
    && (forall k, v :: multiset(items)[Pinned(k, v)] == Held(l, k, v))
  }

  function Displays(ecosystem: string, items: seq<Meaning>): seq<string> {
    Map((m: Meaning) => Display(ecosystem, m), items)
  }

  /** The two loops over Go maps that build the display list, then the sort. */
  method BuildEntries(ecosystem: string, l: List) returns (entries: seq<string>, ghost items: seq<Meaning>)
    ensures IsContents(items, l) && entries == SortStrings(Displays(ecosystem, items))
  {
    hide JoinEntry, AfterNul, SortStrings;
    entries, items := ListNames(ecosystem, l.names);
    ghost var bare := items;
    var keys := l.versions.Keys;
    while keys != {}
      invariant keys <= l.versions.Keys
      invariant forall i :: 0 <= i < |items| ==> items[i].Bare? || items[i].Pinned?
      invariant forall k :: multiset(items)[Bare(k)] == multiset(bare)[Bare(k)]
      invariant forall k, v :: multiset(items)[Pinned(k, v)] == if k in keys then 0 else Held(l, k, v)
      invariant entries == Displays(ecosystem, items)
      decreases |keys|
    {
      var key :| key in keys;
      entries, items := AppendPins(ecosystem, key, l.versions[key], entries, items);
      keys := keys - {key};
    }
    entries := SortStrings(entries);
  }

  method ListNames(ecosystem: string, names0: set<string>) returns (entries: seq<string>, ghost items: seq<Meaning>)
    ensures forall i :: 0 <= i < |items| ==> items[i].Bare?
    ensures forall k :: multiset(items)[Bare(k)] == if k in names0 then 1 else 0
    ensures forall k, v :: multiset(items)[Pinned(k, v)] == 0
    ensures entries == Displays(ecosystem, items)
  {
    hide JoinEntry, AfterNul;
    entries, items := [], [];
    var names := names0;
    while names != {}
      invariant names <= names0
      invariant forall i :: 0 <= i < |items| ==> items[i].Bare?
      invariant forall k :: multiset(items)[Bare(k)] == if k in names0 && k !in names then 1 else 0
      invariant entries == Displays(ecosystem, items)
      decreases |names|
    {
      var key :| key in names;
      entries := entries + [AfterNul(key)];
      items := items + [Bare(key)];
      names := names - {key};
    }
    assert forall k, v :: Pinned(k, v) !in items;
  }

  method AppendPins(ecosystem: string, key: string, vs: seq<string>, entries0: seq<string>, ghost items0: seq<Meaning>)
    returns (entries: seq<string>, ghost items: seq<Meaning>)
    requires forall i :: 0 <= i < |items0| ==> items0[i].Bare? || items0[i].Pinned?
    requires entries0 == Displays(ecosystem, items0)
    ensures forall i :: 0 <= i < |items| ==> items[i].Bare? || items[i].Pinned?
    ensures entries == Displays(ecosystem, items)
    ensures forall k :: multiset(items)[Bare(k)] == multiset(items0)[Bare(k)]
    ensures forall k, v :: multiset(items)[Pinned(k, v)] ==
              multiset(items0)[Pinned(k, v)] + if k == key then multiset(vs)[v] else 0
  {
    hide JoinEntry, AfterNul;
    entries, items := entries0, items0;
    for n := 0 to |vs|
      invariant forall i :: 0 <= i < |items| ==> items[i].Bare? || items[i].Pinned?
      invariant entries == Displays(ecosystem, items)
      invariant forall k :: multiset(items)[Bare(k)] == multiset(items0)[Bare(k)]
      invariant forall k, v ::
        multiset(items)[Pinned(k, v)] == multiset(items0)[Pinned(k, v)] + if k == key then multiset(vs[..n])[v] else 0
    {
      entries := entries + [JoinEntry(ecosystem, AfterNul(key), vs[n])];
      items := items + [Pinned(key, vs[n])];
      assert vs[..n + 1] == vs[..n] + [vs[n]];
    }
    assert vs[..|vs|] == vs;
  }

  // ---------------------------------------------------------------- independence of line order

  lemma MeaningsPermuted(kind: Kind, ecosystem: string, a: seq<string>, b: seq<string>)
    requires multiset(a) == multiset(b)
    ensures multiset(Meanings(kind, ecosystem, a)) == multiset(Meanings(kind, ecosystem, b))
  {
    hide Meaning1;
    var f := (line: string) => Meaning1(kind, ecosystem, line);
    MapPermuted(f, a, b);
    assert Meanings(kind, ecosystem, a) == Map(f, a) && Meanings(kind, ecosystem, b) == Map(f, b);
  }

  /** One file in two line orders: both load or neither does, they enforce the same entries,
      and their display lists, which the digest fingerprints, are equal, in whatever order
      the maps were iterated. */
  lemma EntriesIgnoreLineOrder(kind: Kind, ecosystem: string, lines: seq<string>, lines': seq<string>,
                               l: List, l': List, items: seq<Meaning>, items': seq<Meaning>)
    requires multiset(lines) == multiset(lines')
    requires Denotes(l, multiset(Meanings(kind, ecosystem, lines))) && IsContents(items, l)
    requires Denotes(l', multiset(Meanings(kind, ecosystem, lines'))) && IsContents(items', l')
    ensures l.names == l'.names && forall k :: multiset(VersionsAt(l, k)) == multiset(VersionsAt(l', k))
    ensures SortStrings(Displays(ecosystem, items)) == SortStrings(Displays(ecosystem, items'))
  {
    MeaningsPermuted(kind, ecosystem, lines, lines');
    hide Meaning1;
    SameContents(l, l', multiset(Meanings(kind, ecosystem, lines)));
    ItemsDetermined(l, l', items, items');
    EntriesDetermined(ecosystem, items, items');
  }

  lemma SameContents(l: List, l': List, ms: multiset<Meaning>)
    requires Asks(l, ms) && Asks(l', ms)
    ensures l.names == l'.names && forall k :: multiset(VersionsAt(l, k)) == multiset(VersionsAt(l', k))
  {
    forall k ensures multiset(VersionsAt(l, k)) == multiset(VersionsAt(l', k)) {
      forall v ensures multiset(VersionsAt(l, k))[v] == multiset(VersionsAt(l', k))[v] {
        assert Held(l, k, v) == ms[Pinned(k, v)] == Held(l', k, v);
      }
    }
  }

  lemma ItemsDetermined(l: List, l': List, items: seq<Meaning>, items': seq<Meaning>)
    requires IsContents(items, l) && IsContents(items', l')
    requires l.names == l'.names && forall k :: multiset(VersionsAt(l, k)) == multiset(VersionsAt(l', k))
    ensures multiset(items) == multiset(items')
  {
    forall m ensures multiset(items)[m] == multiset(items')[m] {
      match m
      case Bare(k) =>
      case Pinned(k, v) =>
      case _ => assert m !in items && m !in items';
    }
  }

  lemma EntriesDetermined(ecosystem: string, items: seq<Meaning>, items': seq<Meaning>)
    requires multiset(items) == multiset(items')
    ensures SortStrings(Displays(ecosystem, items)) == SortStrings(Displays(ecosystem, items'))
  {
    var f := (m: Meaning) => Display(ecosystem, m);
    MapPermuted(f, items, items');
    hide Display, SortStrings, Sorted;
    assert Displays(ecosystem, items) == Map(f, items) && Displays(ecosystem, items') == Map(f, items');
    SortedUnique(SortStrings(Displays(ecosystem, items)), SortStrings(Displays(ecosystem, items')));
  }
}
