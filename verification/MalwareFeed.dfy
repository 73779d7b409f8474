/** malware.go: parsing the known-malware feed into its index, and the lookups over it,
    proved equal to scanning the records one by one. A line arrives already classified:
    decoding its JSON and its header fields is not part of this model. */
module MalwareFeed {
  import opened GoStrings
  import opened PackageKeys

  // ---------------------------------------------------------------- input

  datatype Entry = Entry(id: string, ecosystem: string, name: string, versions: seq<string>)

  datatype Header = Header(serial: int, generated: int, rows: int)

  /** Malformed is a header line that does not parse or a record that is not JSON. */
  datatype Line = Blank | Comment | HeaderLine(header: Header) | Record(entry: Entry) | Malformed

  datatype Error = BadLine | SecondHeader | NoHeader | RowCount | Unreadable | BadSignature | OlderSerial

  datatype Result<+T> = Ok(value: T) | Err(error: Error)

  /** The index: package-wide advisories by key, first one wins; version-pinned ones by key. */
  datatype Feed = Feed(
    all: map<string, Entry>, pinned: map<string, seq<Entry>>, skipped: nat, header: Option<Header>, records: nat,
    content: seq<Line>)

  // ---------------------------------------------------------------- the parser

  predicate Named(e: Entry) {
    e.ecosystem != "" && e.name != ""
  }

  function KeyOf(e: Entry): string {
    MalwareKey(e.ecosystem, e.name)
  }

  function PinnedAt(pinned: map<string, seq<Entry>>, key: string): seq<Entry> {
    if key in pinned then pinned[key] else []
  }

  /** One line of the scan loop. */
  function AddLine(l: Feed, line: Line): Result<Feed> {
    match line
    case Blank => Ok(l)
    case Comment => Ok(l)
    case Malformed => Err(BadLine)
    case HeaderLine(h) => if l.header.Some? then Err(SecondHeader) else Ok(l.(header := Some(h)))
    case Record(e) =>
      var n := l.(records := l.records + 1);
      if !Named(e) then Ok(n.(skipped := n.skipped + 1))
      else if e.versions == [] then Ok(if KeyOf(e) in n.all then n else n.(all := n.all[KeyOf(e) := e]))
      else Ok(n.(pinned := n.pinned[KeyOf(e) := PinnedAt(n.pinned, KeyOf(e)) + [e]]))
  }

  const EMPTY_FEED: Feed := Feed(map[], map[], 0, None, 0, [])

  function Scan(lines: seq<Line>): Result<Feed> {
    if lines == [] then Ok(EMPTY_FEED)
    else
      var l := Scan(lines[..|lines| - 1]);
      if l.Err? then l else AddLine(l.value, lines[|lines| - 1])
  }

  function ParseMalwareList(lines: seq<Line>): Result<Feed> {
    var l := Scan(lines);
    if l.Err? then l else Ok(l.value.(content := lines))
  }

  /** What a signature cannot say: a signed feed must carry a header, and a declared row
      count must be the number of records read. */
  function ParseSignedFeed(lines: seq<Line>): Result<Feed> {
    var l := ParseMalwareList(lines);
    if l.Err? then l
    else if l.value.header.None? then Err(NoHeader)
    else if l.value.header.value.rows != 0 && l.value.header.value.rows != l.value.records then Err(RowCount)
    else l
  }

  /** The scan loop of the source. */
  method ParseMalwareListLoop(lines: seq<Line>) returns (r: Result<Feed>)
    ensures r == ParseMalwareList(lines)
  {
    var l := EMPTY_FEED;
    for i := 0 to |lines|
      invariant Scan(lines[..i]) == Ok(l)
    {
      assert lines[..i + 1][..i] == lines[..i];
      var next := AddLine(l, lines[i]);
      if next.Err? {
        ScanStops(lines, i + 1);
        return next;
      }
      l := next.value;
    }
    assert lines[..|lines|] == lines;
    r := Ok(l.(content := lines));
  }

  lemma {:induction false} ScanStopsAt(lines: seq<Line>, i: nat, j: nat)
    requires i <= j <= |lines| && Scan(lines[..i]).Err?
    ensures Scan(lines[..j]) == Scan(lines[..i])
  {
    if i < j {
      ScanStopsAt(lines, i, j - 1);
      assert lines[..j][..j - 1] == lines[..j - 1];
    }
  }

  lemma ScanStops(lines: seq<Line>, i: nat)
    requires i <= |lines| && Scan(lines[..i]).Err?
    ensures Scan(lines) == Scan(lines[..i])
  {
    ScanStopsAt(lines, i, |lines|);
    assert lines[..|lines|] == lines;
  }

  // ---------------------------------------------------------------- lookups

  function LookupAll(l: Feed, ecosystem: string, name: string): Option<Entry> {
    var key := MalwareKey(ecosystem, name);
    if key in l.all then Some(l.all[key]) else None
  }

  /** First version of e that is the same release. */
  predicate Names(e: Entry, ecosystem: string, version: string) {
    exists v :: v in e.versions && SameVersion(ecosystem, v, version)
  }

  function FirstNaming(es: seq<Entry>, ecosystem: string, version: string): Option<Entry> {
    if es == [] then None
    else if Names(es[0], ecosystem, version) then Some(es[0])
    else FirstNaming(es[1..], ecosystem, version)
  }

  function PinnedFor(l: Feed, ecosystem: string, name: string, version: string): Option<Entry> {
    if version == "" then None
    else FirstNaming(PinnedAt(l.pinned, MalwareKey(ecosystem, name)), ecosystem, version)
  }

  predicate HasPinned(l: Feed, ecosystem: string, name: string) {
    PinnedAt(l.pinned, MalwareKey(ecosystem, name)) != []
  }

  method NamesLoop(e: Entry, ecosystem: string, version: string) returns (found: bool)
    ensures found == Names(e, ecosystem, version)
  {
    hide SameVersion;
    for j := 0 to |e.versions|
      invariant forall k :: 0 <= k < j ==> !SameVersion(ecosystem, e.versions[k], version)
    {
      if SameVersion(ecosystem, e.versions[j], version) {
        return true;
      }
    }
    found := false;
  }

  method PinnedForLoop(l: Feed, ecosystem: string, name: string, version: string) returns (r: Option<Entry>)
    ensures r == PinnedFor(l, ecosystem, name, version)
  {
    hide Names, MalwareKey;
    if version == "" {
      return None;
    }
    var es := PinnedAt(l.pinned, MalwareKey(ecosystem, name));
    assert es[0..] == es;
    for i := 0 to |es|
      invariant FirstNaming(es, ecosystem, version) == FirstNaming(es[i..], ecosystem, version)
    {
      var found := NamesLoop(es[i], ecosystem, version);
      if found {
        return Some(es[i]);
      }
      assert es[i..][1..] == es[i + 1..];
    }
    r := None;
  }

  // ---------------------------------------------------------------- the linear scan they agree with

  function Records(lines: seq<Line>): seq<Entry> {
    if lines == [] then []
    else
      var rest := Records(lines[..|lines| - 1]);
      if lines[|lines| - 1].Record? then rest + [lines[|lines| - 1].entry] else rest
  }

  /** The named records of one key that list no versions, in file order. */
  function Wide(es: seq<Entry>, key: string): seq<Entry> {
    if es == [] then []
    else
      var e := es[|es| - 1];
      var rest := Wide(es[..|es| - 1], key);
      if Named(e) && e.versions == [] && KeyOf(e) == key then rest + [e] else rest
  }

  /** The named records of one key that do. */
  function Pins(es: seq<Entry>, key: string): seq<Entry> {
    if es == [] then []
    else
      var e := es[|es| - 1];
      var rest := Pins(es[..|es| - 1], key);
      if Named(e) && e.versions != [] && KeyOf(e) == key then rest + [e] else rest
  }

  predicate IndexAt(l: Feed, wide: seq<Entry>, pins: seq<Entry>, key: string) {
    && (key in l.all <==> wide != [])
    && (key in l.all ==> wide != [] && l.all[key] == wide[0])
    && PinnedAt(l.pinned, key) == pins
  }

  ghost predicate IndexOf(l: Feed, es: seq<Entry>) {
    l.records == |es| && forall key :: IndexAt(l, Wide(es, key), Pins(es, key), key)
  }

  lemma GroupsGrow(es: seq<Entry>, e: Entry, key: string)
    ensures Wide(es + [e], key) ==
            if Named(e) && e.versions == [] && KeyOf(e) == key then Wide(es, key) + [e] else Wide(es, key)
    ensures Pins(es + [e], key) ==
            if Named(e) && e.versions != [] && KeyOf(e) == key then Pins(es, key) + [e] else Pins(es, key)
  {
    hide KeyOf;
    assert (es + [e])[..|es + [e]| - 1] == es;
  }

  lemma AddRecordAt(l: Feed, e: Entry, wide: seq<Entry>, pins: seq<Entry>, key: string)
    requires IndexAt(l, wide, pins, key)
    ensures AddLine(l, Record(e)).Ok?
    ensures IndexAt(AddLine(l, Record(e)).value,
                    if Named(e) && e.versions == [] && KeyOf(e) == key then wide + [e] else wide,
                    if Named(e) && e.versions != [] && KeyOf(e) == key then pins + [e] else pins, key)
  {
    hide KeyOf, Named;
  }

  lemma AddRecord(l: Feed, es: seq<Entry>, e: Entry)
    requires IndexOf(l, es)
    ensures AddLine(l, Record(e)).Ok? && IndexOf(AddLine(l, Record(e)).value, es + [e])
  {
    AddRecordAt(l, e, Wide(es, ""), Pins(es, ""), "");
    var l' := AddLine(l, Record(e)).value;
    assert l'.records == l.records + 1 by { hide KeyOf; }
    hide KeyOf, Wide, Pins, Named, IndexAt, AddLine;
    forall key ensures IndexAt(l', Wide(es + [e], key), Pins(es + [e], key), key) {
      GroupsGrow(es, e, key);
      AddRecordAt(l, e, Wide(es, key), Pins(es, key), key);
    }
  }

  /** Every accepted feed is an index of exactly the records it was read from. */
  lemma {:induction false} ScanIndexes(lines: seq<Line>)
    requires Scan(lines).Ok?
    ensures IndexOf(Scan(lines).value, Records(lines))
  {
    if lines != [] {
      var last, front := lines[|lines| - 1], lines[..|lines| - 1];
      ScanIndexes(front);
      if last.Record? {
        AddRecord(Scan(front).value, Records(front), last.entry);
      } else {
        hide MalwareKey, KeyOf;
      }
    }
  }

  /** The three lookups answer as a scan over the records would: the package-wide advisory
      is the first of its key, the pinned one the first of its key naming the version. */
  lemma LookupsAreScans(lines: seq<Line>, ecosystem: string, name: string, version: string)
    requires ParseMalwareList(lines).Ok?
    ensures var l, key := ParseMalwareList(lines).value, MalwareKey(ecosystem, name);
            var wide, pins := Wide(Records(lines), key), Pins(Records(lines), key);
            && LookupAll(l, ecosystem, name) == (if wide == [] then None else Some(wide[0]))
            && PinnedFor(l, ecosystem, name, version) ==
                 (if version == "" then None else FirstNaming(pins, ecosystem, version))
            && (HasPinned(l, ecosystem, name) <==> pins != [])
  {
    ScanIndexes(lines);
    hide Scan, Wide, Pins, Records, FirstNaming, MalwareKey;
  }

  // ---------------------------------------------------------------- every record gates

  lemma {:induction false} WideMembers(es: seq<Entry>, key: string, e: Entry)
    ensures e in Wide(es, key) <==> e in es && e.ecosystem != "" && e.name != "" && e.versions == [] && KeyOf(e) == key
    ensures e in Pins(es, key) <==> e in es && e.ecosystem != "" && e.name != "" && e.versions != [] && KeyOf(e) == key
  {
    hide KeyOf;
    if es != [] {
      assert es == es[..|es| - 1] + [es[|es| - 1]];
      WideMembers(es[..|es| - 1], key, e);
    }
  }

  lemma {:induction false} FirstNamingFinds(es: seq<Entry>, ecosystem: string, version: string)
    ensures var r := FirstNaming(es, ecosystem, version);
            && (r.Some? <==> exists e :: e in es && Names(e, ecosystem, version))
            && (r.Some? ==> r.value in es && Names(r.value, ecosystem, version))
  {
    hide Names;
    if es != [] {
      assert es == [es[0]] + es[1..];
      FirstNamingFinds(es[1..], ecosystem, version);
    }
  }

  lemma SomeWide(es: seq<Entry>, key: string)
    ensures Wide(es, key) != [] <==>
              exists e :: e in es && e.ecosystem != "" && e.name != "" && e.versions == [] && KeyOf(e) == key
  {
    hide Wide, KeyOf;
    assert Wide(es, key) != [] ==> Wide(es, key)[0] in Wide(es, key);
    forall e
      ensures e in Wide(es, key) <==>
                e in es && e.ecosystem != "" && e.name != "" && e.versions == [] && KeyOf(e) == key
    {
      WideMembers(es, key, e);
    }
  }

  lemma SomePins(es: seq<Entry>, key: string)
    ensures Pins(es, key) != [] <==>
              exists e :: e in es && e.ecosystem != "" && e.name != "" && e.versions != [] && KeyOf(e) == key
  {
    hide Pins, KeyOf;
    assert Pins(es, key) != [] ==> Pins(es, key)[0] in Pins(es, key);
    forall e
      ensures e in Pins(es, key) <==>
                e in es && e.ecosystem != "" && e.name != "" && e.versions != [] && KeyOf(e) == key
    {
      WideMembers(es, key, e);
    }
  }

  lemma SomePinNames(es: seq<Entry>, key: string, ecosystem: string, version: string)
    ensures FirstNaming(Pins(es, key), ecosystem, version).Some? <==>
              exists e, v :: e in es && v in e.versions && e.ecosystem != "" && e.name != "" && KeyOf(e) == key &&
                             SameVersion(ecosystem, v, version)
  {
    hide Pins, KeyOf, FirstNaming, SameVersion;
    FirstNamingFinds(Pins(es, key), ecosystem, version);
    forall e
      ensures e in Pins(es, key) <==>
                e in es && e.ecosystem != "" && e.name != "" && e.versions != [] && KeyOf(e) == key
    {
      WideMembers(es, key, e);
    }
  }

  /** A package is condemned if and only if some record with an ecosystem, a name and no versions
      has its key; a version of it if and only if such a record with versions lists one that is the
      same release. So every record with an identity gates, and no other does. */
  lemma GatesExactly(lines: seq<Line>, ecosystem: string, name: string, version: string)
    requires ParseMalwareList(lines).Ok?
    ensures var l, es, key := ParseMalwareList(lines).value, Records(lines), MalwareKey(ecosystem, name);
            && (LookupAll(l, ecosystem, name).Some? <==>
                  exists e :: e in es && e.ecosystem != "" && e.name != "" && e.versions == [] && KeyOf(e) == key)
            && (PinnedFor(l, ecosystem, name, version).Some? <==>
                  version != "" &&
                  (exists e, v :: e in es && v in e.versions && e.ecosystem != "" && e.name != "" &&
                                  KeyOf(e) == key && SameVersion(ecosystem, v, version)))
  {
    hide *;
    LookupsAreScans(lines, ecosystem, name, version);
    var es, key := Records(lines), MalwareKey(ecosystem, name);
    SomeWide(es, key);
    SomePinNames(es, key, ecosystem, version);
  }

  /** Any release of a package is named if and only if some record with versions has its key. */
  lemma PinsExactly(lines: seq<Line>, ecosystem: string, name: string)
    requires ParseMalwareList(lines).Ok?
    ensures var l, es, key := ParseMalwareList(lines).value, Records(lines), MalwareKey(ecosystem, name);
            HasPinned(l, ecosystem, name) <==>
              exists e :: e in es && e.ecosystem != "" && e.name != "" && e.versions != [] && KeyOf(e) == key
  {
    hide *;
    LookupsAreScans(lines, ecosystem, name, "");
    SomePins(Records(lines), MalwareKey(ecosystem, name));
  }

  // ---------------------------------------------------------------- counts

  function CountUnnamed(es: seq<Entry>): nat {
    if es == [] then 0
    else
      var e := es[|es| - 1];
      CountUnnamed(es[..|es| - 1]) + if e.ecosystem == "" || e.name == "" then 1 else 0
  }

  function CountWide(es: seq<Entry>): nat {
    if es == [] then 0
    else
      var e := es[|es| - 1];
      CountWide(es[..|es| - 1]) + if e.ecosystem != "" && e.name != "" && e.versions == [] then 1 else 0
  }

  function CountPinned(es: seq<Entry>): nat {
    if es == [] then 0
    else
      var e := es[|es| - 1];
      CountPinned(es[..|es| - 1]) + if e.ecosystem != "" && e.name != "" && e.versions != [] then 1 else 0
  }

  lemma {:induction false} EveryRecordCounted(es: seq<Entry>)
    ensures |es| == CountUnnamed(es) + CountWide(es) + CountPinned(es)
  {
    if es != [] { EveryRecordCounted(es[..|es| - 1]); }
  }

  lemma {:induction false} SkippedCounts(lines: seq<Line>)
    requires Scan(lines).Ok?
    ensures Scan(lines).value.skipped == CountUnnamed(Records(lines))
  {
    if lines != [] {
      var last, front := lines[|lines| - 1], lines[..|lines| - 1];
      SkippedCounts(front);
      if last.Record? { assert (Records(front) + [last.entry])[..|Records(front)|] == Records(front); }
      hide MalwareKey;
    }
  }

  /** No record vanishes: each one is skipped and counted, package-wide, or pinned. */
  lemma RecordsConserved(lines: seq<Line>)
    requires ParseMalwareList(lines).Ok?
    ensures var l, es := ParseMalwareList(lines).value, Records(lines);
            l.records == |es| == l.skipped + CountWide(es) + CountPinned(es)
  {
    ScanIndexes(lines);
    SkippedCounts(lines);
    EveryRecordCounted(Records(lines));
    hide Scan, Records, CountUnnamed, CountWide, CountPinned;
  }

  /** malwareKey with an empty name: the NUL-terminated ecosystem. */
  function EcoPrefix(ecosystem: string): string {
    EcoName(ecosystem) + [NUL]
  }

  predicate Under(key: string, prefix: string) {
    |prefix| <= |key| && key[..|prefix|] == prefix
  }

  /** A key is under an ecosystem's prefix exactly when it is of that ecosystem, unless an
      ecosystem's own name carries a NUL. */
  lemma UnderIsEcosystem(e: Entry, ecosystem: string)
    requires NUL !in EcoName(ecosystem) && NUL !in EcoName(e.ecosystem)
    ensures Under(KeyOf(e), EcoPrefix(ecosystem)) <==> EcoName(e.ecosystem) == EcoName(ecosystem)
  {
    var a, b, n := EcoName(e.ecosystem), EcoName(ecosystem), KeyName(e.ecosystem, e.name);
    var key := KeyOf(e);
    hide EcoName, KeyName;
    assert key == a + [NUL] + n;
    IndexByteCut(a, NUL, n);
    if a == b {
      assert key[..|b| + 1] == b + [NUL];
    }
    if Under(key, b + [NUL]) {
      assert key[|b|] == key[..|b| + 1][|b|] == NUL;
      assert key[..|b|] == key[..|b| + 1][..|b|] == b;
      IndexByteIs(key, NUL, |b|);
      assert a == key[..|a|];
    }
  }

  function PinsUnder(es: seq<Entry>, prefix: string): nat {
    if es == [] then 0
    else
      var e := es[|es| - 1];
      PinsUnder(es[..|es| - 1], prefix) + if Named(e) && e.versions != [] && Under(KeyOf(e), prefix) then 1 else 0
  }

  ghost function SumLens(pinned: map<string, seq<Entry>>, keys: set<string>): nat
    requires keys <= pinned.Keys
  {
    if keys == {} then 0
    else
      var k :| k in keys;
      |pinned[k]| + SumLens(pinned, keys - {k})
  }

  lemma {:induction false} SumLensRemove(pinned: map<string, seq<Entry>>, keys: set<string>, k: string)
    requires keys <= pinned.Keys && k in keys
    ensures SumLens(pinned, keys) == |pinned[k]| + SumLens(pinned, keys - {k})
  {
    var j :| j in keys && SumLens(pinned, keys) == |pinned[j]| + SumLens(pinned, keys - {j});
    if j != k {
      SumLensRemove(pinned, keys - {j}, k);
      SumLensRemove(pinned, keys - {k}, j);
      assert keys - {j} - {k} == keys - {k} - {j};
    }
  }

  /** How many package-wide keys and version-pinned entries one ecosystem has. */
  method CountFor(l: Feed, ecosystem: string) returns (all: nat, pinned: nat)
    ensures all == |set key | key in l.all && Under(key, EcoPrefix(ecosystem))|
    ensures pinned == SumLens(l.pinned, set key | key in l.pinned && Under(key, EcoPrefix(ecosystem)))
  {
    var prefix := EcoPrefix(ecosystem);
    hide EcoPrefix, Under;
    all, pinned := 0, 0;
    var todo := l.all.Keys;
    while todo != {}
      invariant todo <= l.all.Keys
      invariant all == |set key | key in l.all && key !in todo && Under(key, prefix)|
    {
      var key :| key in todo;
      ghost var was := set k | k in l.all && k !in todo && Under(k, prefix);
      todo := todo - {key};
      ghost var now := set k | k in l.all && k !in todo && Under(k, prefix);
      if Under(key, prefix) {
        all := all + 1;
        assert now == was + {key};
      } else {
        assert now == was;
      }
    }
    assert (set k | k in l.all && k !in todo && Under(k, prefix)) == set k | k in l.all && Under(k, prefix);
    todo := l.pinned.Keys;
    while todo != {}
      invariant todo <= l.pinned.Keys
      invariant pinned == SumLens(l.pinned, set key | key in l.pinned && key !in todo && Under(key, prefix))
    {
      var key :| key in todo;
      ghost var was := set k | k in l.pinned && k !in todo && Under(k, prefix);
      todo := todo - {key};
      ghost var now := set k | k in l.pinned && k !in todo && Under(k, prefix);
      if Under(key, prefix) {
        pinned := pinned + |l.pinned[key]|;
        assert now - {key} == was;
        SumLensRemove(l.pinned, now, key);
      } else {
        assert now == was;
      }
    }
    assert (set k | k in l.pinned && k !in todo && Under(k, prefix)) == set k | k in l.pinned && Under(k, prefix);
  }

  lemma {:induction false} SumLensAgrees(p: map<string, seq<Entry>>, q: map<string, seq<Entry>>, keys: set<string>)
    requires keys <= p.Keys && keys <= q.Keys && forall k :: k in keys ==> p[k] == q[k]
    ensures SumLens(p, keys) == SumLens(q, keys)
  {
    if keys != {} {
      var k :| k in keys;
      SumLensRemove(p, keys, k);
      SumLensRemove(q, keys, k);
      SumLensAgrees(p, q, keys - {k});
    }
  }

  ghost function KeysUnder(pinned: map<string, seq<Entry>>, prefix: string): set<string> {
    set key | key in pinned && Under(key, prefix)
  }

  lemma PinGrows(pinned: map<string, seq<Entry>>, key: string, e: Entry, prefix: string)
    ensures var more := pinned[key := PinnedAt(pinned, key) + [e]];
            SumLens(more, KeysUnder(more, prefix)) ==
            SumLens(pinned, KeysUnder(pinned, prefix)) + if Under(key, prefix) then 1 else 0
  {
    hide Under;
    var more := pinned[key := PinnedAt(pinned, key) + [e]];
    var a, b := KeysUnder(pinned, prefix), KeysUnder(more, prefix);
    if Under(key, prefix) {
      assert b - {key} == a - {key};
      SumLensRemove(more, b, key);
      SumLensAgrees(pinned, more, a - {key});
      if key in pinned {
        SumLensRemove(pinned, a, key);
      } else {
        assert a - {key} == a;
      }
    } else {
      assert a == b;
      SumLensAgrees(pinned, more, a);
    }
  }

  lemma PinsUnderGrows(es: seq<Entry>, e: Entry, prefix: string)
    ensures PinsUnder(es + [e], prefix) ==
            PinsUnder(es, prefix) + if Named(e) && e.versions != [] && Under(KeyOf(e), prefix) then 1 else 0
  {
    hide KeyOf, Under;
    assert (es + [e])[..|es + [e]| - 1] == es;
  }

  lemma PinStep(l: Feed, e: Entry, prefix: string)
    requires AddLine(l, Record(e)).Ok?
    ensures var p, q := l.pinned, AddLine(l, Record(e)).value.pinned;
            SumLens(q, KeysUnder(q, prefix)) ==
            SumLens(p, KeysUnder(p, prefix)) + if Named(e) && e.versions != [] && Under(KeyOf(e), prefix) then 1 else 0
  {
    PinGrows(l.pinned, KeyOf(e), e, prefix);
    hide Under, KeyOf, SumLens, KeysUnder, Named;
  }

  lemma OtherLineKeepsPins(l: Feed, line: Line)
    requires !line.Record? && AddLine(l, line).Ok?
    ensures AddLine(l, line).value.pinned == l.pinned
  {
  }

  /** The per-ecosystem count of pinned entries is what counting the records gives. */
  lemma {:induction false} PinnedCountIsScan(lines: seq<Line>, prefix: string)
    requires Scan(lines).Ok?
    ensures var pinned := Scan(lines).value.pinned;
            SumLens(pinned, KeysUnder(pinned, prefix)) == PinsUnder(Records(lines), prefix)
  {
    hide Under, KeyOf, SumLens, KeysUnder, PinsUnder, AddLine;
    if lines == [] {
      NoPins(prefix);
    } else {
      var last, front := lines[|lines| - 1], lines[..|lines| - 1];
      PinnedCountIsScan(front, prefix);
      if last.Record? {
        PinsUnderGrows(Records(front), last.entry, prefix);
        PinStep(Scan(front).value, last.entry, prefix);
      } else {
        OtherLineKeepsPins(Scan(front).value, last);
      }
    }
  }

  lemma NoPins(prefix: string)
    ensures SumLens(EMPTY_FEED.pinned, KeysUnder(EMPTY_FEED.pinned, prefix)) == 0 == PinsUnder([], prefix)
  {
    assert KeysUnder(EMPTY_FEED.pinned, prefix) == {};
  }

  predicate IsWide(e: Entry) {
    Named(e) && e.versions == []
  }

  lemma {:induction false} WideNonempty(es: seq<Entry>, key: string)
    ensures Wide(es, key) != [] <==> exists e :: e in es && IsWide(e) && KeyOf(e) == key
  {
    hide KeyOf, MalwareKey;
    if es != [] {
      var front, e := es[..|es| - 1], es[|es| - 1];
      WideNonempty(front, key);
      WideLast(front, e, key);
      assert es == front + [e];
      hide Wide, IsWide;
    }
  }

  lemma WideLast(front: seq<Entry>, e: Entry, key: string)
    ensures Wide(front + [e], key) != [] <==> Wide(front, key) != [] || (IsWide(e) && KeyOf(e) == key)
  {
    hide KeyOf;
    assert (front + [e])[..|front + [e]| - 1] == front;
  }

  /** The package-wide count is over the distinct keys the wide records name. */
  lemma WideKeysAreScan(lines: seq<Line>, prefix: string)
    requires ParseMalwareList(lines).Ok?
    ensures (set key | key in ParseMalwareList(lines).value.all && Under(key, prefix)) ==
            (set e | e in Records(lines) && IsWide(e) && Under(KeyOf(e), prefix) :: KeyOf(e))
  {
    ScanIndexes(lines);
    var all, es := ParseMalwareList(lines).value.all, Records(lines);
    hide Scan, Records, Wide, Pins, KeyOf, Under, IsWide;
    forall key ensures key in all <==> exists e :: e in es && IsWide(e) && KeyOf(e) == key {
      WideNonempty(es, key);
    }
  }

  // ---------------------------------------------------------------- exactly what loads

  function Headers(lines: seq<Line>): seq<Header> {
    if lines == [] then []
    else
      var rest := Headers(lines[..|lines| - 1]);
      if lines[|lines| - 1].HeaderLine? then rest + [lines[|lines| - 1].header] else rest
  }

  /** Why line k stops the scan, if it is the first that does: it is broken, or a second header. */
  function Offends(lines: seq<Line>, k: nat): Option<Error>
    requires k < |lines|
  {
    if lines[k].Malformed? then Some(BadLine)
    else if lines[k].HeaderLine? && Headers(lines[..k]) != [] then Some(SecondHeader)
    else None
  }

  ghost predicate FirstOffence(lines: seq<Line>, k: nat, e: Error) {
    k < |lines| && Offends(lines, k) == Some(e) && forall j :: 0 <= j < k ==> Offends(lines, j).None?
  }

  ghost predicate NothingOffends(lines: seq<Line>) {
    forall k :: 0 <= k < |lines| ==> Offends(lines, k).None?
  }

  lemma OffendsFront(front: seq<Line>, last: Line, k: nat)
    requires k < |front|
    ensures Offends(front + [last], k) == Offends(front, k)
  {
    assert (front + [last])[..k] == front[..k];
    hide Headers;
  }

  lemma AddLineIs(l: Feed, line: Line)
    ensures AddLine(l, line).Err? <==> line.Malformed? || (line.HeaderLine? && l.header.Some?)
    ensures AddLine(l, line) == Err(BadLine) <==> line.Malformed?
    ensures AddLine(l, line).Ok? ==>
              AddLine(l, line).value.header == if line.HeaderLine? then Some(line.header) else l.header
    ensures AddLine(l, line).Err? ==> AddLine(l, line).error in {BadLine, SecondHeader}
  {
    hide KeyOf, Named;
  }

  lemma {:induction false} ScanExactly(lines: seq<Line>)
    ensures Scan(lines).Ok? ==> NothingOffends(lines)
    ensures Scan(lines).Ok? ==>
              Scan(lines).value.header ==
              if Headers(lines) == [] then None else Some(Headers(lines)[|Headers(lines)| - 1])
    ensures Scan(lines).Err? ==> exists k: nat :: FirstOffence(lines, k, Scan(lines).error)
  {
    if lines != [] {
      var front, last := lines[..|lines| - 1], lines[|lines| - 1];
      assert lines == front + [last];
      ScanExactly(front);
      forall k: nat | k < |front| ensures Offends(lines, k) == Offends(front, k) {
        OffendsFront(front, last, k);
      }
      if Scan(front).Err? {
        var k: nat :| FirstOffence(front, k, Scan(front).error);
        assert FirstOffence(lines, k, Scan(front).error);
      } else {
        AddLineIs(Scan(front).value, last);
        hide AddLine, Scan;
        LastOffends(lines, Scan(front).value.header.Some?);
        ScanLast(lines);
        if Scan(lines).Err? { assert FirstOffence(lines, |front|, Scan(lines).error); }
      }
    }
  }

  lemma ScanLast(lines: seq<Line>)
    requires lines != [] && Scan(lines[..|lines| - 1]).Ok?
    ensures Scan(lines) == AddLine(Scan(lines[..|lines| - 1]).value, lines[|lines| - 1])
  {
    hide AddLine;
  }

  lemma LastOffends(lines: seq<Line>, headed: bool)
    requires lines != [] && (headed <==> Headers(lines[..|lines| - 1]) != [])
    ensures Offends(lines, |lines| - 1) ==
            if lines[|lines| - 1].Malformed? then Some(BadLine)
            else if lines[|lines| - 1].HeaderLine? && headed then Some(SecondHeader) else None
    ensures Headers(lines) ==
            Headers(lines[..|lines| - 1]) + if lines[|lines| - 1].HeaderLine? then [lines[|lines| - 1].header] else []
  {
  }

  lemma {:induction false} OneHeader(lines: seq<Line>)
    ensures NothingOffends(lines) <==> (forall k :: 0 <= k < |lines| ==> !lines[k].Malformed?) && |Headers(lines)| <= 1
  {
    if lines != [] {
      var front, last := lines[..|lines| - 1], lines[|lines| - 1];
      assert lines == front + [last];
      OneHeader(front);
      forall k: nat | k < |front| ensures Offends(lines, k) == Offends(front, k) {
        OffendsFront(front, last, k);
      }
      LastOffends(lines, Headers(front) != []);
      assert NothingOffends(lines) <==> NothingOffends(front) && Offends(lines, |front|).None?;
      hide Headers, Offends;
    }
  }

  /** A feed loads if and only if no line is malformed and at most one is a header; what fails is
      named after its first offending line. The loaded feed keeps that header and the bytes. */
  lemma LoadsExactly(lines: seq<Line>)
    ensures var l := ParseMalwareList(lines);
            && (l.Ok? <==> (forall k :: 0 <= k < |lines| ==> !lines[k].Malformed?) && |Headers(lines)| <= 1)
            && (l.Ok? ==> l.value.header == (if Headers(lines) == [] then None else Some(Headers(lines)[0])) &&
                          l.value.content == lines)
            && (l.Err? ==> exists k: nat :: FirstOffence(lines, k, l.error))
  {
    ScanExactly(lines);
    OneHeader(lines);
    hide Scan, Headers, Offends;
  }

  /** Whether a signed feed loads: no line malformed, exactly one header, and as many records as it
      declares, if it declares any number. */
  predicate SignedFeedOk(lines: seq<Line>) {
    && (forall k :: 0 <= k < |lines| ==> !lines[k].Malformed?)
    && |Headers(lines)| == 1
    && (Headers(lines)[0].rows == 0 || Headers(lines)[0].rows == |Records(lines)|)
  }

  lemma SignedLoadsExactly(lines: seq<Line>)
    ensures var l := ParseSignedFeed(lines);
            && (l.Ok? <==> SignedFeedOk(lines))
            && (l.Ok? ==>
                 l.value.header == Some(Headers(lines)[0]) && l.value.content == lines && l == ParseMalwareList(lines))
  {
    LoadsExactly(lines);
    if ParseMalwareList(lines).Ok? { ScanIndexes(lines); }
    hide Scan, Headers, Records;
  }

  // ---------------------------------------------------------------- truncation

  lemma {:induction false} PrefixScans(lines: seq<Line>, k: nat)
    requires k <= |lines| && Scan(lines).Ok?
    ensures Scan(lines[..k]).Ok?
    ensures Scan(lines[..k]).value.header.Some? ==> Scan(lines).value.header == Scan(lines[..k]).value.header
  {
    if k < |lines| {
      PrefixScans(lines[..|lines| - 1], k);
      assert lines[..|lines| - 1][..k] == lines[..k];
      hide MalwareKey;
    } else {
      assert lines[..k] == lines;
    }
  }

  lemma RecordCount(lines: seq<Line>)
    requires ParseMalwareList(lines).Ok?
    ensures ParseMalwareList(lines).value.records == |Records(lines)|
  {
    ScanIndexes(lines);
  }

  /** A signed feed cut at a line boundary still loads exactly when its header survived and
      either it declares no row count or no record was lost. */
  lemma TruncationDetected(lines: seq<Line>, k: nat)
    requires ParseSignedFeed(lines).Ok? && k <= |lines|
    ensures var whole, cut := ParseSignedFeed(lines).value, ParseMalwareList(lines[..k]);
            && cut.Ok?
            && (ParseSignedFeed(lines[..k]).Ok? <==>
                  && cut.value.header.Some?
                  && (whole.header.value.rows == 0 || |Records(lines[..k])| == |Records(lines)|))
  {
    PrefixScans(lines, k);
    RecordCount(lines);
    RecordCount(lines[..k]);
    hide Scan, Records;
  }
}
