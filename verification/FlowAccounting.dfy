/** flow.go and flowemit.go: two marginal aggregations of the same traffic, drained together
    and posted at most once to a sink that adds up whatever it is given. */
module FlowAccounting {
  import opened FlowRows
  import opened GoStrings

  // ---------------------------------------------------------------- counters

  datatype FlowID = FlowID(package: string, kind: string)

  datatype PkgKey = PkgKey(ecosystem: string, package: string, kind: string)

  datatype IPKey = IPKey(ecosystem: string, sourceIP: string)

  datatype Traffic = Traffic(requests: nat, upstream: nat, client: nat)

  datatype Fault = Truncated | RelayError | TransportError | MetaError | Retry | IntegrityMismatch

  datatype Counts = Counts(
    moved: Traffic, truncated: nat, relayErrors: nat, transportErrors: nat, upstreamStatus: nat,
    metaErrors: nat, retries: nat, integrityMismatches: nat)

  const NO_TRAFFIC := Traffic(0, 0, 0)

  const NO_COUNTS := Counts(NO_TRAFFIC, 0, 0, 0, 0, 0, 0, 0)

  function AddTraffic(a: Traffic, b: Traffic): (r: Traffic)
    ensures r.requests == a.requests + b.requests && r.upstream == a.upstream + b.upstream
            && r.client == a.client + b.client
  {
    Traffic(a.requests + b.requests, a.upstream + b.upstream, a.client + b.client)
  }

  function Add(a: Counts, b: Counts): (r: Counts)
    ensures r.moved == AddTraffic(a.moved, b.moved) && r.truncated == a.truncated + b.truncated
    ensures r.relayErrors == a.relayErrors + b.relayErrors && r.transportErrors == a.transportErrors + b.transportErrors
    ensures r.upstreamStatus == a.upstreamStatus + b.upstreamStatus && r.metaErrors == a.metaErrors + b.metaErrors
    ensures r.retries == a.retries + b.retries && r.integrityMismatches == a.integrityMismatches + b.integrityMismatches
  {
    hide AddTraffic;
    Counts(
      AddTraffic(a.moved, b.moved), a.truncated + b.truncated, a.relayErrors + b.relayErrors,
      a.transportErrors + b.transportErrors, a.upstreamStatus + b.upstreamStatus, a.metaErrors + b.metaErrors,
      a.retries + b.retries, a.integrityMismatches + b.integrityMismatches)
  }

  predicate TrafficAtMost(a: Traffic, b: Traffic) {
    a.requests <= b.requests && a.upstream <= b.upstream && a.client <= b.client
  }

  /** No counter of a is above the same counter of b. */
  predicate AtMost(a: Counts, b: Counts) {
    && TrafficAtMost(a.moved, b.moved) && a.truncated <= b.truncated && a.relayErrors <= b.relayErrors
    && a.transportErrors <= b.transportErrors && a.upstreamStatus <= b.upstreamStatus && a.metaErrors <= b.metaErrors
    && a.retries <= b.retries && a.integrityMismatches <= b.integrityMismatches
  }

  function OneFault(f: Fault): Counts {
    match f
    case Truncated => NO_COUNTS.(truncated := 1)
    case RelayError => NO_COUNTS.(relayErrors := 1)
    case TransportError => NO_COUNTS.(transportErrors := 1)
    case MetaError => NO_COUNTS.(metaErrors := 1)
    case Retry => NO_COUNTS.(retries := 1)
    case IntegrityMismatch => NO_COUNTS.(integrityMismatches := 1)
  }

  /** A 404 is routine; only a broken or rate-limiting upstream counts. */
  predicate CountedStatus(status: int) {
    status >= 500 || status == 429
  }

  // ---------------------------------------------------------------- the order of drained rows

  /** Package, then kind; the ecosystem is the recorder's own. */
  function ComparePkgs(a: PkgKey, b: PkgKey): int {
    var c := Compare(a.package, b.package);
    if c != 0 then c else Compare(a.kind, b.kind)
  }

  function CompareIPs(a: IPKey, b: IPKey): int {
    Compare(a.sourceIP, b.sourceIP)
  }

  lemma PkgsRank()
    ensures Ranks(ComparePkgs)
  {
    forall a, b ensures ComparePkgs(a, b) == -ComparePkgs(b, a) {
      CompareSign(a.package, b.package);
      CompareSign(a.kind, b.kind);
    }
    forall a, b, c | ComparePkgs(a, b) <= 0 && ComparePkgs(b, c) <= 0 ensures ComparePkgs(a, c) <= 0 {
      PkgsTransitive(a, b, c);
    }
  }

  lemma PkgsTransitive(a: PkgKey, b: PkgKey, c: PkgKey)
    requires ComparePkgs(a, b) <= 0 && ComparePkgs(b, c) <= 0
    ensures ComparePkgs(a, c) <= 0
  {
    hide Compare;
    CompareTrans(a.package, b.package, c.package);
    if a.package == c.package {
      CompareSign(a.package, b.package);
      CompareTrans(a.kind, b.kind, c.kind);
    }
  }

  lemma IPsRank()
    ensures Ranks(CompareIPs)
  {
    forall a, b ensures CompareIPs(a, b) == -CompareIPs(b, a) {
      CompareSign(a.sourceIP, b.sourceIP);
    }
    forall a, b, c | CompareIPs(a, b) <= 0 && CompareIPs(b, c) <= 0 ensures CompareIPs(a, c) <= 0 {
      CompareTrans(a.sourceIP, b.sourceIP, c.sourceIP);
    }
  }

  /** Two drains of one recorder's counters give the same rows in the same order. */
  lemma DrainIsDetermined(eco: string, m: map<PkgKey, Counts>, a: seq<Row<PkgKey, Counts>>, b: seq<Row<PkgKey, Counts>>)
    requires forall k :: k in m ==> k.ecosystem == eco
    requires Lists(a, m) && Lists(b, m) && Ordered(a, ComparePkgs) && Ordered(b, ComparePkgs)
    ensures a == b
  {
    PkgsRank();
    assert Separates(ComparePkgs, m) by { hide Compare; }
    hide Lists, Ordered, Ranks, Separates;
    OrderedListingUnique(a, b, m, ComparePkgs);
  }

  lemma DrainedIPsDetermined(eco: string, m: map<IPKey, Traffic>, a: seq<Row<IPKey, Traffic>>,
      b: seq<Row<IPKey, Traffic>>)
    requires forall k :: k in m ==> k.ecosystem == eco
    requires Lists(a, m) && Lists(b, m) && Ordered(a, CompareIPs) && Ordered(b, CompareIPs)
    ensures a == b
  {
    IPsRank();
    assert Separates(CompareIPs, m) by { hide Compare; }
    hide Lists, Ordered, Ranks, Separates;
    OrderedListingUnique(a, b, m, CompareIPs);
  }

  // ---------------------------------------------------------------- batches

  datatype Batch = Batch(pkgs: map<PkgKey, Counts>, ips: map<IPKey, Traffic>)

  function PkgAt(m: map<PkgKey, Counts>, k: PkgKey): Counts {
    if k in m then m[k] else NO_COUNTS
  }

  function IPAt(m: map<IPKey, Traffic>, k: IPKey): Traffic {
    if k in m then m[k] else NO_TRAFFIC
  }

  // ---------------------------------------------------------------- the specification

  /** How a post ends: a 2xx answer, or an error whose batch the sink may have applied. */
  datatype Answer = Delivered | Errored(applied: bool)

  datatype Event =
    | Relay(id: FlowID, ip: string)
    | Bytes(id: FlowID, ip: string, upstream: nat, client: nat)
    | Failure(id: FlowID, fault: Fault)
    | Status(id: FlowID, status: int)
    | Flush(answer: Answer)

  datatype World = World(
    pkgs: map<PkgKey, Counts>, ips: map<IPKey, Traffic>,
    drained: seq<Batch>, posted: seq<nat>, sink: seq<Batch>, dropped: nat)

  const START := World(map[], map[], [], [], [], 0)

  function Bump(m: map<PkgKey, Counts>, k: PkgKey, more: Counts): map<PkgKey, Counts> {
    m[k := Add(PkgAt(m, k), more)]
  }

  function BumpIP(m: map<IPKey, Traffic>, k: IPKey, more: Traffic): map<IPKey, Traffic> {
    m[k := AddTraffic(IPAt(m, k), more)]
  }

  function KeyOf(eco: string, id: FlowID): PkgKey {
    PkgKey(eco, id.package, id.kind)
  }

  /** One event against the recorder; emits says whether an endpoint is configured. */
  function Step(eco: string, emits: bool, w: World, e: Event): World {
    match e
    case Relay(id, ip) =>
      var one := Traffic(1, 0, 0);
      w.(pkgs := Bump(w.pkgs, KeyOf(eco, id), NO_COUNTS.(moved := one)), ips := BumpIP(w.ips, IPKey(eco, ip), one))
    case Bytes(id, ip, up, down) =>
      var t := Traffic(0, up, down);
      w.(pkgs := Bump(w.pkgs, KeyOf(eco, id), NO_COUNTS.(moved := t)), ips := BumpIP(w.ips, IPKey(eco, ip), t))
    case Failure(id, f) => w.(pkgs := Bump(w.pkgs, KeyOf(eco, id), OneFault(f)))
    case Status(id, s) =>
      if CountedStatus(s) then w.(pkgs := Bump(w.pkgs, KeyOf(eco, id), NO_COUNTS.(upstreamStatus := 1))) else w
    case Flush(answer) => FlushStep(emits, w, answer)
  }

  function FlushStep(emits: bool, w: World, answer: Answer): World {
    var b := Batch(w.pkgs, w.ips);
    var emptied := w.(pkgs := map[], ips := map[], drained := w.drained + [b]);
    if b == Batch(map[], map[]) || !emits then emptied
    else emptied.(
      posted := w.posted + [|w.drained|],
      sink := if answer == Delivered || answer.applied then w.sink + [b] else w.sink,
      dropped := if answer == Delivered then w.dropped else w.dropped + 1)
  }

  function RunAll(eco: string, emits: bool, events: seq<Event>): World {
    if events == [] then START
    else Step(eco, emits, RunAll(eco, emits, events[..|events| - 1]), events[|events| - 1])
  }

  // ---------------------------------------------------------------- the recorder

  class FlowRecorder {
    const ecosystem: string
    var counts: map<PkgKey, Counts>
    var ipCounts: map<IPKey, Traffic>

    constructor (ecosystem: string)
      ensures this.ecosystem == ecosystem && counts == map[] && ipCounts == map[]
    {
      this.ecosystem, counts, ipCounts := ecosystem, map[], map[];
    }

    /** Fetch or create a counter set. */
    method PkgLocked(id: FlowID) returns (k: PkgKey)
      modifies this`counts
      ensures k == KeyOf(ecosystem, id) && k in counts
      ensures counts == old(counts)[k := PkgAt(old(counts), k)]
    {
      k := PkgKey(ecosystem, id.package, id.kind);
      if k !in counts {
        counts := counts[k := NO_COUNTS];
      }
    }

    method IPLocked(ip: string) returns (k: IPKey)
      modifies this`ipCounts
      ensures k == IPKey(ecosystem, ip) && k in ipCounts
      ensures ipCounts == old(ipCounts)[k := IPAt(old(ipCounts), k)]
    {
      k := IPKey(ecosystem, ip);
      if k !in ipCounts {
        ipCounts := ipCounts[k := NO_TRAFFIC];
      }
    }

    /** Both aggregations move together, so no drain can split one relay over two batches. */
    method RecordRelay(id: FlowID, ip: string)
      modifies this
      ensures var w := Step(ecosystem, true, START.(pkgs := old(counts), ips := old(ipCounts)), Relay(id, ip));
              counts == w.pkgs && ipCounts == w.ips
    {
      hide Add, AddTraffic;
      var k := PkgLocked(id);
      counts := counts[k := counts[k].(moved := counts[k].moved.(requests := counts[k].moved.requests + 1))];
      var i := IPLocked(ip);
      ipCounts := ipCounts[i := ipCounts[i].(requests := ipCounts[i].requests + 1)];
    }

    method RecordRelayBytes(id: FlowID, ip: string, upstream: nat, client: nat)
      modifies this
      ensures var w := Step(ecosystem, true, START.(pkgs := old(counts), ips := old(ipCounts)),
                Bytes(id, ip, upstream, client));
              counts == w.pkgs && ipCounts == w.ips
    {
      hide Add, AddTraffic;
      var k := PkgLocked(id);
      var c := counts[k].moved;
      counts := counts[k := counts[k].(moved := c.(upstream := c.upstream + upstream, client := c.client + client))];
      var i := IPLocked(ip);
      var ic := ipCounts[i];
      ipCounts := ipCounts[i := ic.(upstream := ic.upstream + upstream, client := ic.client + client)];
    }

    /** The failure counters live on the package side only. */
    method RecordFault(id: FlowID, f: Fault)
      modifies this
      ensures var w := Step(ecosystem, true, START.(pkgs := old(counts), ips := old(ipCounts)), Failure(id, f));
              counts == w.pkgs && ipCounts == w.ips
    {
      hide Add, AddTraffic;
      var k := PkgLocked(id);
      var c := counts[k];
      match f
      case Truncated => counts := counts[k := c.(truncated := c.truncated + 1)];
      case RelayError => counts := counts[k := c.(relayErrors := c.relayErrors + 1)];
      case TransportError => counts := counts[k := c.(transportErrors := c.transportErrors + 1)];
      case MetaError => counts := counts[k := c.(metaErrors := c.metaErrors + 1)];
      case Retry => counts := counts[k := c.(retries := c.retries + 1)];
      case IntegrityMismatch => counts := counts[k := c.(integrityMismatches := c.integrityMismatches + 1)];
    }

    method RecordStatus(id: FlowID, status: int)
      modifies this
      ensures var w := Step(ecosystem, true, START.(pkgs := old(counts), ips := old(ipCounts)), Status(id, status));
              counts == w.pkgs && ipCounts == w.ips
    {
      hide Add, AddTraffic;
      if status < 500 && status != 429 {
        return;
      }
      var k := PkgLocked(id);
      var c := counts[k];
      counts := counts[k := c.(upstreamStatus := c.upstreamStatus + 1)];
    }

    /** Everything since the previous drain, each counter set once, in order, and nothing kept. */
    method Drain() returns (pkgs: seq<Row<PkgKey, Counts>>, ips: seq<Row<IPKey, Traffic>>)
      modifies this
      ensures Lists(pkgs, old(counts)) && Lists(ips, old(ipCounts))
      ensures Ordered(pkgs, ComparePkgs) && Ordered(ips, CompareIPs)
      ensures counts == map[] && ipCounts == map[]
    {
      hide *;
      var someP := CopyRows(counts);
      var someI := CopyRows(ipCounts);
      counts := map[];
      ipCounts := map[];
      PkgsRank();
      IPsRank();
      SortLists(someP, old(counts), ComparePkgs);
      SortLists(someI, old(ipCounts), CompareIPs);
      SortOrders(someP, ComparePkgs);
      SortOrders(someI, CompareIPs);
      pkgs := SortRows(someP, ComparePkgs);
      ips := SortRows(someI, CompareIPs);
    }
  }

  // ---------------------------------------------------------------- the emitter

  datatype BatchDTO = BatchDTO(bucketStart: int, packages: seq<Row<PkgKey, Counts>>, sources: seq<Row<IPKey, Traffic>>)

  predicate Carries(dto: BatchDTO, b: Batch) {
    AsMap(dto.packages) == b.pkgs && AsMap(dto.sources) == b.ips
  }

  class FlowEmitter {
    const endpoint: string
    const recorder: FlowRecorder
    var posted: seq<BatchDTO>
    var applied: seq<BatchDTO>
    var dropped: nat

    constructor (endpoint: string, recorder: FlowRecorder)
      ensures this.endpoint == endpoint && this.recorder == recorder && posted == [] && applied == [] && dropped == 0
    {
      this.endpoint, this.recorder := endpoint, recorder;
      posted, applied, dropped := [], [], 0;
    }

    /** One delivery attempt. The answer is the network's and the sink's to give. */
    method Post(b: BatchDTO, answer: Answer) returns (ok: bool)
      modifies this`posted, this`applied
      ensures posted == old(posted) + [b] && ok == answer.Delivered?
      ensures applied == if answer == Delivered || answer.applied then old(applied) + [b] else old(applied)
    {
      posted := posted + [b];
      if answer == Delivered || answer.applied {
        applied := applied + [b];
      }
      ok := answer.Delivered?;
    }

    /** The drain happens whether or not anything can be sent; a failed post is counted, not
        repeated. */
    method Flush(bucketStart: int, answer: Answer)
      modifies this, recorder
      ensures var w := FlushStep(endpoint != "",
                World(old(recorder.counts), old(recorder.ipCounts), [], [], [], old(dropped)), answer);
              && recorder.counts == w.pkgs && recorder.ipCounts == w.ips && dropped == w.dropped
              && |posted| == old(|posted|) + |w.posted| && |applied| == old(|applied|) + |w.sink|
              && posted[..old(|posted|)] == old(posted) && applied[..old(|applied|)] == old(applied)
              && (|w.posted| == 1 ==> Carries(posted[old(|posted|)], w.drained[0]))
              && (|w.sink| == 1 ==> applied[old(|applied|)] == posted[old(|posted|)])
    {
      hide Lists, AsMap, Ordered, ComparePkgs, CompareIPs;
      var pkgs, ips := recorder.Drain();
      AsMapLists(pkgs, old(recorder.counts));
      AsMapLists(ips, old(recorder.ipCounts));
      ListsEmpty(pkgs, old(recorder.counts));
      ListsEmpty(ips, old(recorder.ipCounts));
      if |pkgs| == 0 && |ips| == 0 {
        return;
      }
      if endpoint == "" {
        return;
      }
      var ok := Post(BatchDTO(bucketStart, pkgs, ips), answer);
      if !ok {
        dropped := dropped + 1;
      }
    }
  }

  // ---------------------------------------------------------------- sums over a map

  /** The traffic of every counter set of a map together. */
  ghost function Total<K(!new)>(m: map<K, Traffic>): Traffic {
    if m == map[] then NO_TRAFFIC
    else
      var k :| k in m;
      AddTraffic(m[k], Total(m - {k}))
  }

  /** The order of summation does not matter. */
  lemma {:induction false} TotalAt<K(!new)>(m: map<K, Traffic>, k: K)
    requires k in m
    ensures Total(m) == AddTraffic(m[k], Total(m - {k}))
    decreases |m|
  {
    hide Add, AddTraffic;
    var j :| j in m && Total(m) == AddTraffic(m[j], Total(m - {j}));
    if j == k {
    } else {
      TotalAt(m - {j}, k);
      TotalAt(m - {k}, j);
      assert m - {j} - {k} == m - {k} - {j};
      Swap(m[j], m[k], Total(m - {j} - {k}));
    }
  }

  lemma Swap(a: Traffic, b: Traffic, c: Traffic)
    ensures AddTraffic(a, AddTraffic(b, c)) == AddTraffic(b, AddTraffic(a, c))
  {
  }

  lemma TotalBump<K(!new)>(m: map<K, Traffic>, k: K, more: Traffic)
    ensures var at := if k in m then m[k] else NO_TRAFFIC;
            Total(m[k := AddTraffic(at, more)]) == AddTraffic(Total(m), more)
  {
    hide Add, AddTraffic;
    var at := if k in m then m[k] else NO_TRAFFIC;
    var n := m[k := AddTraffic(at, more)];
    TotalAt(n, k);
    assert n - {k} == m - {k};
    if k in m {
      TotalAt(m, k);
    } else {
      assert m - {k} == m;
    }
  }

  function Moved(m: map<PkgKey, Counts>): map<PkgKey, Traffic> {
    map k | k in m :: m[k].moved
  }

  /** The two views of one batch account for the same requests and the same bytes. */
  ghost predicate Balanced(pkgs: map<PkgKey, Counts>, ips: map<IPKey, Traffic>) {
    Total(Moved(pkgs)) == Total(ips)
  }

  lemma MovedBump(m: map<PkgKey, Counts>, k: PkgKey, more: Counts)
    ensures Total(Moved(Bump(m, k, more))) == AddTraffic(Total(Moved(m)), more.moved)
  {
    hide Add, AddTraffic;
    TotalBump(Moved(m), k, more.moved);
    var at := if k in Moved(m) then Moved(m)[k] else NO_TRAFFIC;
    assert Moved(Bump(m, k, more)) == Moved(m)[k := AddTraffic(at, more.moved)];
  }

  lemma BalancedStep(eco: string, emits: bool, w: World, e: Event)
    requires Balanced(w.pkgs, w.ips) && forall i :: 0 <= i < |w.drained| ==>
               Balanced(w.drained[i].pkgs, w.drained[i].ips)
    ensures var w' := Step(eco, emits, w, e);
            Balanced(w'.pkgs, w'.ips) && forall i :: 0 <= i < |w'.drained| ==>
              Balanced(w'.drained[i].pkgs, w'.drained[i].ips)
  {
    hide Add, AddTraffic, Bump, Moved, Total;
    AddNothingIP(Total(Moved(w.pkgs)));
    match e
    case Relay(id, ip) =>
      MovedBump(w.pkgs, KeyOf(eco, id), NO_COUNTS.(moved := Traffic(1, 0, 0)));
      TotalBump(w.ips, IPKey(eco, ip), Traffic(1, 0, 0));
    case Bytes(id, ip, up, down) =>
      MovedBump(w.pkgs, KeyOf(eco, id), NO_COUNTS.(moved := Traffic(0, up, down)));
      TotalBump(w.ips, IPKey(eco, ip), Traffic(0, up, down));
    case Failure(id, f) => MovedBump(w.pkgs, KeyOf(eco, id), OneFault(f));
    case Status(id, s) => MovedBump(w.pkgs, KeyOf(eco, id), NO_COUNTS.(upstreamStatus := 1));
    case Flush(_) =>
      EmptyBalances();
      hide Balanced;
  }

  lemma EmptyBalances()
    ensures Balanced(map[], map[])
  {
    assert Moved(map[]) == map[];
  }

  /** In every run, what is held and each drained batch have equal request and byte totals
      across package rows and IP rows. */
  lemma {:induction false} BatchesBalance(eco: string, emits: bool, events: seq<Event>)
    ensures var w := RunAll(eco, emits, events);
            Balanced(w.pkgs, w.ips) && forall i :: 0 <= i < |w.drained| ==>
              Balanced(w.drained[i].pkgs, w.drained[i].ips)
  {
    hide Add, AddTraffic;
    hide Step;
    if events == [] {
      assert Moved(map[]) == map[];
    } else {
      BatchesBalance(eco, emits, events[..|events| - 1]);
      hide Balanced;
      BalancedStep(eco, emits, RunAll(eco, emits, events[..|events| - 1]), events[|events| - 1]);
    }
  }

  /** A recorder only ever holds and drains keys of its own ecosystem. */
  ghost predicate OwnKeys(eco: string, b: Batch) {
    (forall k :: k in b.pkgs ==> k.ecosystem == eco) && (forall k :: k in b.ips ==> k.ecosystem == eco)
  }

  lemma KeysOwnStep(eco: string, emits: bool, w: World, e: Event)
    requires OwnKeys(eco, Batch(w.pkgs, w.ips))
    ensures var w' := Step(eco, emits, w, e);
            && OwnKeys(eco, Batch(w'.pkgs, w'.ips))
            && w'.drained == if e.Flush? then w.drained + [Batch(w.pkgs, w.ips)] else w.drained
  {
    hide Add, AddTraffic, OneFault, PkgAt, IPAt;
  }

  lemma {:induction false} AllKeysOwn(eco: string, emits: bool, events: seq<Event>)
    ensures var w := RunAll(eco, emits, events);
            OwnKeys(eco, Batch(w.pkgs, w.ips)) && forall i :: 0 <= i < |w.drained| ==> OwnKeys(eco, w.drained[i])
  {
    if events != [] {
      hide Step;
      AllKeysOwn(eco, emits, events[..|events| - 1]);
      KeysOwnStep(eco, emits, RunAll(eco, emits, events[..|events| - 1]), events[|events| - 1]);
      hide OwnKeys;
    }
  }

  /** Every batch of every run has exactly one ordered listing, so what a drain returns is
      determined by what was recorded, not by the order of a Go map. */
  lemma BatchRowsDetermined(eco: string, emits: bool, events: seq<Event>, i: nat,
      a: seq<Row<PkgKey, Counts>>, b: seq<Row<PkgKey, Counts>>,
      c: seq<Row<IPKey, Traffic>>, d: seq<Row<IPKey, Traffic>>)
    requires var w := RunAll(eco, emits, events);
             && i < |w.drained| && Lists(a, w.drained[i].pkgs) && Lists(b, w.drained[i].pkgs)
             && Lists(c, w.drained[i].ips) && Lists(d, w.drained[i].ips)
    requires Ordered(a, ComparePkgs) && Ordered(b, ComparePkgs) && Ordered(c, CompareIPs) && Ordered(d, CompareIPs)
    ensures a == b && c == d
  {
    AllKeysOwn(eco, emits, events);
    var w := RunAll(eco, emits, events);
    hide RunAll, Lists, Ordered;
    DrainIsDetermined(eco, w.drained[i].pkgs, a, b);
    DrainedIPsDetermined(eco, w.drained[i].ips, c, d);
  }

  // ---------------------------------------------------------------- conservation

  /** What one event puts on a package key. */
  function EventAt(eco: string, e: Event, k: PkgKey): Counts {
    if e.Flush? || KeyOf(eco, e.id) != k then NO_COUNTS
    else
      match e
      case Relay(_, _) => NO_COUNTS.(moved := Traffic(1, 0, 0))
      case Bytes(_, _, up, down) => NO_COUNTS.(moved := Traffic(0, up, down))
      case Failure(_, f) => OneFault(f)
      case Status(_, s) => if CountedStatus(s) then NO_COUNTS.(upstreamStatus := 1) else NO_COUNTS
  }

  function EventAtIP(eco: string, e: Event, k: IPKey): Traffic {
    if !(e.Relay? || e.Bytes?) || IPKey(eco, e.ip) != k then NO_TRAFFIC
    else if e.Relay? then Traffic(1, 0, 0)
    else Traffic(0, e.upstream, e.client)
  }

  function Recorded(eco: string, events: seq<Event>, k: PkgKey): Counts {
    if events == [] then NO_COUNTS
    else Add(Recorded(eco, events[..|events| - 1], k), EventAt(eco, events[|events| - 1], k))
  }

  function RecordedIP(eco: string, events: seq<Event>, k: IPKey): Traffic {
    if events == [] then NO_TRAFFIC
    else AddTraffic(RecordedIP(eco, events[..|events| - 1], k), EventAtIP(eco, events[|events| - 1], k))
  }

  function SumAt(batches: seq<Batch>, k: PkgKey): Counts {
    if batches == [] then NO_COUNTS
    else Add(SumAt(batches[..|batches| - 1], k), PkgAt(batches[|batches| - 1].pkgs, k))
  }

  function SumAtIP(batches: seq<Batch>, k: IPKey): Traffic {
    if batches == [] then NO_TRAFFIC
    else AddTraffic(SumAtIP(batches[..|batches| - 1], k), IPAt(batches[|batches| - 1].ips, k))
  }

  lemma SumAppend(batches: seq<Batch>, b: Batch, k: PkgKey, i: IPKey)
    ensures SumAt(batches + [b], k) == Add(SumAt(batches, k), PkgAt(b.pkgs, k))
    ensures SumAtIP(batches + [b], i) == AddTraffic(SumAtIP(batches, i), IPAt(b.ips, i))
  {
    assert (batches + [b])[..|batches + [b]| - 1] == batches;
  }

  /** Held plus drained accounts for r at k and t at i. */
  predicate Accounts(w: World, k: PkgKey, i: IPKey, r: Counts, t: Traffic) {
    && Add(SumAt(w.drained, k), PkgAt(w.pkgs, k)) == r
    && AddTraffic(SumAtIP(w.drained, i), IPAt(w.ips, i)) == t
  }

  lemma AccountsStep(eco: string, emits: bool, w: World, e: Event, k: PkgKey, i: IPKey, r: Counts, t: Traffic)
    requires Accounts(w, k, i, r, t)
    ensures Accounts(Step(eco, emits, w, e), k, i, Add(r, EventAt(eco, e, k)), AddTraffic(t, EventAtIP(eco, e, i)))
  {
    hide *;
    AccountsIs(w, k, i, r, t);
    AccountsIs(Step(eco, emits, w, e), k, i, Add(r, EventAt(eco, e, k)), AddTraffic(t, EventAtIP(eco, e, i)));
    if e.Flush? {
      var b := Batch(w.pkgs, w.ips);
      FlushAt(eco, emits, w, e, k, i);
      SumAppend(w.drained, b, k, i);
      AddNothing(r);
      AddNothingIP(t);
    } else {
      StepPkgAt(eco, emits, w, e, k);
      StepIPAt(eco, emits, w, e, i);
      Regroup(SumAt(w.drained, k), PkgAt(w.pkgs, k), EventAt(eco, e, k));
      RegroupIP(SumAtIP(w.drained, i), IPAt(w.ips, i), EventAtIP(eco, e, i));
    }
  }

  lemma AccountsIs(w: World, k: PkgKey, i: IPKey, r: Counts, t: Traffic)
    ensures Accounts(w, k, i, r, t) <==>
              Add(SumAt(w.drained, k), PkgAt(w.pkgs, k)) == r && AddTraffic(SumAtIP(w.drained, i), IPAt(w.ips, i)) == t
  {
    hide Add, AddTraffic, SumAt, SumAtIP, PkgAt, IPAt;
  }

  lemma Regroup(a: Counts, b: Counts, c: Counts)
    ensures Add(a, Add(b, c)) == Add(Add(a, b), c)
  {
    hide Add, AddTraffic;
    RegroupIP(a.moved, b.moved, c.moved);
  }

  lemma RegroupIP(a: Traffic, b: Traffic, c: Traffic)
    ensures AddTraffic(a, AddTraffic(b, c)) == AddTraffic(AddTraffic(a, b), c)
  {
    hide AddTraffic;
  }

  lemma AddNothing(a: Counts)
    ensures Add(a, NO_COUNTS) == a
  {
    hide Add;
    AddNothingIP(a.moved);
    hide AddTraffic;
  }

  lemma AddNothingIP(a: Traffic)
    ensures AddTraffic(a, NO_TRAFFIC) == a
  {
    hide AddTraffic;
  }

  lemma BumpAt(m: map<PkgKey, Counts>, at: PkgKey, more: Counts, k: PkgKey)
    ensures PkgAt(Bump(m, at, more), k) == Add(PkgAt(m, k), if at == k then more else NO_COUNTS)
  {
    hide Add;
    AddNothing(PkgAt(m, k));
  }

  lemma BumpIPAt(m: map<IPKey, Traffic>, at: IPKey, more: Traffic, k: IPKey)
    ensures IPAt(BumpIP(m, at, more), k) == AddTraffic(IPAt(m, k), if at == k then more else NO_TRAFFIC)
  {
    hide AddTraffic;
    AddNothingIP(IPAt(m, k));
  }

  /** What a step does at one package key. */
  lemma StepPkgAt(eco: string, emits: bool, w: World, e: Event, k: PkgKey)
    requires !e.Flush?
    ensures var w' := Step(eco, emits, w, e);
            w'.drained == w.drained && PkgAt(w'.pkgs, k) == Add(PkgAt(w.pkgs, k), EventAt(eco, e, k))
  {
    hide Add, AddTraffic, OneFault, PkgAt, IPAt, Bump, BumpIP;
    var own := EventAt(eco, e, KeyOf(eco, e.id));
    BumpAt(w.pkgs, KeyOf(eco, e.id), own, k);
    AddNothing(PkgAt(w.pkgs, k));
  }

  /** What a step does at one IP key. */
  lemma StepIPAt(eco: string, emits: bool, w: World, e: Event, i: IPKey)
    requires !e.Flush?
    ensures IPAt(Step(eco, emits, w, e).ips, i) == AddTraffic(IPAt(w.ips, i), EventAtIP(eco, e, i))
  {
    hide Add, AddTraffic, OneFault, PkgAt, IPAt, Bump, BumpIP;
    AddNothingIP(IPAt(w.ips, i));
    if e.Relay? || e.Bytes? {
      BumpIPAt(w.ips, IPKey(eco, e.ip), EventAtIP(eco, e, IPKey(eco, e.ip)), i);
    }
  }

  lemma FlushAt(eco: string, emits: bool, w: World, e: Event, k: PkgKey, i: IPKey)
    requires e.Flush?
    ensures var w' := Step(eco, emits, w, e);
            && w'.drained == w.drained + [Batch(w.pkgs, w.ips)]
            && PkgAt(w'.pkgs, k) == NO_COUNTS && IPAt(w'.ips, i) == NO_TRAFFIC
            && EventAt(eco, e, k) == NO_COUNTS && EventAtIP(eco, e, i) == NO_TRAFFIC
  {
    hide Add, AddTraffic;
  }

  /** Nothing recorded is lost or counted twice by draining: for every key, what was recorded
      is what is held plus what the drained batches carry. */
  lemma {:induction false} DrainConserves(eco: string, emits: bool, events: seq<Event>, k: PkgKey, i: IPKey)
    ensures Accounts(RunAll(eco, emits, events), k, i, Recorded(eco, events, k), RecordedIP(eco, events, i))
  {
    hide Add, AddTraffic;
    hide Step, Accounts, EventAt, EventAtIP;
    if events == [] {
      StartAccounts(k, i);
    } else {
      var front := events[..|events| - 1];
      DrainConserves(eco, emits, front, k, i);
      AccountsStep(eco, emits, RunAll(eco, emits, front), events[|events| - 1], k, i, Recorded(eco, front, k),
        RecordedIP(eco, front, i));
    }
  }

  lemma StartAccounts(k: PkgKey, i: IPKey)
    ensures Accounts(START, k, i, NO_COUNTS, NO_TRAFFIC)
  {
    hide Add, AddTraffic;
  }

  // ---------------------------------------------------------------- what each counter counts

  /** A weight summed over the events. */
  function Tally(events: seq<Event>, weight: Event -> nat): nat {
    if events == [] then 0 else Tally(events[..|events| - 1], weight) + weight(events[|events| - 1])
  }

  function Faults(id: FlowID, f: Fault): Event -> nat {
    (e: Event) => if e == Failure(id, f) then 1 else 0
  }

  function Outages(id: FlowID): Event -> nat {
    (e: Event) => if e.Status? && e.id == id && (e.status == 429 || 500 <= e.status) then 1 else 0
  }

  function Requests(id: FlowID): Event -> nat {
    (e: Event) => if e.Relay? && e.id == id then 1 else 0
  }

  function Upstream(id: FlowID): Event -> nat {
    (e: Event) => if e.Bytes? && e.id == id then e.upstream else 0
  }

  function Client(id: FlowID): Event -> nat {
    (e: Event) => if e.Bytes? && e.id == id then e.client else 0
  }

  function RequestsFrom(ip: string): Event -> nat {
    (e: Event) => if e.Relay? && e.ip == ip then 1 else 0
  }

  function UpstreamFrom(ip: string): Event -> nat {
    (e: Event) => if e.Bytes? && e.ip == ip then e.upstream else 0
  }

  function ClientFrom(ip: string): Event -> nat {
    (e: Event) => if e.Bytes? && e.ip == ip then e.client else 0
  }

  lemma EventIs(eco: string, e: Event, id: FlowID)
    ensures EventAt(eco, e, PkgKey(eco, id.package, id.kind)) ==
            Counts(
              Traffic(Requests(id)(e), Upstream(id)(e), Client(id)(e)),
              Faults(id, Truncated)(e), Faults(id, RelayError)(e), Faults(id, TransportError)(e), Outages(id)(e),
              Faults(id, MetaError)(e), Faults(id, Retry)(e), Faults(id, IntegrityMismatch)(e))
  {
  }

  /** What is recorded for a package, counter by counter: each failure counter the failures of its
      own kind, the status counter the answers 429 and from 500 up, and the traffic the requests
      and the bytes that moved each way. */
  lemma {:induction false} CountersCount(eco: string, events: seq<Event>, id: FlowID)
    ensures Recorded(eco, events, PkgKey(eco, id.package, id.kind)) ==
            Counts(
              Traffic(Tally(events, Requests(id)), Tally(events, Upstream(id)), Tally(events, Client(id))),
              Tally(events, Faults(id, Truncated)), Tally(events, Faults(id, RelayError)),
              Tally(events, Faults(id, TransportError)), Tally(events, Outages(id)),
              Tally(events, Faults(id, MetaError)), Tally(events, Faults(id, Retry)),
              Tally(events, Faults(id, IntegrityMismatch)))
  {
    hide Faults, Outages, Requests, Upstream, Client, EventAt, Add, AddTraffic;
    if events != [] {
      CountersCount(eco, events[..|events| - 1], id);
      EventIs(eco, events[|events| - 1], id);
    }
  }

  /** The same for a source host. Its view has no failures. */
  lemma {:induction false} HostsCount(eco: string, events: seq<Event>, ip: string)
    ensures RecordedIP(eco, events, IPKey(eco, ip)) ==
            Traffic(Tally(events, RequestsFrom(ip)), Tally(events, UpstreamFrom(ip)), Tally(events, ClientFrom(ip)))
  {
    hide AddTraffic;
    if events != [] {
      HostsCount(eco, events[..|events| - 1], ip);
    }
  }

  // ---------------------------------------------------------------- the additive sink

  /** The sink holds no more than was drained, and exactly that while nothing was dropped. */
  predicate SinkInv(emits: bool, w: World, k: PkgKey, i: IPKey) {
    && AtMost(SumAt(w.sink, k), SumAt(w.drained, k))
    && TrafficAtMost(SumAtIP(w.sink, i), SumAtIP(w.drained, i))
    && (emits && w.dropped == 0 ==>
         SumAt(w.sink, k) == SumAt(w.drained, k) && SumAtIP(w.sink, i) == SumAtIP(w.drained, i))
    && Increasing(w.posted, |w.drained|)
    && |w.sink| <= |w.posted|
  }

  /** Indices of drained batches, each at most once. */
  predicate Increasing(posted: seq<nat>, bound: nat) {
    && (forall p, q :: 0 <= p < q < |posted| ==> posted[p] < posted[q])
    && (forall p :: 0 <= p < |posted| ==> posted[p] < bound)
  }

  lemma SinkStep(eco: string, emits: bool, w: World, e: Event, k: PkgKey, i: IPKey)
    requires SinkInv(emits, w, k, i)
    ensures SinkInv(emits, Step(eco, emits, w, e), k, i)
  {
    hide Add, AddTraffic;
    hide SumAt, SumAtIP;
    var b := Batch(w.pkgs, w.ips);
    SumAppend(w.drained, b, k, i);
    SumAppend(w.sink, b, k, i);
  }

  lemma {:induction false} SinkRun(eco: string, emits: bool, events: seq<Event>, k: PkgKey, i: IPKey)
    ensures SinkInv(emits, RunAll(eco, emits, events), k, i)
  {
    hide Add, AddTraffic;
    if events != [] {
      hide Step, SinkInv;
      SinkRun(eco, emits, events[..|events| - 1], k, i);
      SinkStep(eco, emits, RunAll(eco, emits, events[..|events| - 1]), events[|events| - 1], k, i);
    }
  }

  /** In every run, whatever the network answers: each batch is posted at most once, no key of
      the sink exceeds what was recorded for it, and with an endpoint configured and no drop
      counted, the sink and what is still held together are exactly what was recorded. */
  lemma SinkNeverExceeds(eco: string, emits: bool, events: seq<Event>, k: PkgKey, i: IPKey)
    ensures var w := RunAll(eco, emits, events);
            && AtMost(SumAt(w.sink, k), Recorded(eco, events, k))
            && TrafficAtMost(SumAtIP(w.sink, i), RecordedIP(eco, events, i))
            && Increasing(w.posted, |w.drained|) && |w.sink| <= |w.posted|
            && (emits && w.dropped == 0 ==>
                  && Add(SumAt(w.sink, k), PkgAt(w.pkgs, k)) == Recorded(eco, events, k)
                  && AddTraffic(SumAtIP(w.sink, i), IPAt(w.ips, i)) == RecordedIP(eco, events, i))
  {
    hide Add, AddTraffic;
    DrainConserves(eco, emits, events, k, i);
    SinkRun(eco, emits, events, k, i);
    hide RunAll, SumAt, SumAtIP, Recorded, RecordedIP;
  }

  // ---------------------------------------------------------------- exactly what is sent

  const NOTHING := Batch(map[], map[])

  /** How the flushes of a run were answered, in order. */
  function Answers(events: seq<Event>): seq<Answer> {
    if events == [] then []
    else
      var e := events[|events| - 1];
      Answers(events[..|events| - 1]) + if e.Flush? then [e.answer] else []
  }

  /** The non-empty batches whose flush was answered so. */
  function AnsweredSo(drained: seq<Batch>, answers: seq<Answer>, so: Answer -> bool): seq<Batch>
    requires |drained| == |answers|
  {
    if drained == [] then []
    else
      var n := |drained| - 1;
      AnsweredSo(drained[..n], answers[..n], so) +
      if drained[n] != NOTHING && so(answers[n]) then [drained[n]] else []
  }

  predicate Reached(a: Answer) {
    a != Errored(false)
  }

  predicate Lost(a: Answer) {
    a.Errored?
  }

  /** What has been sent after these flushes: every non-empty batch once and nothing else, the sink
      applied those that reached it, and each error is a drop. Without an endpoint, nothing. */
  ghost predicate SentExactly(emits: bool, w: World, answers: seq<Answer>) {
    && |w.drained| == |answers|
    && (emits ==>
         && (forall i: nat :: i in w.posted <==> i < |w.drained| && w.drained[i] != NOTHING)
         && w.sink == AnsweredSo(w.drained, answers, Reached)
         && w.dropped == |AnsweredSo(w.drained, answers, Lost)|)
    && (!emits ==> w.posted == [] && w.sink == [] && w.dropped == 0)
  }

  lemma SentFlush(emits: bool, w: World, answers: seq<Answer>, a: Answer)
    requires SentExactly(emits, w, answers)
    ensures SentExactly(emits, FlushStep(emits, w, a), answers + [a])
  {
    var b := Batch(w.pkgs, w.ips);
    AnsweredStep(w.drained, answers, b, a, Reached);
    AnsweredStep(w.drained, answers, b, a, Lost);
    var w' := FlushStep(emits, w, a);
    hide AnsweredSo;
    assert w'.drained == w.drained + [b];
    forall i: nat ensures emits ==> (i in w'.posted <==> i < |w'.drained| && w'.drained[i] != NOTHING) {
      assert i < |w.drained| ==> w'.drained[i] == w.drained[i];
    }
  }

  lemma AnsweredStep(drained: seq<Batch>, answers: seq<Answer>, b: Batch, a: Answer, so: Answer -> bool)
    requires |drained| == |answers|
    ensures AnsweredSo(drained + [b], answers + [a], so) ==
            AnsweredSo(drained, answers, so) + if b != NOTHING && so(a) then [b] else []
  {
    assert (drained + [b])[..|drained|] == drained && (answers + [a])[..|drained|] == answers;
  }

  lemma SentOther(eco: string, emits: bool, w: World, e: Event)
    requires !e.Flush?
    ensures var w' := Step(eco, emits, w, e);
            w'.drained == w.drained && w'.posted == w.posted && w'.sink == w.sink && w'.dropped == w.dropped
  {
    hide Bump, BumpIP, OneFault;
  }

  lemma SentKept(emits: bool, w: World, w': World, answers: seq<Answer>)
    requires SentExactly(emits, w, answers)
    requires w'.drained == w.drained && w'.posted == w.posted && w'.sink == w.sink && w'.dropped == w.dropped
    ensures SentExactly(emits, w', answers)
  {
    hide AnsweredSo;
  }

  lemma FlushIs(eco: string, emits: bool, w: World, e: Event)
    requires e.Flush?
    ensures Step(eco, emits, w, e) == FlushStep(emits, w, e.answer)
  {
    hide FlushStep;
  }

  lemma SentStep(eco: string, emits: bool, w: World, e: Event, answers: seq<Answer>)
    requires SentExactly(emits, w, answers)
    ensures SentExactly(emits, Step(eco, emits, w, e), answers + if e.Flush? then [e.answer] else [])
  {
    hide *;
    if e.Flush? {
      FlushIs(eco, emits, w, e);
      SentFlush(emits, w, answers, e.answer);
    } else {
      SentOther(eco, emits, w, e);
      SentKept(emits, w, Step(eco, emits, w, e), answers);
      assert answers + [] == answers;
    }
  }

  /** In every run. */
  lemma {:induction false} RunSendsExactly(eco: string, emits: bool, events: seq<Event>)
    ensures SentExactly(emits, RunAll(eco, emits, events), Answers(events))
  {
    hide Step;
    if events != [] {
      hide SentExactly;
      RunSendsExactly(eco, emits, events[..|events| - 1]);
      SentStep(eco, emits, RunAll(eco, emits, events[..|events| - 1]), events[|events| - 1],
        Answers(events[..|events| - 1]));
    }
  }
}
