/** inflight.go and the async half of firewall.go: any number of requests and background
    scans interleave over one slot table and two score caches. Each step below is one
    atomic action of the source: one locked map operation, one cache read or write, one
    remote read or write. */
module ScanSlot {
  import opened GoStrings

  type Repo = string
  type Tid = nat

  // ---------------------------------------------------------------- the slot table

  /** begin: exactly one caller gets true while a repo is free. */
  function BeginSlot(running: set<Repo>, repo: Repo): (bool, set<Repo>) {
    if repo in running then (false, running) else (true, running + {repo})
  }

  function DoneSlot(running: set<Repo>, repo: Repo): set<Repo> {
    running - {repo}
  }

  class InflightScans {
    var running: map<Repo, bool>

    ghost function Claimed(): set<Repo>
      reads this
    {
      set r | r in running && running[r]
    }

    constructor ()
      ensures Claimed() == {}
    {
      running := map[];
    }

    method Begin(repo: Repo) returns (claimed: bool)
      modifies this
      ensures (claimed, Claimed()) == BeginSlot(old(Claimed()), repo)
    {
      if repo in running && running[repo] {
        return false;
      }
      running := running[repo := true];
      assert Claimed() == old(Claimed()) + {repo};
      claimed := true;
    }

    method Done(repo: Repo)
      modifies this
      ensures Claimed() == DoneSlot(old(Claimed()), repo)
    {
      running := running - {repo};
    }
  }

  // ---------------------------------------------------------------- state

  /** An L2 row: a score, or the negative marker; None for a row that carries no timestamp. */
  datatype Row = Row(score: Option<int>, updatedAt: Option<nat>)

  /** l2Stale: freshness off (ttl 0) or no timestamp means never stale. */
  predicate L2Stale(ttl: nat, row: Row, now: nat) {
    ttl > 0 && row.updatedAt.Some? && now > row.updatedAt.value + ttl
  }

  datatype Outcome = Ready(score: int) | Unscorable | Pending

  /** Where a request is inside scoreFor. */
  datatype RequestPC =
    | ReadL1 | ReadL2 | WarmL1(warm: int)                      // the first resolution
    | Begin                                                    // about to claim the slot
    | ReReadL1 | ReReadL2 | ReWarmL1(rewarm: int)              // the re-check, slot held
    | GiveBack(resolved: Outcome) | Launch                     // slot held
    | Returned(outcome: Outcome)

  /** Where a background scan is inside runBackgroundScan. */
  datatype ScanPC = Scanning | PutL1(score: int) | PutL2(row: Option<int>) | Finish

  datatype Request = Request(repo: Repo, pc: RequestPC)
  datatype Scan = Scan(repo: Repo, pc: ScanPC)

  /** A scan is named after the request that launched it. */
  datatype State = State(
    running: set<Repo>, l1: map<Repo, int>, l2: map<Repo, Row>, l2Up: bool, now: nat,
    requests: map<Tid, Request>, scans: map<Tid, Scan>)

  predicate HoldsSlot(pc: RequestPC) {
    pc.ReReadL1? || pc.ReReadL2? || pc.ReWarmL1? || pc.GiveBack? || pc.Launch?
  }

  datatype Party = Requester(t: Tid) | Scanner(t: Tid)

  /** p is between a successful begin and its done for repo r. */
  predicate Owns(s: State, p: Party, r: Repo) {
    match p
    case Requester(t) => t in s.requests && s.requests[t].repo == r && HoldsSlot(s.requests[t].pc)
    case Scanner(t) => t in s.scans && s.scans[t].repo == r
  }

  /** What the L2 read of resolveCachedScore sees: an outage, a missing or a stale row is cold. */
  function L2View(s: State, ttl: nat, r: Repo): Option<Row> {
    if s.l2Up && r in s.l2 && !L2Stale(ttl, s.l2[r], s.now) then Some(s.l2[r]) else None
  }

  // ---------------------------------------------------------------- steps

  datatype Label =
    | Arrive(t: Tid, repo: Repo)
    | Advance(t: Tid)                            // a request moves
    | StartScan(t: Tid)                          // `go runBackgroundScan`
    | Scanned(t: Tid, result: ScanResult)        // the live scan returns
    | Write(t: Tid, ok: bool)                    // a scan's cache or L2 write
    | EndScan(t: Tid)                            // deferred done
    | DropL1(repo: Repo)                         // expiry or eviction
    | Elapse(d: nat)
    | L2Outage | L2Recovery
    | WriteL2(repo: Repo, row: Row) | DropL2(repo: Repo)   // other replicas, operators
    | ScanOutsideSlot(repo: Repo, found: Option<int>)      // getScored on a human-supplied repo

  datatype ScanResult = Scored(score: int) | NoScore | Transient

  function SetPC(s: State, t: Tid, pc: RequestPC): State
    requires t in s.requests
  {
    s.(requests := s.requests[t := s.requests[t].(pc := pc)])
  }

  /** Where a request goes from where it is; the launch is a label of its own. */
  function NextPC(s: State, ttl: nat, r: Repo, pc: RequestPC): RequestPC {
    match pc
    case ReadL1 => if r in s.l1 then Returned(Ready(s.l1[r])) else ReadL2
    case ReadL2 =>
      var row := L2View(s, ttl, r);
      if row.None? then Begin
      else if row.value.score.Some? then WarmL1(row.value.score.value)
      else Returned(Unscorable)
    case WarmL1(sc) => Returned(Ready(sc))
    case Begin => if BeginSlot(s.running, r).0 then ReReadL1 else Returned(Pending)
    case ReReadL1 => if r in s.l1 then GiveBack(Ready(s.l1[r])) else ReReadL2
    case ReReadL2 =>
      var row := L2View(s, ttl, r);
      if row.None? then Launch
      else if row.value.score.Some? then ReWarmL1(row.value.score.value)
      else GiveBack(Unscorable)
    case ReWarmL1(sc) => GiveBack(Ready(sc))
    case GiveBack(o) => Returned(o)
    case Launch => pc
    case Returned(_) => pc
  }

  /** What the same step writes: L1 is warmed from L2, the slot is claimed or given back. */
  function Writes(s: State, r: Repo, pc: RequestPC): State {
    match pc
    case WarmL1(sc) => s.(l1 := s.l1[r := sc])
    case ReWarmL1(sc) => s.(l1 := s.l1[r := sc])
    case Begin => s.(running := BeginSlot(s.running, r).1)
    case GiveBack(_) => s.(running := DoneSlot(s.running, r))
    case _ => s
  }

  function AdvanceRequest(s: State, ttl: nat, t: Tid): State
    requires t in s.requests
  {
    var Request(r, pc) := s.requests[t];
    SetPC(Writes(s, r, pc), t, NextPC(s, ttl, r, pc))
  }

  function SetScan(s: State, t: Tid, pc: ScanPC): State
    requires t in s.scans
  {
    s.(scans := s.scans[t := s.scans[t].(pc := pc)])
  }

  function WriteScan(s: State, t: Tid, ok: bool): State
    requires t in s.scans
  {
    var r := s.scans[t].repo;
    match s.scans[t].pc
    case PutL1(sc) => SetScan(s.(l1 := s.l1[r := sc]), t, PutL2(Some(sc)))
    case PutL2(row) =>
      SetScan(if ok then s.(l2 := s.l2[r := Row(row, Some(s.now))]) else s, t, Finish)
    case _ => s
  }

  predicate Enabled(s: State, l: Label) {
    match l
    case Arrive(t, _) => t !in s.requests && t !in s.scans
    case Advance(t) => t in s.requests && !s.requests[t].pc.Launch? && !s.requests[t].pc.Returned?
    case StartScan(t) => t in s.requests && s.requests[t].pc.Launch?
    case Scanned(t, _) => t in s.scans && s.scans[t].pc.Scanning?
    case Write(t, ok) => t in s.scans && (s.scans[t].pc.PutL1? || (s.scans[t].pc.PutL2? && (ok ==> s.l2Up)))
    case EndScan(t) => t in s.scans && s.scans[t].pc.Finish?
    case _ => true
  }

  function Next(s: State, ttl: nat, l: Label): State
    requires Enabled(s, l)
  {
    match l
    case Arrive(t, repo) => s.(requests := s.requests[t := Request(repo, ReadL1)])
    case Advance(t) => AdvanceRequest(s, ttl, t)
    case StartScan(t) =>
      SetPC(s.(scans := s.scans[t := Scan(s.requests[t].repo, Scanning)]), t, Returned(Pending))
    case Scanned(t, result) =>
      SetScan(s, t, match result case Scored(sc) => PutL1(sc) case NoScore => PutL2(None) case Transient => Finish)
    case Write(t, ok) => WriteScan(s, t, ok)
    case EndScan(t) => s.(running := DoneSlot(s.running, s.scans[t].repo), scans := s.scans - {t})
    case DropL1(r) => s.(l1 := s.l1 - {r})
    case Elapse(d) => s.(now := s.now + d)
    case L2Outage => s.(l2Up := false)
    case L2Recovery => s.(l2Up := true)
    case WriteL2(r, row) => s.(l2 := s.l2[r := row])
    case DropL2(r) => s.(l2 := s.l2 - {r})
    case ScanOutsideSlot(r, found) => if found.Some? then s.(l1 := s.l1[r := found.value]) else s
  }

  /** A run starts with nobody running, whatever the caches hold. */
  predicate Initial(s: State) {
    s.running == {} && s.requests == map[] && s.scans == map[]
  }

  ghost predicate Run(states: seq<State>, labels: seq<Label>, ttl: nat) {
    && |states| == |labels| + 1
    && Initial(states[0])
    && forall k :: 0 <= k < |labels| ==>
         Enabled(states[k], labels[k]) && states[k + 1] == Next(states[k], ttl, labels[k])
  }

  // ---------------------------------------------------------------- one owner per slot

  /** The table marks a repo exactly while somebody owns its slot, and never two. */
  ghost predicate SlotInv(s: State) {
    && (forall r, p :: Owns(s, p, r) ==> r in s.running)
    && (forall r :: r in s.running ==> exists p :: Owns(s, p, r))
    && (forall r, p, q :: Owns(s, p, r) && Owns(s, q, r) ==> p == q)
    && (forall t :: t in s.requests && t in s.scans ==> s.requests[t].pc.Returned?)
  }

  /** A step that moves no owner of r and leaves r's mark alone keeps r's part of the invariant. */
  lemma Untouched(s: State, s': State)
    requires SlotInv(s) && s'.running == s.running
    requires forall r, p :: Owns(s', p, r) <==> Owns(s, p, r)
    requires forall t :: t in s'.requests && t in s'.scans ==> s'.requests[t].pc.Returned?
    ensures SlotInv(s')
  {
  }

  predicate Apart(s: State) {
    forall t :: t in s.requests && t in s.scans ==> s.requests[t].pc.Returned?
  }

  lemma ClaimKeeps(s: State, s': State, me: Party, r: Repo)
    requires SlotInv(s) && Apart(s') && r !in s.running && s'.running == s.running + {r}
    requires forall q, x :: Owns(s', q, x) <==> Owns(s, q, x) || (q == me && x == r)
    ensures SlotInv(s')
  {
    assert Owns(s', me, r);
    forall x | x in s'.running ensures exists p :: Owns(s', p, x) {
      if x != r {
        var p :| Owns(s, p, x);
        assert Owns(s', p, x);
      }
    }
  }

  lemma ReleaseKeeps(s: State, s': State, me: Party, r: Repo)
    requires SlotInv(s) && Apart(s') && Owns(s, me, r) && s'.running == s.running - {r}
    requires forall q, x :: Owns(s', q, x) <==> Owns(s, q, x) && q != me
    ensures SlotInv(s')
  {
    forall x | x in s'.running ensures exists p :: Owns(s', p, x) {
      var p :| Owns(s, p, x);
      assert p != me;
      assert Owns(s', p, x);
    }
  }

  /** What a request's step does to the slot table, by where it starts. */
  lemma AdvanceShape(s: State, ttl: nat, t: Tid)
    requires Enabled(s, Advance(t))
    ensures var s', pc, r := AdvanceRequest(s, ttl, t), s.requests[t].pc, s.requests[t].repo;
            && s'.scans == s.scans
            && s'.requests == s.requests[t := Request(r, NextPC(s, ttl, r, pc))]
            && SlotShape(s, s', r, pc, NextPC(s, ttl, r, pc))
  {
    NextHolds(s, ttl, s.requests[t].repo, s.requests[t].pc);
    hide NextPC, HoldsSlot;
  }

  /** A claim of a free slot and a give-back change the slot and its holder; nothing else does. */
  predicate SlotShape(s: State, s': State, r: Repo, pc: RequestPC, pc': RequestPC) {
    if pc.Begin? && r !in s.running then !HoldsSlot(pc) && HoldsSlot(pc') && s'.running == s.running + {r}
    else if pc.GiveBack? then HoldsSlot(pc) && !HoldsSlot(pc') && s'.running == s.running - {r}
    else HoldsSlot(pc') == HoldsSlot(pc) && s'.running == s.running
  }

  lemma NextHolds(s: State, ttl: nat, r: Repo, pc: RequestPC)
    ensures HoldsSlot(NextPC(s, ttl, r, pc)) <==>
            if pc.Begin? then r !in s.running else HoldsSlot(pc) && !pc.GiveBack?
  {
    hide L2View;
  }

  lemma AdvanceKeeps(s: State, ttl: nat, t: Tid)
    requires SlotInv(s) && Enabled(s, Advance(t))
    ensures SlotInv(Next(s, ttl, Advance(t)))
  {
    var s' := AdvanceRequest(s, ttl, t);
    var me, r, pc := Requester(t), s.requests[t].repo, s.requests[t].pc;
    AdvanceShape(s, ttl, t);
    hide AdvanceRequest, HoldsSlot;
    if pc.Begin? && r !in s.running {
      ClaimKeeps(s, s', me, r);
    } else if pc.GiveBack? {
      ReleaseKeeps(s, s', me, r);
    } else {
      Untouched(s, s');
    }
  }

  lemma StartScanKeeps(s: State, ttl: nat, t: Tid)
    requires SlotInv(s) && Enabled(s, StartScan(t))
    ensures SlotInv(Next(s, ttl, StartScan(t)))
  {
    var s' := Next(s, ttl, StartScan(t));
    var r := s.requests[t].repo;
    assert Owns(s, Requester(t), r);
    assert t !in s.scans;
    assert forall x :: (Owns(s', Scanner(t), x) <==> x == r) && !Owns(s', Requester(t), x);
    assert forall q, x :: q != Scanner(t) && q != Requester(t) ==> (Owns(s', q, x) <==> Owns(s, q, x));
    forall x | x in s'.running ensures exists p :: Owns(s', p, x) {
      var p :| Owns(s, p, x);
      assert Owns(s', if p == Requester(t) then Scanner(t) else p, x);
    }
  }

  lemma EndScanKeeps(s: State, ttl: nat, t: Tid)
    requires SlotInv(s) && Enabled(s, EndScan(t))
    ensures SlotInv(Next(s, ttl, EndScan(t)))
  {
    var s' := Next(s, ttl, EndScan(t));
    assert Owns(s, Scanner(t), s.scans[t].repo);
    ReleaseKeeps(s, s', Scanner(t), s.scans[t].repo);
  }

  lemma ArriveKeeps(s: State, ttl: nat, t: Tid, repo: Repo)
    requires SlotInv(s) && Enabled(s, Arrive(t, repo))
    ensures SlotInv(Next(s, ttl, Arrive(t, repo)))
  {
    var s' := Next(s, ttl, Arrive(t, repo));
    assert forall r, p :: Owns(s', p, r) <==> Owns(s, p, r);
    Untouched(s, s');
  }

  /** A scan's own steps before its last leave it the owner of the same slot. */
  lemma ScanMoveKeeps(s: State, s': State, t: Tid, pc: ScanPC)
    requires SlotInv(s) && t in s.scans && s'.running == s.running && s'.requests == s.requests
    requires s'.scans == s.scans[t := s.scans[t].(pc := pc)]
    ensures SlotInv(s')
  {
    assert forall r, p :: Owns(s', p, r) <==> Owns(s, p, r);
    Untouched(s, s');
  }

  lemma ScannedKeeps(s: State, ttl: nat, l: Label)
    requires SlotInv(s) && Enabled(s, l) && (l.Scanned? || l.Write?)
    ensures SlotInv(Next(s, ttl, l))
  {
    hide SlotInv;
    var s' := Next(s, ttl, l);
    ScanMoveKeeps(s, s', l.t, s'.scans[l.t].pc);
  }

  /** What the environment does to the caches and the clock moves no owner. */
  lemma EnvironmentKeeps(s: State, s': State)
    requires SlotInv(s) && s'.running == s.running && s'.requests == s.requests && s'.scans == s.scans
    ensures SlotInv(s')
  {
    assert forall r, p :: Owns(s', p, r) <==> Owns(s, p, r);
    Untouched(s, s');
  }

  lemma StepKeeps(s: State, ttl: nat, l: Label)
    requires SlotInv(s) && Enabled(s, l)
    ensures SlotInv(Next(s, ttl, l))
  {
    hide SlotInv, AdvanceRequest, WriteScan;
    match l
    case Advance(t) => AdvanceKeeps(s, ttl, t);
    case StartScan(t) => StartScanKeeps(s, ttl, t);
    case EndScan(t) => EndScanKeeps(s, ttl, t);
    case Arrive(t, repo) => ArriveKeeps(s, ttl, t, repo);
    case Scanned(_, _) => ScannedKeeps(s, ttl, l);
    case Write(_, _) => ScannedKeeps(s, ttl, l);
    case _ => EnvironmentKeeps(s, Next(s, ttl, l));
  }

  lemma {:induction false} SlotInvariant(states: seq<State>, labels: seq<Label>, ttl: nat, k: nat)
    requires Run(states, labels, ttl) && k < |states|
    ensures SlotInv(states[k])
  {
    if k > 0 {
      SlotInvariant(states, labels, ttl, k - 1);
      StepKeeps(states[k - 1], ttl, labels[k - 1]);
    }
  }

  /** In every interleaving, at every moment: a repo is marked running exactly when one
      party holds its slot, and so at most one background scan of it exists. */
  lemma OneOwnerPerSlot(states: seq<State>, labels: seq<Label>, ttl: nat, k: nat, r: Repo)
    requires Run(states, labels, ttl) && k < |states|
    ensures r in states[k].running <==> exists p :: Owns(states[k], p, r)
    ensures forall p, q :: Owns(states[k], p, r) && Owns(states[k], q, r) ==> p == q
    ensures forall t, u :: Owns(states[k], Scanner(t), r) && Owns(states[k], Scanner(u), r) ==> t == u
  {
    SlotInvariant(states, labels, ttl, k);
  }

  // ---------------------------------------------------------------- no scan on top of a result

  /** A definitive result of r can be read from L1, or from L2. */
  predicate InL1(s: State, r: Repo) {
    r in s.l1
  }

  predicate InL2(s: State, ttl: nat, r: Repo) {
    L2View(s, ttl, r).Some?
  }

  /** No request for r has missed L1 in its re-check and still holds the slot. */
  predicate NonePastL1(s: State, r: Repo) {
    forall t :: t in s.requests && s.requests[t].repo == r ==> !s.requests[t].pc.ReReadL2? && !s.requests[t].pc.Launch?
  }

  predicate NonePastL2(s: State, r: Repo) {
    forall t :: t in s.requests && s.requests[t].repo == r ==> !s.requests[t].pc.Launch?
  }

  lemma FreeSlotNobodyInside(s: State, r: Repo)
    requires SlotInv(s) && r !in s.running
    ensures NonePastL1(s, r) && NonePastL2(s, r)
  {
    forall t | t in s.requests && s.requests[t].repo == r ensures !HoldsSlot(s.requests[t].pc) {
      if HoldsSlot(s.requests[t].pc) { assert Owns(s, Requester(t), r); }
    }
  }

  /** A re-check goes on to L2 only over an L1 miss, and to the launch only over an L2 miss. */
  lemma ReaderTurnsBack(s: State, ttl: nat, r: Repo, pc: RequestPC)
    ensures NextPC(s, ttl, r, pc).ReReadL2? ==> pc.ReReadL1? && !InL1(s, r)
    ensures NextPC(s, ttl, r, pc).Launch? && !pc.Launch? ==> pc.ReReadL2? && !InL2(s, ttl, r)
  {
    hide L2View;
  }

  /** Whatever happens, a request has newly missed L1 only if L1 held nothing. */
  lemma L1Step(s: State, ttl: nat, l: Label, r: Repo)
    requires Enabled(s, l) && NonePastL1(s, r) && InL1(s, r)
    ensures NonePastL1(Next(s, ttl, l), r)
  {
    hide NextPC, AdvanceRequest, InL1;
    match l
    case Advance(t) =>
      AdvanceShape(s, ttl, t);
      ReaderTurnsBack(s, ttl, s.requests[t].repo, s.requests[t].pc);
    case StartScan(t) =>
    case Arrive(t, _) =>
    case _ => assert Next(s, ttl, l).requests == s.requests;
  }

  /** And it has newly missed L2 only if it had missed L1 before and L2 shows nothing. */
  lemma L2Step(s: State, ttl: nat, l: Label, r: Repo)
    requires Enabled(s, l) && NonePastL2(s, r) && (NonePastL1(s, r) || InL2(s, ttl, r))
    ensures NonePastL2(Next(s, ttl, l), r)
  {
    hide NextPC, AdvanceRequest, InL2;
    match l
    case Advance(t) =>
      AdvanceShape(s, ttl, t);
      ReaderTurnsBack(s, ttl, s.requests[t].repo, s.requests[t].pc);
    case StartScan(t) =>
    case Arrive(t, _) =>
    case _ => assert Next(s, ttl, l).requests == s.requests;
  }

  /** L1 held no result of r at some moment from i on, before n. */
  ghost predicate MissedL1(states: seq<State>, i: nat, n: nat, r: Repo)
    requires n <= |states|
  {
    exists c :: i <= c < n && !InL1(states[c], r)
  }

  /** And at a later moment, still before n, L2 showed none. */
  ghost predicate MissedInTurn(states: seq<State>, ttl: nat, i: nat, n: nat, r: Repo)
    requires n <= |states|
  {
    exists c, d :: i <= c < d < n && !InL1(states[c], r) && !InL2(states[d], ttl, r)
  }

  lemma {:induction false} PastL1Missed(states: seq<State>, labels: seq<Label>, ttl: nat, i: nat, n: nat, r: Repo)
    requires Run(states, labels, ttl) && i <= n < |states| && NonePastL1(states[i], r)
    ensures NonePastL1(states[n], r) || MissedL1(states, i, n, r)
  {
    hide NonePastL1, InL1, Next;
    if i < n {
      PastL1Missed(states, labels, ttl, i, n - 1, r);
      if NonePastL1(states[n - 1], r) && InL1(states[n - 1], r) {
        L1Step(states[n - 1], ttl, labels[n - 1], r);
      }
    }
  }

  lemma {:induction false} PastL2Missed(states: seq<State>, labels: seq<Label>, ttl: nat, i: nat, n: nat, r: Repo)
    requires Run(states, labels, ttl) && i <= n < |states| && NonePastL1(states[i], r) && NonePastL2(states[i], r)
    ensures NonePastL2(states[n], r) || MissedInTurn(states, ttl, i, n, r)
  {
    hide NonePastL1, NonePastL2, InL1, InL2, Next;
    if i < n {
      PastL2Missed(states, labels, ttl, i, n - 1, r);
      PastL1Missed(states, labels, ttl, i, n - 1, r);
      if NonePastL2(states[n - 1], r) && (NonePastL1(states[n - 1], r) || InL2(states[n - 1], ttl, r)) {
        L2Step(states[n - 1], ttl, labels[n - 1], r);
      }
    }
  }

  /** What a launch needs, however the threads interleave: since any moment at which the slot of
      r was free, L1 has held no result of r, and later L2 has shown none. */
  lemma LaunchNeedsMisses(states: seq<State>, labels: seq<Label>, ttl: nat, i: nat, j: nat, r: Repo)
    requires Run(states, labels, ttl) && i <= j < |labels| && r !in states[i].running
    requires labels[j].StartScan? && labels[j].t in states[j].requests && states[j].requests[labels[j].t].repo == r
    ensures MissedInTurn(states, ttl, i, j, r)
  {
    SlotInvariant(states, labels, ttl, i);
    FreeSlotNobodyInside(states[i], r);
    assert Enabled(states[j], labels[j]);
    hide Next, SlotInv, NonePastL1, MissedInTurn;
    PastL2Missed(states, labels, ttl, i, j, r);
  }

  lemma EndingFreesSlot(states: seq<State>, labels: seq<Label>, ttl: nat, i: nat)
    requires Run(states, labels, ttl) && i < |labels| && labels[i].EndScan?
    ensures states[i].scans[labels[i].t].repo !in states[i + 1].running
  {
    assert states[i + 1] == Next(states[i], ttl, labels[i]);
  }

  /** r stays readable, from one cache or the other, from just after step i to step j. */
  ghost predicate StaysReadable(states: seq<State>, ttl: nat, i: nat, j: nat, r: Repo)
    requires j < |states|
  {
    || (forall k :: i < k <= j ==> InL1(states[k], r))
    || (forall k :: i < k <= j ==> InL2(states[k], ttl, r))
  }

  /** Once a background scan of r has ended, no request launches another one while one cache
      keeps a result of r readable. */
  lemma NoScanOverAResult(states: seq<State>, labels: seq<Label>, ttl: nat, i: nat, j: nat, r: Repo)
    requires Run(states, labels, ttl) && i < j < |labels|
    requires labels[i].EndScan? && states[i].scans[labels[i].t].repo == r
    requires StaysReadable(states, ttl, i, j, r)
    ensures !(labels[j].StartScan? && states[j].requests[labels[j].t].repo == r)
  {
    EndingFreesSlot(states, labels, ttl, i);
    assert Enabled(states[j], labels[j]);
    hide Next, InL1, InL2;
    if labels[j].StartScan? && states[j].requests[labels[j].t].repo == r {
      LaunchNeedsMisses(states, labels, ttl, i + 1, j, r);
    }
  }

  // ---------------------------------------------------------------- no slot is leaked

  /** How many more steps of its own the owner of a slot needs before it lets go. */
  function Rank(s: State, p: Party, r: Repo): nat
    requires Owns(s, p, r)
  {
    match p
    case Requester(t) =>
      (match s.requests[t].pc
       case ReReadL1 => 7 case ReReadL2 => 6 case Launch => 5 case ReWarmL1(_) => 2 case GiveBack(_) => 1 case _ => 0)
    case Scanner(t) =>
      (match s.scans[t].pc case Scanning => 4 case PutL1(_) => 3 case PutL2(_) => 2 case Finish => 1)
  }

  /** A step taken by p itself, whatever its scan or its writes return. */
  predicate OwnLabel(p: Party, l: Label) {
    match p
    case Requester(t) => l == Advance(t) || l == StartScan(t)
    case Scanner(t) => (l.EndScan? && l.t == t) || (l.Scanned? && l.t == t) || (l.Write? && l.t == t)
  }

  /** The owner after p moves: a launch hands the slot to the scan. */
  function Heir(s: State, p: Party): Party {
    match p
    case Requester(t) => if t in s.requests && s.requests[t].pc.Launch? then Scanner(t) else p
    case Scanner(_) => p
  }

  /** Each step of the owner frees the slot or brings it strictly closer to being freed. */
  lemma OwnStepProgresses(s: State, ttl: nat, p: Party, r: Repo, l: Label)
    requires Owns(s, p, r) && Enabled(s, l) && OwnLabel(p, l)
    ensures var s' := Next(s, ttl, l);
            r !in s'.running || (Owns(s', Heir(s, p), r) && Rank(s', Heir(s, p), r) < Rank(s, p, r))
  {
    match p
    case Requester(t) => RequesterProgresses(s, ttl, t, r, l);
    case Scanner(t) => ScannerProgresses(s, ttl, t, r, l);
  }

  lemma RequesterProgresses(s: State, ttl: nat, t: Tid, r: Repo, l: Label)
    requires Owns(s, Requester(t), r) && Enabled(s, l) && OwnLabel(Requester(t), l)
    ensures var s', p := Next(s, ttl, l), Heir(s, Requester(t));
            r !in s'.running || (Owns(s', p, r) && Rank(s', p, r) < Rank(s, Requester(t), r))
  {
    if l.Advance? {
      AdvanceShape(s, ttl, t);
      hide L2View, AdvanceRequest;
    }
  }

  lemma ScannerProgresses(s: State, ttl: nat, t: Tid, r: Repo, l: Label)
    requires Owns(s, Scanner(t), r) && Enabled(s, l) && OwnLabel(Scanner(t), l)
    ensures var s' := Next(s, ttl, l);
            r !in s'.running || (Owns(s', Scanner(t), r) && Rank(s', Scanner(t), r) < Rank(s, Scanner(t), r))
  {
  }

  /** Nobody else can set an owner back. */
  lemma OthersDoNotInterfere(s: State, ttl: nat, p: Party, r: Repo, l: Label)
    requires SlotInv(s) && Owns(s, p, r) && Enabled(s, l) && !OwnLabel(p, l)
    ensures Owns(Next(s, ttl, l), p, r) && Rank(Next(s, ttl, l), p, r) == Rank(s, p, r)
  {
    var s' := Next(s, ttl, l);
    match p
    case Requester(t) => assert t in s'.requests && s'.requests[t] == s.requests[t] by { RequestKept(s, ttl, t, l); }
    case Scanner(t) =>
      ScanKept(s, ttl, t, l);
  }

  lemma RequestKept(s: State, ttl: nat, t: Tid, l: Label)
    requires t in s.requests && Enabled(s, l) && !OwnLabel(Requester(t), l)
    ensures t in Next(s, ttl, l).requests && Next(s, ttl, l).requests[t] == s.requests[t]
  {
    hide L2View, AdvanceRequest;
    if l.Advance? { AdvanceShape(s, ttl, l.t); }
  }

  lemma ScanKept(s: State, ttl: nat, t: Tid, l: Label)
    requires t in s.scans && Enabled(s, l) && !OwnLabel(Scanner(t), l)
    requires t in s.requests ==> s.requests[t].pc.Returned?
    ensures t in Next(s, ttl, l).scans && Next(s, ttl, l).scans[t] == s.scans[t]
  {
    hide L2View, AdvanceRequest;
    if l.Advance? { AdvanceShape(s, ttl, l.t); }
  }

  /** An owner always has a step to take. */
  function OwnStep(s: State, p: Party, r: Repo): (l: Label)
    requires Owns(s, p, r)
    ensures Enabled(s, l) && OwnLabel(p, l)
  {
    match p
    case Requester(t) => if s.requests[t].pc.Launch? then StartScan(t) else Advance(t)
    case Scanner(t) =>
      (match s.scans[t].pc
       case Scanning => Scanned(t, Transient) case PutL1(_) => Write(t, false) case PutL2(_) => Write(t, false)
       case Finish => EndScan(t))
  }

  ghost function RunFrom(s: State, ttl: nat, labels: seq<Label>): (r: Option<State>)
    decreases |labels|
  {
    if labels == [] then Some(s)
    else if !Enabled(s, labels[0]) then None
    else RunFrom(Next(s, ttl, labels[0]), ttl, labels[1..])
  }

  /** Every label is a step of the party that owns the slot when it is taken. */
  ghost predicate OwnRun(s: State, ttl: nat, p: Party, labels: seq<Label>)
    decreases |labels|
  {
    labels == [] ||
    (Enabled(s, labels[0]) && OwnLabel(p, labels[0]) && OwnRun(Next(s, ttl, labels[0]), ttl, Heir(s, p), labels[1..]))
  }

  /** From any state the owner alone can free its slot, in no more steps than its rank. */
  lemma {:induction false} OwnerFinishes(s: State, ttl: nat, p: Party, r: Repo) returns (labels: seq<Label>)
    requires SlotInv(s) && Owns(s, p, r)
    ensures OwnRun(s, ttl, p, labels)
    ensures RunFrom(s, ttl, labels).Some? && r !in RunFrom(s, ttl, labels).value.running
    ensures |labels| <= Rank(s, p, r)
    decreases Rank(s, p, r)
  {
    hide Next, SlotInv;
    var l := OwnStep(s, p, r);
    var s' := Next(s, ttl, l);
    OwnStepProgresses(s, ttl, p, r, l);
    StepKeeps(s, ttl, l);
    if r !in s'.running {
      labels := [l];
      assert labels[1..] == [];
      assert RunFrom(s', ttl, []) == Some(s');
      RankPositive(s, p, r);
    } else {
      var rest := OwnerFinishes(s', ttl, Heir(s, p), r);
      labels := [l] + rest;
      assert labels[1..] == rest;
    }
  }

  lemma RankPositive(s: State, p: Party, r: Repo)
    requires Owns(s, p, r)
    ensures Rank(s, p, r) > 0
  {
  }

  /** Whether step x of a run is taken by the party that then owns r's slot. */
  ghost predicate StepByOwner(states: seq<State>, labels: seq<Label>, r: Repo, x: nat)
    requires x < |labels| && |states| == |labels| + 1
  {
    exists p :: Owns(states[x], p, r) && OwnLabel(p, labels[x])
  }

  /** How many steps from k up to n the successive owners of r's slot take. */
  ghost function OwnerSteps(states: seq<State>, labels: seq<Label>, r: Repo, k: nat, n: nat): nat
    requires k <= n <= |labels| && |states| == |labels| + 1
    decreases n
  {
    if k == n then 0
    else OwnerSteps(states, labels, r, k, n - 1) + if StepByOwner(states, labels, r, n - 1) then 1 else 0
  }

  /** One step of a run, by whoever takes it: the slot is freed, or it still has an owner, whose
      rank is lower if the step was the owner's own and not higher otherwise. */
  lemma RankStep(s: State, ttl: nat, p: Party, r: Repo, l: Label)
    requires SlotInv(s) && Owns(s, p, r) && Enabled(s, l)
    ensures var s' := Next(s, ttl, l);
            r !in s'.running ||
            (exists q :: Owns(s', q, r) && Rank(s', q, r) + (if OwnLabel(p, l) then 1 else 0) <= Rank(s, p, r))
  {
    hide Next, SlotInv;
    var s' := Next(s, ttl, l);
    if OwnLabel(p, l) {
      OwnStepProgresses(s, ttl, p, r, l);
      if r in s'.running { assert Owns(s', Heir(s, p), r); }
    } else {
      OthersDoNotInterfere(s, ttl, p, r, l);
      assert Owns(s', p, r);
    }
  }

  /** While r stays marked, the owners' steps and the rank left over never exceed the rank there
      was. */
  lemma {:induction false} RankBudget(states: seq<State>, labels: seq<Label>, ttl: nat, k: nat, n: nat, r: Repo,
      p: Party)
    returns (q: Party)
    requires Run(states, labels, ttl) && k <= n < |states| && Owns(states[k], p, r)
    requires forall x :: k <= x <= n ==> r in states[x].running
    ensures Owns(states[n], q, r)
            && OwnerSteps(states, labels, r, k, n) + Rank(states[n], q, r) <= Rank(states[k], p, r)
  {
    if k == n {
      q := p;
    } else {
      hide Next, SlotInv, Rank, Owns, OwnLabel;
      var o := RankBudget(states, labels, ttl, k, n - 1, r, p);
      OneOwnerPerSlot(states, labels, ttl, n - 1, r);
      SlotInvariant(states, labels, ttl, n - 1);
      RankStep(states[n - 1], ttl, o, r, labels[n - 1]);
      assert StepByOwner(states, labels, r, n - 1) ==> OwnLabel(o, labels[n - 1]);
      assert r in states[n].running;
      q :| Owns(states[n], q, r) &&
           Rank(states[n], q, r) + (if OwnLabel(o, labels[n - 1]) then 1 else 0) <= Rank(states[n - 1], o, r);
    }
  }

  /** No run leaks a slot. From any moment at which r is marked: once its successive owners have
      taken as many steps as the owner's rank, which is at most seven, r has been free at some
      moment since, whatever everybody else did in between. And such steps always exist. */
  lemma NoLeak(states: seq<State>, labels: seq<Label>, ttl: nat, k: nat, n: nat, r: Repo, p: Party)
    returns (more: seq<Label>)
    requires Run(states, labels, ttl) && k <= n < |states| && Owns(states[k], p, r)
    ensures Rank(states[k], p, r) <= 7
    ensures OwnerSteps(states, labels, r, k, n) >= Rank(states[k], p, r) ==>
              exists x :: k <= x <= n && r !in states[x].running
    ensures OwnRun(states[k], ttl, p, more) && |more| <= Rank(states[k], p, r)
    ensures RunFrom(states[k], ttl, more).Some? && r !in RunFrom(states[k], ttl, more).value.running
  {
    SlotInvariant(states, labels, ttl, k);
    more := OwnerFinishes(states[k], ttl, p, r);
    if forall x :: k <= x <= n ==> r in states[x].running {
      var q := RankBudget(states, labels, ttl, k, n, r, p);
      RankPositive(states[n], q, r);
    }
    hide Next, SlotInv, RunFrom, OwnRun, OwnerSteps, Owns;
  }

  // ---------------------------------------------------------------- why readability is per cache

  /** Some cache holds a result of r. */
  predicate SomewhereReadable(s: State, ttl: nat, r: Repo) {
    InL1(s, r) || InL2(s, ttl, r)
  }

  /** The schedule that reads each cache while only the other holds the result, in five parts:
      the first look at L1, at L2, the claim, and the re-check of L1 and of L2. */
  function LaunchNow(t: Tid): seq<Label> {
    [StartScan(t)]
  }

  function RecheckL2(t: Tid, r: Repo, sc: int): seq<Label> {
    [ScanOutsideSlot(r, Some(sc))] + ([L2Outage] + ([Advance(t)] + LaunchNow(t)))
  }

  function RecheckL1(t: Tid, r: Repo, sc: int): seq<Label> {
    [L2Recovery] + ([DropL1(r)] + ([Advance(t)] + RecheckL2(t, r, sc)))
  }

  function LookInL2(t: Tid, r: Repo, sc: int): seq<Label> {
    [ScanOutsideSlot(r, Some(sc))] + ([L2Outage] + ([Advance(t)] + ([Advance(t)] + RecheckL1(t, r, sc))))
  }

  function Alternation(t: Tid, r: Repo, sc: int): seq<Label> {
    [DropL1(r)] + ([Arrive(t, r)] + ([Advance(t)] + LookInL2(t, r, sc)))
  }

  /** Every state on the way holds a result somewhere, and every step can be taken. */
  ghost predicate ReadableAlong(s: State, ttl: nat, r: Repo, labels: seq<Label>)
    decreases |labels|
  {
    SomewhereReadable(s, ttl, r) &&
    (labels == [] || (Enabled(s, labels[0]) && ReadableAlong(Next(s, ttl, labels[0]), ttl, r, labels[1..])))
  }

  lemma AlongStep(s: State, ttl: nat, r: Repo, l: Label, rest: seq<Label>)
    requires SomewhereReadable(s, ttl, r) && Enabled(s, l) && ReadableAlong(Next(s, ttl, l), ttl, r, rest)
    ensures ReadableAlong(s, ttl, r, [l] + rest)
  {
    assert ([l] + rest)[1..] == rest;
    hide SomewhereReadable, Next;
  }

  predicate AtPC(s: State, t: Tid, r: Repo, pc: RequestPC) {
    t in s.requests && s.requests[t] == Request(r, pc)
  }

  /** The L2 row of r is there and fresh, whether or not L2 can be reached. */
  predicate Stored(s: State, ttl: nat, r: Repo) {
    r in s.l2 && !L2Stale(ttl, s.l2[r], s.now)
  }

  lemma LaunchReadable(s: State, ttl: nat, t: Tid, r: Repo)
    requires AtPC(s, t, r, Launch) && InL1(s, r)
    ensures ReadableAlong(s, ttl, r, LaunchNow(t))
  {
    var s1 := Next(s, ttl, StartScan(t));
    assert InL1(s1, r);
    assert ReadableAlong(s1, ttl, r, []);
    AlongStep(s, ttl, r, StartScan(t), []);
    assert [StartScan(t)] + [] == LaunchNow(t);
  }

  /** The request at t has read L2 in vain, and only L1 can be read now. */
  predicate Missed(s: State, s': State, ttl: nat, t: Tid, r: Repo)
    requires t in s.requests
  {
    && InL1(s', r) && Stored(s', ttl, r) && !s'.l2Up && s'.running == s.running && s'.scans == s.scans
    && AtPC(s', t, r, if s.requests[t].pc.ReadL2? then Begin else Launch)
  }

  /** Three moves: the environment makes L1 the only holder, and the request reads L2. */
  lemma MissL2(s: State, ttl: nat, t: Tid, r: Repo, sc: int, rest: seq<Label>)
    requires (AtPC(s, t, r, ReadL2) || AtPC(s, t, r, ReReadL2)) && Stored(s, ttl, r) && s.l2Up
    requires forall s' :: Missed(s, s', ttl, t, r) ==> ReadableAlong(s', ttl, r, rest)
    ensures ReadableAlong(s, ttl, r, [ScanOutsideSlot(r, Some(sc))] + ([L2Outage] + ([Advance(t)] + rest)))
  {
    hide ReadableAlong;
    var s1 := Next(s, ttl, ScanOutsideSlot(r, Some(sc)));
    var s2 := Next(s1, ttl, L2Outage);
    var s3 := Next(s2, ttl, Advance(t));
    AlongStep(s2, ttl, r, Advance(t), rest);
    AlongStep(s1, ttl, r, L2Outage, [Advance(t)] + rest);
    AlongStep(s, ttl, r, ScanOutsideSlot(r, Some(sc)), [L2Outage] + ([Advance(t)] + rest));
  }

  lemma RecheckL2Readable(s: State, ttl: nat, t: Tid, r: Repo, sc: int)
    requires AtPC(s, t, r, ReReadL2) && Stored(s, ttl, r) && s.l2Up
    ensures ReadableAlong(s, ttl, r, RecheckL2(t, r, sc))
  {
    hide ReadableAlong, LaunchNow;
    forall s' | AtPC(s', t, r, Launch) && InL1(s', r) ensures ReadableAlong(s', ttl, r, LaunchNow(t)) {
      LaunchReadable(s', ttl, t, r);
    }
    MissL2(s, ttl, t, r, sc, LaunchNow(t));
  }

  lemma RecheckL1Readable(s: State, ttl: nat, t: Tid, r: Repo, sc: int)
    requires AtPC(s, t, r, ReReadL1) && InL1(s, r) && Stored(s, ttl, r)
    ensures ReadableAlong(s, ttl, r, RecheckL1(t, r, sc))
  {
    hide ReadableAlong, RecheckL2;
    var s1 := Next(s, ttl, L2Recovery);
    var s2 := Next(s1, ttl, DropL1(r));
    var s3 := Next(s2, ttl, Advance(t));
    var rest := RecheckL2(t, r, sc);
    RecheckL2Readable(s3, ttl, t, r, sc);
    AlongStep(s2, ttl, r, Advance(t), rest);
    AlongStep(s1, ttl, r, DropL1(r), [Advance(t)] + rest);
    AlongStep(s, ttl, r, L2Recovery, [DropL1(r)] + ([Advance(t)] + rest));
  }

  lemma ClaimReadable(s: State, ttl: nat, t: Tid, r: Repo, sc: int)
    requires AtPC(s, t, r, Begin) && InL1(s, r) && Stored(s, ttl, r) && r !in s.running
    ensures ReadableAlong(s, ttl, r, [Advance(t)] + RecheckL1(t, r, sc))
  {
    hide ReadableAlong, RecheckL1;
    var s1 := Next(s, ttl, Advance(t));
    RecheckL1Readable(s1, ttl, t, r, sc);
    AlongStep(s, ttl, r, Advance(t), RecheckL1(t, r, sc));
  }

  lemma LookInL2Readable(s: State, ttl: nat, t: Tid, r: Repo, sc: int)
    requires AtPC(s, t, r, ReadL2) && Stored(s, ttl, r) && s.l2Up && r !in s.running
    ensures ReadableAlong(s, ttl, r, LookInL2(t, r, sc))
  {
    hide ReadableAlong, RecheckL1;
    var rest := [Advance(t)] + RecheckL1(t, r, sc);
    forall s' | AtPC(s', t, r, Begin) && InL1(s', r) && Stored(s', ttl, r) && s'.running == s.running
      ensures ReadableAlong(s', ttl, r, rest) {
      ClaimReadable(s', ttl, t, r, sc);
    }
    MissL2(s, ttl, t, r, sc, rest);
  }

  /** Why the result must stay in one cache: from any state with r's slot free and its result in
      L2, this schedule ends by launching another scan of r although some cache holds a result
      of r at every single moment. */
  lemma ReadableSomewhereIsNotEnough(s: State, ttl: nat, t: Tid, r: Repo, sc: int)
    requires r !in s.running && t !in s.requests && t !in s.scans && InL2(s, ttl, r)
    ensures ReadableAlong(s, ttl, r, Alternation(t, r, sc))
    ensures var labels := Alternation(t, r, sc); labels[|labels| - 1] == StartScan(t) && labels[1] == Arrive(t, r)
  {
    hide ReadableAlong, LookInL2;
    var s1 := Next(s, ttl, DropL1(r));
    var s2 := Next(s1, ttl, Arrive(t, r));
    var s3 := Next(s2, ttl, Advance(t));
    var rest := LookInL2(t, r, sc);
    LookInL2Readable(s3, ttl, t, r, sc);
    AlongStep(s2, ttl, r, Advance(t), rest);
    AlongStep(s1, ttl, r, Arrive(t, r), [Advance(t)] + rest);
    AlongStep(s, ttl, r, DropL1(r), [Arrive(t, r)] + ([Advance(t)] + rest));
    AlternationEnds(t, r, sc);
  }

  lemma AlternationEnds(t: Tid, r: Repo, sc: int)
    ensures var labels := Alternation(t, r, sc); labels[|labels| - 1] == StartScan(t) && labels[1] == Arrive(t, r)
  {
  }
}
