/** firewall.go, what a background scan leaves behind and what a request answers: in every run,
    by whoever's steps come in between. */
module ScanResults {
  import opened GoStrings
  import opened ScanSlot

  // ---------------------------------------------------------------- what a scan records

  /** What one step does to the caches: a score put in L1, a row stored in L2, or nothing. */
  predicate PutsL1(s: State, s': State, r: Repo, sc: int) {
    s'.l1 == s.l1[r := sc] && s'.l2 == s.l2
  }

  /** A failed write to L2 leaves it as it was. */
  predicate PutsL2(s: State, s': State, ok: bool, r: Repo, score: Option<int>) {
    s'.l1 == s.l1 && s'.l2 == if ok then s.l2[r := Row(score, Some(s.now))] else s.l2
  }

  predicate LeavesCaches(s: State, s': State) {
    s'.l1 == s.l1 && s'.l2 == s.l2
  }

  predicate IsWrite(l: Label, t: Tid) {
    l.Write? && l.t == t
  }

  /** The steps after i and before n at which scan t writes. */
  function WritesOf(labels: seq<Label>, t: Tid, i: nat, n: nat): (r: seq<nat>)
    requires i < n <= |labels|
    ensures forall k :: 0 <= k < |r| ==> i < r[k] < n && IsWrite(labels[r[k]], t)
  {
    if n == i + 1 then []
    else WritesOf(labels, t, i, n - 1) + if IsWrite(labels[n - 1], t) then [n - 1] else []
  }

  /** The writes a scan that reported this result makes, in order, and where it is after them. */
  ghost predicate Recorded(states: seq<State>, labels: seq<Label>, r: Repo, result: ScanResult, ws: seq<nat>,
      pc: ScanPC)
    requires |states| == |labels| + 1 && forall k :: 0 <= k < |ws| ==> ws[k] < |labels| && labels[ws[k]].Write?
  {
    match result
    case Scored(sc) =>
      && (|ws| >= 1 ==> PutsL1(states[ws[0]], states[ws[0] + 1], r, sc))
      && (|ws| >= 2 ==> PutsL2(states[ws[1]], states[ws[1] + 1], labels[ws[1]].ok, r, Some(sc)))
      && (|ws| >= 2 && labels[ws[1]].ok ==> states[ws[1]].l2Up)
      && pc == (match |ws| case 0 => PutL1(sc) case 1 => PutL2(Some(sc)) case _ => Finish) && |ws| <= 2
    case NoScore =>
      && (|ws| >= 1 ==> PutsL2(states[ws[0]], states[ws[0] + 1], labels[ws[0]].ok, r, None))
      && (|ws| >= 1 && labels[ws[0]].ok ==> states[ws[0]].l2Up)
      && pc == (if |ws| == 0 then PutL2(None) else Finish) && |ws| <= 1
    case Transient => ws == [] && pc == Finish
  }

  lemma ReportStep(s: State, ttl: nat, t: Tid, result: ScanResult)
    requires Enabled(s, Scanned(t, result))
    ensures var s' := Next(s, ttl, Scanned(t, result));
            && LeavesCaches(s, s') && t in s'.scans && s'.scans[t].repo == s.scans[t].repo
            && s'.scans[t].pc ==
                 match result case Scored(sc) => PutL1(sc) case NoScore => PutL2(None) case Transient => Finish
  {
  }

  lemma WriteStep(s: State, ttl: nat, t: Tid, ok: bool)
    requires Enabled(s, Write(t, ok))
    ensures var s', r := Next(s, ttl, Write(t, ok)), s.scans[t].repo;
            && t in s'.scans && s'.scans[t].repo == r
            && match s.scans[t].pc
               case PutL1(sc) => PutsL1(s, s', r, sc) && s'.scans[t].pc == PutL2(Some(sc))
               case PutL2(score) => PutsL2(s, s', ok, r, score) && s'.scans[t].pc == Finish && (ok ==> s.l2Up)
               case _ => false
  {
  }

  lemma WritesOfStep(labels: seq<Label>, t: Tid, i: nat, n: nat)
    requires i + 1 < n <= |labels|
    ensures WritesOf(labels, t, i, n) ==
            WritesOf(labels, t, i, n - 1) + if IsWrite(labels[n - 1], t) then [n - 1] else []
  {
  }

  lemma RecordedStep(states: seq<State>, labels: seq<Label>, ttl: nat, r: Repo, t: Tid, result: ScanResult,
      ws: seq<nat>, n: nat)
    requires Run(states, labels, ttl) && n < |labels| && IsWrite(labels[n], t) && Enabled(states[n], labels[n])
    requires forall k :: 0 <= k < |ws| ==> ws[k] < n && labels[ws[k]].Write?
    requires states[n].scans[t].repo == r && Recorded(states, labels, r, result, ws, states[n].scans[t].pc)
    ensures t in states[n + 1].scans && states[n + 1].scans[t].repo == r
    ensures Recorded(states, labels, r, result, ws + [n], states[n + 1].scans[t].pc)
  {
    WriteStep(states[n], ttl, t, labels[n].ok);
    hide Next, PutsL1, PutsL2;
  }

  /** The steps of scan t from its report on, whoever's come in between. */
  lemma {:induction false} ScanProgress(states: seq<State>, labels: seq<Label>, ttl: nat, i: nat, n: nat, t: Tid)
    requires Run(states, labels, ttl) && i < n <= |labels| && labels[i].Scanned? && labels[i].t == t
    requires forall x :: i < x < n ==> labels[x] != EndScan(t)
    ensures t in states[i].scans && t in states[n].scans && states[n].scans[t].repo == states[i].scans[t].repo
    ensures Recorded(states, labels, states[i].scans[t].repo, labels[i].result, WritesOf(labels, t, i, n),
                     states[n].scans[t].pc)
  {
    hide Next, Recorded, WritesOf;
    var r, result := states[i].scans[t].repo, labels[i].result;
    assert Enabled(states[i], labels[i]);
    if n == i + 1 {
      ReportStep(states[i], ttl, t, result);
      NothingWritten(states, labels, r, result, t, i, states[n].scans[t].pc);
    } else {
      ScanProgress(states, labels, ttl, i, n - 1, t);
      WritesOfStep(labels, t, i, n);
      assert Enabled(states[n - 1], labels[n - 1]);
      if IsWrite(labels[n - 1], t) {
        RecordedStep(states, labels, ttl, r, t, result, WritesOf(labels, t, i, n - 1), n - 1);
      } else {
        PastReport(states, labels, r, result, WritesOf(labels, t, i, n - 1), states[n - 1].scans[t].pc);
        SlotInvariant(states, labels, ttl, n - 1);
        ScanKept(states[n - 1], ttl, t, labels[n - 1]);
        assert WritesOf(labels, t, i, n) == WritesOf(labels, t, i, n - 1);
      }
    }
  }

  lemma NothingWritten(states: seq<State>, labels: seq<Label>, r: Repo, result: ScanResult, t: Tid, i: nat, pc: ScanPC)
    requires |states| == |labels| + 1 && i < |labels|
    requires pc == match result case Scored(sc) => PutL1(sc) case NoScore => PutL2(None) case Transient => Finish
    ensures Recorded(states, labels, r, result, WritesOf(labels, t, i, i + 1), pc)
  {
  }

  lemma PastReport(states: seq<State>, labels: seq<Label>, r: Repo, result: ScanResult, ws: seq<nat>, pc: ScanPC)
    requires |states| == |labels| + 1 && forall k :: 0 <= k < |ws| ==> ws[k] < |labels| && labels[ws[k]].Write?
    requires Recorded(states, labels, r, result, ws, pc)
    ensures !pc.Scanning?
  {
    hide PutsL1, PutsL2;
  }

  /** In every run, a background scan that ends has recorded exactly what it found. With a score
      it wrote twice, the score in L1 and then, stamped with the time of that write, in L2; without
      one it wrote once, the negative marker in L2, and left L1 alone; after a transient failure it
      wrote nothing. A write to L2 that fails leaves L2 as it was. Nothing else it does touches a
      cache. */
  lemma ScanRecords(states: seq<State>, labels: seq<Label>, ttl: nat, i: nat, j: nat, t: Tid)
    requires Run(states, labels, ttl) && i < j < |labels| && labels[i].Scanned? && labels[i].t == t
    requires labels[j] == EndScan(t) && forall x :: i < x < j ==> labels[x] != EndScan(t)
    ensures LeavesCaches(states[i], states[i + 1]) && LeavesCaches(states[j], states[j + 1])
    ensures t in states[i].scans
    ensures var ws, r := WritesOf(labels, t, i, j), states[i].scans[t].repo;
            match labels[i].result
            case Scored(sc) =>
              && |ws| == 2 && PutsL1(states[ws[0]], states[ws[0] + 1], r, sc)
              && PutsL2(states[ws[1]], states[ws[1] + 1], labels[ws[1]].ok, r, Some(sc))
              && (labels[ws[1]].ok ==> states[ws[1]].l2Up)
            case NoScore =>
              && |ws| == 1 && PutsL2(states[ws[0]], states[ws[0] + 1], labels[ws[0]].ok, r, None)
              && (labels[ws[0]].ok ==> states[ws[0]].l2Up)
            case Transient => ws == []
  {
    ScanProgress(states, labels, ttl, i, j, t);
    assert Enabled(states[i], labels[i]) && Enabled(states[j], labels[j]);
    ReportStep(states[i], ttl, t, labels[i].result);
    assert states[j + 1] == Next(states[j], ttl, labels[j]) && LeavesCaches(states[j], states[j + 1]);
    hide Next, PutsL1, PutsL2, WritesOf;
  }

  // ---------------------------------------------------------------- what a request answers

  /** A row is trusted while the freshness limit is off, the row carries no stamp, or the limit
      has not passed since. */
  predicate Trusted(row: Row, ttl: nat, now: nat) {
    ttl == 0 || row.updatedAt.None? || now <= row.updatedAt.value + ttl
  }

  /** The answer the cache that a request reads next holds. */
  function Held(s: State, ttl: nat, r: Repo, pc: RequestPC): Option<Outcome> {
    if pc.ReadL1? || pc.ReReadL1? then
      if r in s.l1 then Some(Ready(s.l1[r])) else None
    else if pc.ReadL2? || pc.ReReadL2? then
      if s.l2Up && r in s.l2 && Trusted(s.l2[r], ttl, s.now) then
        Some(if s.l2[r].score.Some? then Ready(s.l2[r].score.value) else Unscorable)
      else None
    else None
  }

  /** The row of L2 a request sees is the one it may trust. */
  lemma SeenIsTrusted(s: State, ttl: nat, r: Repo)
    ensures InL2(s, ttl, r) <==> s.l2Up && r in s.l2 && Trusted(s.l2[r], ttl, s.now)
    ensures InL2(s, ttl, r) ==> L2View(s, ttl, r).value == s.l2[r]
  {
  }

  /** A request that is only carrying this answer home. */
  predicate Carries(pc: RequestPC, o: Outcome) {
    match pc
    case WarmL1(sc) => o == Ready(sc)
    case ReWarmL1(sc) => o == Ready(sc)
    case GiveBack(x) => o == x
    case Returned(x) => o == x
    case _ => false
  }

  predicate Warming(pc: RequestPC) {
    pc.WarmL1? || pc.ReWarmL1?
  }

  /** One step of a request: it takes the answer that is held, and goes on when none is. */
  lemma ReadStep(s: State, ttl: nat, r: Repo, pc: RequestPC)
    ensures var pc', held := NextPC(s, ttl, r, pc), Held(s, ttl, r, pc);
            && (held.Some? ==> Carries(pc', held.value))
            && (held.Some? && (pc.ReadL2? || pc.ReReadL2?) && held.value.Ready? ==> Warming(pc'))
            && (forall o :: Carries(pc, o) && !pc.Returned? ==> Carries(pc', o) && !Warming(pc'))
            && (forall o :: Carries(pc', o) ==>
                  (Carries(pc, o) || held == Some(o) || (o == Pending && pc.Begin? && r in s.running)))
  {
    SeenIsTrusted(s, ttl, r);
    hide L2View;
  }

  lemma WarmStep(s: State, ttl: nat, t: Tid, sc: int)
    requires t in s.requests && Warming(s.requests[t].pc) && Carries(s.requests[t].pc, Ready(sc))
    ensures PutsL1(s, Next(s, ttl, Advance(t)), s.requests[t].repo, sc)
  {
  }

  /** Request t takes step k and reads this answer there. */
  predicate ReadsAt(states: seq<State>, labels: seq<Label>, ttl: nat, k: nat, t: Tid, o: Outcome)
    requires |states| == |labels| + 1
  {
    && k < |labels| && labels[k] == Advance(t) && t in states[k].requests
    && Held(states[k], ttl, states[k].requests[t].repo, states[k].requests[t].pc) == Some(o)
  }

  /** Request t stores the score in L1 at a step after k and before n. */
  ghost predicate Warmed(states: seq<State>, labels: seq<Label>, k: nat, n: nat, t: Tid, r: Repo, sc: int)
    requires n < |states| == |labels| + 1
  {
    exists m :: k < m < n && labels[m] == Advance(t) && PutsL1(states[m], states[m + 1], r, sc)
  }

  ghost predicate CarriesHome(states: seq<State>, labels: seq<Label>, k: nat, n: nat, t: Tid, o: Outcome)
    requires k < n < |states| == |labels| + 1 && t in states[k].requests
  {
    && t in states[n].requests && states[n].requests[t].repo == states[k].requests[t].repo
    && Carries(states[n].requests[t].pc, o)
    && (o.Ready? && (states[k].requests[t].pc.ReadL2? || states[k].requests[t].pc.ReReadL2?) ==>
          Warming(states[n].requests[t].pc) || Warmed(states, labels, k, n, t, states[k].requests[t].repo, o.score))
  }

  lemma AdvanceIs(s: State, ttl: nat, t: Tid)
    requires Enabled(s, Advance(t))
    ensures var s', Request(r, pc) := Next(s, ttl, Advance(t)), s.requests[t];
            t in s'.requests && s'.requests[t] == Request(r, NextPC(s, ttl, r, pc))
  {
    AdvanceShape(s, ttl, t);
    hide NextPC, AdvanceRequest;
  }

  lemma CarriesOn(states: seq<State>, labels: seq<Label>, ttl: nat, k: nat, n: nat, t: Tid, o: Outcome)
    requires Run(states, labels, ttl) && k < n < |labels| && t in states[k].requests
    requires CarriesHome(states, labels, k, n, t, o)
    ensures CarriesHome(states, labels, k, n + 1, t, o)
  {
    var s, l := states[n], labels[n];
    assert Enabled(s, l) && states[n + 1] == Next(s, ttl, l);
    if l == Advance(t) {
      AdvanceIs(s, ttl, t);
      ReadStep(s, ttl, s.requests[t].repo, s.requests[t].pc);
      if Warming(s.requests[t].pc) { WarmStep(s, ttl, t, o.score); }
    } else if l == StartScan(t) {
      assert false;
    } else {
      RequestKept(s, ttl, t, l);
    }
    hide Next, NextPC, PutsL1, Warming, Held, Enabled;
  }

  lemma {:induction false} CarriedRun(states: seq<State>, labels: seq<Label>, ttl: nat, k: nat, n: nat, t: Tid,
      o: Outcome)
    requires Run(states, labels, ttl) && k < n < |states| && ReadsAt(states, labels, ttl, k, t, o)
    ensures CarriesHome(states, labels, k, n, t, o)
  {
    if n == k + 1 {
      var s := states[k];
      assert Enabled(s, labels[k]) && states[n] == Next(s, ttl, labels[k]);
      AdvanceIs(s, ttl, t);
      ReadStep(s, ttl, s.requests[t].repo, s.requests[t].pc);
      hide Next, NextPC, PutsL1, Warming;
    } else {
      hide CarriesHome, ReadsAt, Next;
      CarriedRun(states, labels, ttl, k, n - 1, t, o);
      KnownRequest(states, labels, ttl, k, t, o);
      CarriesOn(states, labels, ttl, k, n - 1, t, o);
    }
  }

  lemma KnownRequest(states: seq<State>, labels: seq<Label>, ttl: nat, k: nat, t: Tid, o: Outcome)
    requires |states| == |labels| + 1 && ReadsAt(states, labels, ttl, k, t, o)
    ensures t in states[k].requests
  {
  }

  /** In every run: a request that reads a cache holding an answer launches no scan and returns
      that answer, the score or the negative marker; and a score it found in L2 it has put in L1
      by then. */
  lemma HeldIsReturned(states: seq<State>, labels: seq<Label>, ttl: nat, k: nat, n: nat, t: Tid, o: Outcome)
    requires Run(states, labels, ttl) && k < n < |states| && ReadsAt(states, labels, ttl, k, t, o)
    ensures t in states[n].requests && (n < |labels| ==> labels[n] != StartScan(t))
    ensures states[n].requests[t].pc.Returned? ==> states[n].requests[t].pc.outcome == o
    ensures states[n].requests[t].pc.Returned? && o.Ready? && states[k].requests[t].pc in {ReadL2, ReReadL2} ==>
              Warmed(states, labels, k, n, t, states[k].requests[t].repo, o.score)
  {
    CarriedRun(states, labels, ttl, k, n, t, o);
    assert n < |labels| ==> Enabled(states[n], labels[n]);
    hide Next, Held, Warmed;
  }

  // ---------------------------------------------------------------- and nothing else

  /** Why request t may answer o after n steps: it read it, or it launched a scan, or it found the
      slot taken. */
  ghost predicate Justified(states: seq<State>, labels: seq<Label>, ttl: nat, n: nat, t: Tid, o: Outcome)
    requires n <= |labels| && |states| == |labels| + 1
  {
    if o.Pending? then
      exists k :: 0 <= k < n && (labels[k] == StartScan(t) || FoundTaken(states[k], labels[k], t))
    else exists k: nat :: k < n && ReadsAt(states, labels, ttl, k, t, o)
  }

  predicate FoundTaken(s: State, l: Label, t: Tid) {
    l == Advance(t) && t in s.requests && s.requests[t].pc.Begin? && s.requests[t].repo in s.running
  }

  lemma JustifiedLater(states: seq<State>, labels: seq<Label>, ttl: nat, n: nat, t: Tid, o: Outcome)
    requires n < |labels| && |states| == |labels| + 1 && Justified(states, labels, ttl, n, t, o)
    ensures Justified(states, labels, ttl, n + 1, t, o)
  {
    hide ReadsAt, FoundTaken;
  }

  lemma NeverHeldPending(s: State, ttl: nat, r: Repo, pc: RequestPC)
    ensures Held(s, ttl, r, pc) != Some(Pending)
  {
  }

  lemma JustifiedNow(states: seq<State>, labels: seq<Label>, ttl: nat, n: nat, t: Tid, o: Outcome)
    requires Run(states, labels, ttl) && n < |labels| && labels[n] == Advance(t) && t in states[n].requests
    requires var r, pc := states[n].requests[t].repo, states[n].requests[t].pc;
             Held(states[n], ttl, r, pc) == Some(o) || (o == Pending && pc.Begin? && r in states[n].running)
    ensures Justified(states, labels, ttl, n + 1, t, o)
  {
    NeverHeldPending(states[n], ttl, states[n].requests[t].repo, states[n].requests[t].pc);
    if o.Pending? {
      assert FoundTaken(states[n], labels[n], t);
    } else {
      assert ReadsAt(states, labels, ttl, n, t, o);
    }
  }

  /** In every run, a request answers a score only if some cache it read held that score, the
      negative answer only if L2 held the marker, each fresh enough to trust; and pending only if it
      launched a scan or found one running. */
  lemma {:induction false} AnswersAreJustified(states: seq<State>, labels: seq<Label>, ttl: nat, n: nat, t: Tid,
      o: Outcome)
    requires Run(states, labels, ttl) && n < |states| && t in states[n].requests && Carries(states[n].requests[t].pc, o)
    ensures Justified(states, labels, ttl, n, t, o)
  {
    hide Justified, ReadsAt, Next, NextPC, Held;
    if n > 0 {
      var s, l := states[n - 1], labels[n - 1];
      assert Enabled(s, l) && states[n] == Next(s, ttl, l);
      if l == StartScan(t) {
        LaunchIsPending(s, ttl, t, o);
        LaunchJustifies(states, labels, ttl, n - 1, t);
      } else if l == Advance(t) {
        AdvanceIs(s, ttl, t);
        ReadStep(s, ttl, s.requests[t].repo, s.requests[t].pc);
        if Carries(s.requests[t].pc, o) {
          AnswersAreJustified(states, labels, ttl, n - 1, t, o);
          JustifiedLater(states, labels, ttl, n - 1, t, o);
        } else {
          JustifiedNow(states, labels, ttl, n - 1, t, o);
        }
      } else if t in s.requests {
        RequestKept(s, ttl, t, l);
        AnswersAreJustified(states, labels, ttl, n - 1, t, o);
        JustifiedLater(states, labels, ttl, n - 1, t, o);
      } else {
        NewRequest(s, ttl, t, l);
      }
    }
  }

  lemma LaunchIsPending(s: State, ttl: nat, t: Tid, o: Outcome)
    requires Enabled(s, StartScan(t)) && Carries(Next(s, ttl, StartScan(t)).requests[t].pc, o)
    ensures o == Pending
  {
  }

  lemma LaunchJustifies(states: seq<State>, labels: seq<Label>, ttl: nat, k: nat, t: Tid)
    requires k < |labels| && |states| == |labels| + 1 && labels[k] == StartScan(t)
    ensures Justified(states, labels, ttl, k + 1, t, Pending)
  {
  }

  lemma NewRequest(s: State, ttl: nat, t: Tid, l: Label)
    requires Enabled(s, l) && t !in s.requests && t in Next(s, ttl, l).requests
    ensures Next(s, ttl, l).requests[t].pc == ReadL1
  {
    if l.Advance? { AdvanceShape(s, ttl, l.t); }
    hide AdvanceRequest, NextPC;
  }
}
