/** operatorlist.go: the re-read of an operator list, bounded by a ttl, that keeps the last
    good list whatever the file does. */
module ListReload {
  import opened GoStrings

  /** A list as its display entries: what its digest is taken of and its count counts. */
  type Entries = seq<string>

  datatype Event = Unreadable(kept: bool) | ReadableAgain | WentToZero | Reloaded

  datatype State = State(last: Option<Entries>, checked: Option<nat>, degraded: bool, log: seq<Event>)

  /** One call: the clock when it asks, the clock when it reads, and what the file gave. */
  datatype Tick = Tick(entered: nat, now: nat, load: Option<Entries>)

  type Digest = Entries -> int

  // ---------------------------------------------------------------- the specification

  predicate Reads(ttl: nat, s: State, t: Tick) {
    s.checked.None? || t.entered - s.checked.value >= ttl
  }

  function Log(s: State, e: Event): State {
    s.(log := s.log + [e])
  }

  function Adopt(s: State, next: Entries, digest: Digest): State {
    var s1 := if s.degraded then Log(s.(degraded := false), ReadableAgain) else s;
    var s2 := if s.last.Some? && |s.last.value| > 0 && |next| == 0 then Log(s1, WentToZero) else s1;
    var s3 := if s.last.None? || digest(s.last.value) != digest(next) then Log(s2, Reloaded) else s2;
    s3.(last := Some(next))
  }

  function Refresh(ttl: nat, digest: Digest, s: State, t: Tick): State {
    if !Reads(ttl, s, t) then s
    else
      var looked := s.(checked := Some(t.now));
      if t.load.Some? then Adopt(looked, t.load.value, digest)
      else if s.degraded then looked
      else Log(looked.(degraded := true), Unreadable(s.last.Some?))
  }

  // ---------------------------------------------------------------- the object

  class ReloadingSource {
    const ttl: nat
    const digest: Digest
    var last: Option<Entries>
    var checked: Option<nat>
    var degraded: bool
    var log: seq<Event>

    ghost function View(): State
      reads this
    {
      State(last, checked, degraded, log)
    }

    constructor (ttl: nat, digest: Digest, first: Option<Entries>)
      ensures View() == State(first, None, false, []) && this.ttl == ttl && this.digest == digest
    {
      this.ttl, this.digest := ttl, digest;
      last, checked, degraded, log := first, None, false, [];
    }

    method RefreshLocked(t: Tick)
      modifies this
      ensures View() == Refresh(ttl, digest, old(View()), t)
    {
      if checked.Some? && t.entered - checked.value < ttl {
        return;
      }
      checked := Some(t.now);
      if t.load.None? {
        if !degraded {
          degraded := true;
          log := log + [Unreadable(last.Some?)];
        }
        return;
      }
      var next := t.load.value;
      if degraded {
        degraded := false;
        log := log + [ReadableAgain];
      }
      if last.Some? && |last.value| > 0 && |next| == 0 {
        log := log + [WentToZero];
      }
      if last.None? || digest(last.value) != digest(next) {
        log := log + [Reloaded];
      }
      last := Some(next);
    }

    method CurrentList(t: Tick) returns (list: Option<Entries>)
      modifies this
      ensures View() == Refresh(ttl, digest, old(View()), t) && list == View().last
    {
      RefreshLocked(t);
      list := last;
    }

    method IsStale(t: Tick) returns (stale: bool)
      modifies this
      ensures View() == Refresh(ttl, digest, old(View()), t) && stale == View().degraded
    {
      RefreshLocked(t);
      stale := degraded;
    }
  }

  // ---------------------------------------------------------------- what one look decides

  /** One look, decided: before its time it changes nothing; after that it puts in force whatever
      it could read, and leaves the list degraded if and only if it could not. */
  lemma LookDecides(ttl: nat, digest: Digest, s: State, t: Tick)
    ensures var s' := Refresh(ttl, digest, s, t);
            if s.checked.Some? && t.entered - s.checked.value < ttl then s' == s
            else
              && s'.checked == Some(t.now) && (s'.degraded <==> t.load.None?)
              && s'.last == (if t.load.Some? then t.load else s.last)
  {
  }

  /** What it says, in order: a failure if that is news; else that the file is readable again, that
      a list with entries became empty, and that the contents changed, each only when it is so. */
  lemma LookSays(ttl: nat, digest: Digest, s: State, t: Tick)
    requires s.checked.None? || t.entered - s.checked.value >= ttl
    ensures Refresh(ttl, digest, s, t).log ==
            s.log +
            if t.load.None? then (if s.degraded then [] else [Unreadable(s.last.Some?)])
            else
              (if s.degraded then [ReadableAgain] else []) +
              (if s.last.Some? && s.last.value != [] && t.load.value == [] then [WentToZero] else []) +
              (if s.last.None? || digest(s.last.value) != digest(t.load.value) then [Reloaded] else [])
  {
    assert s.log + [] == s.log;
  }

  // ---------------------------------------------------------------- over whole runs

  function RunTicks(ttl: nat, digest: Digest, s: State, ticks: seq<Tick>): State {
    if ticks == [] then s
    else Refresh(ttl, digest, RunTicks(ttl, digest, s, ticks[..|ticks| - 1]), ticks[|ticks| - 1])
  }

  datatype Read = Read(at: nat, entries: Entries)

  /** History: the latest successful read of a run, and what it gave. */
  function LastRead(ttl: nat, digest: Digest, s: State, ticks: seq<Tick>): Option<Read> {
    if ticks == [] then None
    else
      var front, t := ticks[..|ticks| - 1], ticks[|ticks| - 1];
      if Reads(ttl, RunTicks(ttl, digest, s, front), t) && t.load.Some? then Some(Read(t.now, t.load.value))
      else LastRead(ttl, digest, s, front)
  }

  /** Unless degraded, the list in force is what the latest look at the file gave. */
  predicate InForce(s: State, read: Option<Read>) {
    s.checked.Some? && !s.degraded ==> s.last.Some? && read == Some(Read(s.checked.value, s.last.value))
  }

  lemma {:induction false} InForceRun(ttl: nat, digest: Digest, s: State, ticks: seq<Tick>)
    requires s.checked.None?
    ensures InForce(RunTicks(ttl, digest, s, ticks), LastRead(ttl, digest, s, ticks))
  {
    if ticks != [] {
      InForceRun(ttl, digest, s, ticks[..|ticks| - 1]);
    }
  }

  /** At a call entered at time t that is not degraded, the list in force is exactly what a
      successful read gave, and that read was after t - ttl. */
  lemma FreshWhenNotDegraded(ttl: nat, digest: Digest, s: State, ticks: seq<Tick>)
    requires s.checked.None? && ttl > 0 && ticks != []
    requires forall k :: 0 <= k < |ticks| ==> ticks[k].entered <= ticks[k].now
    ensures var s' := RunTicks(ttl, digest, s, ticks);
            var read := LastRead(ttl, digest, s, ticks);
            !s'.degraded ==>
              read.Some? && s'.last == Some(read.value.entries) && read.value.at > ticks[|ticks| - 1].entered - ttl
  {
    InForceRun(ttl, digest, s, ticks);
    hide LastRead;
  }

  /** A failed read never replaces the list in force, and a list once in force is never lost;
      it changes only to what a read gave. */
  lemma {:induction false} LastGoodKept(ttl: nat, digest: Digest, s: State, ticks: seq<Tick>)
    ensures var s' := RunTicks(ttl, digest, s, ticks);
            && (s.last.Some? ==> s'.last.Some?)
            && (s'.last != s.last ==> exists k :: 0 <= k < |ticks| && ticks[k].load.Some? && s'.last == ticks[k].load)
            && ((forall k :: 0 <= k < |ticks| ==> ticks[k].load.None?) ==> s'.last == s.last)
  {
    if ticks != [] {
      LastGoodKept(ttl, digest, s, ticks[..|ticks| - 1]);
      assert ticks[|ticks| - 1] in ticks;
    }
  }

  /** Reading the log: whether an unreadable spell is open at its end, or None if two openings,
      or two closings, follow each other. */
  function SpellOpen(log: seq<Event>): Option<bool> {
    if log == [] then Some(false)
    else
      var before, e := SpellOpen(log[..|log| - 1]), log[|log| - 1];
      if before.None? then None
      else if e.Unreadable? then (if before.value then None else Some(true))
      else if e.ReadableAgain? then (if before.value then Some(false) else None)
      else before
  }

  lemma SpellAppends(log: seq<Event>, e: Event)
    ensures SpellOpen(log).Some? && e.Unreadable? && !SpellOpen(log).value ==> SpellOpen(log + [e]) == Some(true)
    ensures SpellOpen(log).Some? && e.ReadableAgain? && SpellOpen(log).value ==> SpellOpen(log + [e]) == Some(false)
    ensures SpellOpen(log).Some? && !e.Unreadable? && !e.ReadableAgain? ==> SpellOpen(log + [e]) == SpellOpen(log)
  {
    assert (log + [e])[..|log + [e]| - 1] == log;
  }

  lemma AdoptKeepsLog(s: State, next: Entries, digest: Digest)
    requires SpellOpen(s.log) == Some(s.degraded)
    ensures SpellOpen(Adopt(s, next, digest).log) == Some(false) && !Adopt(s, next, digest).degraded
  {
    var s1 := if s.degraded then Log(s.(degraded := false), ReadableAgain) else s;
    SpellAppends(s.log, ReadableAgain);
    var s2 := if s.last.Some? && |s.last.value| > 0 && |next| == 0 then Log(s1, WentToZero) else s1;
    SpellAppends(s1.log, WentToZero);
    SpellAppends(s2.log, Reloaded);
    hide SpellOpen;
  }

  /** Over any run the unreadable and readable-again lines strictly alternate, and the log
      says which of the two the source is in. */
  lemma {:induction false} SpellsAlternate(ttl: nat, digest: Digest, s: State, ticks: seq<Tick>)
    requires !s.degraded && s.log == []
    ensures var s' := RunTicks(ttl, digest, s, ticks); SpellOpen(s'.log) == Some(s'.degraded)
  {
    if ticks != [] {
      SpellsAlternate(ttl, digest, s, ticks[..|ticks| - 1]);
      var m, t := RunTicks(ttl, digest, s, ticks[..|ticks| - 1]), ticks[|ticks| - 1];
      if t.load.Some? { AdoptKeepsLog(m.(checked := Some(t.now)), t.load.value, digest); }
      SpellAppends(m.log, Unreadable(m.last.Some?));
      hide SpellOpen, Adopt;
    }
  }
}
