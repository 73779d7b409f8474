/** malwarereload.go: the feed in force and its bounded, last-good, never-backwards re-read. */
module FeedReload {
  import opened GoStrings
  import opened MalwareFeed

  // ---------------------------------------------------------------- state and inputs

  /** Times and durations are in seconds. */
  const FEED_MAX_AGE: int := 72 * 3600

  datatype Config = Config(statTTL: nat, rereadEvery: nat)

  datatype Stat = Stat(size: int, modTime: int)

  datatype Event = Failed(kept: bool) | Reloaded(recovered: bool) | Stale | Current

  datatype State = State(
    last: Option<Feed>, checked: Option<nat>, parsed: Option<nat>, seen: Option<Stat>, parses: nat,
    degraded: bool, staleLogged: bool, log: seq<Event>)

  /** What one call sees: the clock each time it is read, the stat, and what loading gave. */
  datatype Tick = Tick(
    entered: nat, now: nat, agedAt: nat, stat: Option<Stat>, cheapAt: nat, load: Result<Feed>, parsedAt: nat,
    againAt: nat)

  predicate TickOk(t: Tick) {
    t.entered <= t.now <= t.agedAt <= t.cheapAt <= t.parsedAt <= t.againAt
  }

  type Hash = seq<Line> -> int

  // ---------------------------------------------------------------- the specification

  function Log(s: State, e: Event): State {
    s.(log := s.log + [e])
  }

  /** Says once per crossing that the feed in force is older than its limit. */
  function ReportStaleness(s: State, at: nat): State {
    if s.last.None? || s.last.value.header.None? then s
    else
      var age := at - s.last.value.header.value.generated;
      if age > FEED_MAX_AGE && !s.staleLogged then Log(s.(staleLogged := true), Stale)
      else if age <= FEED_MAX_AGE && s.staleLogged then Log(s.(staleLogged := false), Current)
      else s
  }

  function Fail(s: State): State {
    if s.degraded then s else Log(s.(degraded := true), Failed(s.last.Some?))
  }

  /** A snapshot older than the one in force; only headers can be compared. */
  predicate Backwards(last: Option<Feed>, next: Feed) {
    && last.Some? && last.value.header.Some? && next.header.Some?
    && next.header.value.serial < last.value.header.value.serial
  }

  function Placed(s: State, next: Feed, t: Tick): State {
    s.(parses := s.parses + 1, parsed := Some(t.parsedAt), seen := t.stat, degraded := false, last := Some(next))
  }

  function Install(s: State, next: Feed, t: Tick, hash: Hash): State {
    var changed := s.last.None? || hash(s.last.value.content) != hash(next.content);
    var recovered := s.degraded;
    var aged := ReportStaleness(Placed(s, next, t), t.againAt);
    if changed || recovered then Log(aged, Reloaded(recovered)) else aged
  }

  function Refresh(cfg: Config, hash: Hash, s: State, t: Tick): State {
    if s.checked.Some? && t.entered - s.checked.value < cfg.statTTL then s
    else
      var aged := ReportStaleness(s.(checked := Some(t.now)), t.agedAt);
      if t.stat.None? then Fail(aged)
      else if t.stat == aged.seen && aged.last.Some? && !aged.degraded &&
              aged.parsed.Some? && t.cheapAt - aged.parsed.value < cfg.rereadEvery then aged
      else if t.load.Err? || Backwards(aged.last, t.load.value) then Fail(aged)
      else Install(aged, t.load.value, t, hash)
  }

  /** Seeded with the feed startup loaded, if it could also be stat'd. */
  function Seeded(first: Option<Feed>, stat: Option<Stat>, now: nat): State {
    var ok := first.Some? && stat.Some?;
    State(first, None, if ok then Some(now) else None, if ok then stat else None, 0, false, false, [])
  }

  // ---------------------------------------------------------------- the object

  class ReloadingFeed {
    const cfg: Config
    const hash: Hash
    var last: Option<Feed>
    var checked: Option<nat>
    var parsed: Option<nat>
    var seen: Option<Stat>
    var parses: nat
    var degraded: bool
    var staleLogged: bool
    var log: seq<Event>

    ghost function View(): State
      reads this
    {
      State(last, checked, parsed, seen, parses, degraded, staleLogged, log)
    }

    constructor (cfg: Config, hash: Hash, first: Option<Feed>, stat: Option<Stat>, now: nat)
      ensures View() == Seeded(first, stat, now) && this.cfg == cfg && this.hash == hash
    {
      this.cfg, this.hash := cfg, hash;
      last, checked, parses, degraded, staleLogged, log := first, None, 0, false, false, [];
      parsed, seen := None, None;
      if first.Some? && stat.Some? {
        seen, parsed := stat, Some(now);
      }
    }

    method ReportStalenessLocked(at: nat)
      modifies this`staleLogged, this`log
      ensures View() == ReportStaleness(old(View()), at)
    {
      if last.None? || last.value.header.None? {
        return;
      }
      var age := at - last.value.header.value.generated;
      if age > FEED_MAX_AGE && !staleLogged {
        staleLogged := true;
        log := log + [Stale];
      } else if age <= FEED_MAX_AGE && staleLogged {
        staleLogged := false;
        log := log + [Current];
      }
    }

    method FailLocked()
      modifies this`degraded, this`log
      ensures View() == Fail(old(View()))
    {
      if degraded {
        return;
      }
      degraded := true;
      log := log + [Failed(last.Some?)];
    }

    method InstallLocked(next: Feed, t: Tick)
      modifies this
      ensures View() == Install(old(View()), next, t, hash)
    {
      hide ReportStaleness;
      parses := parses + 1;
      parsed := Some(t.parsedAt);
      seen := t.stat;
      var changed := last.None? || hash(last.value.content) != hash(next.content);
      var recovered := degraded;
      degraded := false;
      last := Some(next);
      ReportStalenessLocked(t.againAt);
      if changed || recovered {
        log := log + [Reloaded(recovered)];
      }
    }

    method RefreshLocked(t: Tick)
      modifies this
      ensures View() == Refresh(cfg, hash, old(View()), t)
    {
      hide ReportStaleness, Install, Fail;
      if checked.Some? && t.entered - checked.value < cfg.statTTL {
        return;
      }
      checked := Some(t.now);
      ReportStalenessLocked(t.agedAt);
      if t.stat.None? {
        FailLocked();
        return;
      }
      var unmoved := t.stat == seen;
      if unmoved && last.Some? && !degraded && parsed.Some? && t.cheapAt - parsed.value < cfg.rereadEvery {
        return;
      }
      if t.load.Err? {
        FailLocked();
        return;
      }
      var next := t.load.value;
      if last.Some? && last.value.header.Some? && next.header.Some? &&
         next.header.value.serial < last.value.header.value.serial {
        FailLocked();
        return;
      }
      InstallLocked(next, t);
    }

    /** The feed in force after the bounded re-read. */
    method CurrentFeed(t: Tick) returns (feed: Option<Feed>)
      modifies this
      ensures View() == Refresh(cfg, hash, old(View()), t) && feed == View().last
    {
      RefreshLocked(t);
      feed := last;
    }

    /** Readiness asks whether the feed in force is the file on the mount. */
    method IsStale(t: Tick) returns (stale: bool)
      modifies this
      ensures View() == Refresh(cfg, hash, old(View()), t) && stale == View().degraded
    {
      RefreshLocked(t);
      stale := degraded;
    }
  }

  // ---------------------------------------------------------------- over whole runs

  function RunTicks(cfg: Config, hash: Hash, s: State, ticks: seq<Tick>): State {
    if ticks == [] then s
    else Refresh(cfg, hash, RunTicks(cfg, hash, s, ticks[..|ticks| - 1]), ticks[|ticks| - 1])
  }

  lemma KeptStep(cfg: Config, hash: Hash, s: State, t: Tick)
    ensures var s' := Refresh(cfg, hash, s, t);
            && (s.last.Some? ==> s'.last.Some?)
            && (t.load.Err? || t.stat.None? ==> s'.last == s.last)
            && (s'.last != s.last ==> t.load.Ok? && s'.last == Some(t.load.value) && !s'.degraded)
  {
  }

  /** Over any run a failed read never replaces the last good feed, and a feed once loaded is
      never lost; what is in force is the first feed or one a read loaded. */
  lemma {:induction false} LastGoodKept(cfg: Config, hash: Hash, s: State, ticks: seq<Tick>)
    ensures var s' := RunTicks(cfg, hash, s, ticks);
            && (s.last.Some? ==> s'.last.Some?)
            && (s'.last != s.last ==>
                 exists k :: 0 <= k < |ticks| && ticks[k].load.Ok? && s'.last == Some(ticks[k].load.value))
            && ((forall k :: 0 <= k < |ticks| ==> ticks[k].load.Err? || ticks[k].stat.None?) ==> s'.last == s.last)
  {
    hide Refresh;
    if ticks != [] {
      var front, t := ticks[..|ticks| - 1], ticks[|ticks| - 1];
      LastGoodKept(cfg, hash, s, front);
      KeptStep(cfg, hash, RunTicks(cfg, hash, s, front), t);
      assert forall k :: 0 <= k < |front| ==> front[k] == ticks[k];
    }
  }

  predicate Headed(last: Option<Feed>) {
    last.Some? ==> last.value.header.Some?
  }

  /** b is in force after a: not lost, and no older. */
  predicate NotBackwards(a: Option<Feed>, b: Option<Feed>) {
    a.Some? ==> b.Some? && a.value.header.Some? && b.value.header.Some? &&
                b.value.header.value.serial >= a.value.header.value.serial
  }

  lemma SerialStep(cfg: Config, hash: Hash, s: State, t: Tick)
    requires Headed(s.last) && (t.load.Ok? ==> t.load.value.header.Some?)
    ensures Headed(Refresh(cfg, hash, s, t).last) && NotBackwards(s.last, Refresh(cfg, hash, s, t).last)
  {
    hide ReportStaleness, Install;
    var c := s.(checked := Some(t.now));
    ReportKeeps(c, t.agedAt);
    if t.load.Ok? {
      var aged := ReportStaleness(c, t.agedAt);
      InstallLast(aged, t.load.value, t, hash);
    }
  }

  /** With every load headed, as a signing key forces, the serial in force never decreases
      over a run and the feed never goes back to nothing. */
  lemma {:induction false} SerialMonotone(cfg: Config, hash: Hash, s: State, ticks: seq<Tick>, i: nat)
    requires Headed(s.last) && i <= |ticks|
    requires forall k :: 0 <= k < |ticks| && ticks[k].load.Ok? ==> ticks[k].load.value.header.Some?
    ensures Headed(RunTicks(cfg, hash, s, ticks).last)
    ensures NotBackwards(RunTicks(cfg, hash, s, ticks[..i]).last, RunTicks(cfg, hash, s, ticks).last)
  {
    hide Refresh;
    if i == |ticks| {
      assert ticks[..i] == ticks;
    }
    if ticks != [] {
      var front := ticks[..|ticks| - 1];
      var k := if i == |ticks| then i - 1 else i;
      SerialMonotone(cfg, hash, s, front, k);
      assert front[..k] == ticks[..k];
      SerialStep(cfg, hash, RunTicks(cfg, hash, s, front), ticks[|ticks| - 1]);
    }
  }

  /** A look that is due. */
  predicate Due(cfg: Config, s: State, t: Tick) {
    s.checked.Some? ==> t.entered - s.checked.value >= cfg.statTTL
  }

  // ---------------------------------------------------------------- what one look decides

  /** A due look has to read the file: it moved, the last look failed, nothing was ever loaded, or
      the last parse is too long ago. */
  predicate HasToRead(cfg: Config, s: State, t: Tick) {
    && t.stat.Some?
    && (t.stat != s.seen || s.degraded || s.last.None? || s.parsed.None? ||
        t.cheapAt - s.parsed.value >= cfg.rereadEvery)
  }

  /** The file loads, and is not older than the feed in force where both say how old they are. */
  predicate Acceptable(s: State, t: Tick) {
    t.load.Ok? && (Serial(s.last).None? || Serial(Some(t.load.value)).None? ||
                   Serial(s.last).value <= Serial(Some(t.load.value)).value)
  }

  lemma BackwardsIs(s: State, t: Tick)
    ensures Acceptable(s, t) <==> t.load.Ok? && !Backwards(s.last, t.load.value)
  {
  }

  /** Older than 72 hours where the feed in force says when it was made; else what was last said. */
  predicate TooOld(feed: Option<Feed>, at: int, said: bool) {
    if feed.Some? && feed.value.header.Some? then at - feed.value.header.value.generated > 259200 else said
  }

  /** The line for a crossing of that limit, either way. */
  function Crossing(feed: Option<Feed>, at: int, said: bool): seq<Event> {
    if TooOld(feed, at, said) == said then [] else if said then [Current] else [Stale]
  }

  lemma ReportIs(s: State, at: nat)
    ensures ReportStaleness(s, at) ==
            s.(staleLogged := TooOld(s.last, at, s.staleLogged), log := s.log + Crossing(s.last, at, s.staleLogged))
  {
    assert s.log + [] == s.log;
  }

  lemma AppendNothing(log: seq<Event>)
    ensures log + [] == log
  {
  }

  /** One look, decided: a look that is not due changes nothing. A due one puts the file in force
      if and only if it has to read it and may take it; it leaves the feed degraded if and only if
      the file cannot be seen, or had to be read and could not be taken. So a look that sees and
      may take the file always ends a degraded spell. */
  lemma LookDecides(cfg: Config, hash: Hash, s: State, t: Tick)
    ensures var s' := Refresh(cfg, hash, s, t);
            if !Due(cfg, s, t) then s' == s
            else
              && s'.checked == Some(t.now)
              && (s'.degraded <==> t.stat.None? || (HasToRead(cfg, s, t) && !Acceptable(s, t)))
              && (if HasToRead(cfg, s, t) && Acceptable(s, t) then
                    s'.last == Some(t.load.value) && s'.parsed == Some(t.parsedAt) && s'.seen == t.stat &&
                    s'.parses == s.parses + 1
                  else s'.last == s.last && s'.parsed == s.parsed && s'.seen == s.seen && s'.parses == s.parses)
  {
    var c := s.(checked := Some(t.now));
    ReportIs(c, t.agedAt);
    BackwardsIs(s, t);
    if t.load.Ok? { InstallIs(ReportStaleness(c, t.agedAt), t.load.value, t, hash); }
    hide ReportStaleness, Install, Backwards, TooOld, Crossing, Acceptable;
  }

  /** At startup the feed loaded then is in force, and a look that finds the file unmoved does not
      read it again until the limit passes, if it could be stat'd then; else the first look reads. */
  lemma SeedIsTrusted(cfg: Config, hash: Hash, first: Option<Feed>, stat: Option<Stat>, now: nat, t: Tick)
    ensures var s := Seeded(first, stat, now);
            && s.last == first && !s.degraded && !s.staleLogged && s.log == [] && s.checked.None? && s.parses == 0
            && (t.stat.Some? ==>
                  (HasToRead(cfg, s, t) <==>
                     first.None? || t.stat != stat || t.cheapAt - now >= cfg.rereadEvery))
  {
  }

  /** The file's bytes differ from those of the feed in force, or there is none. */
  predicate Differs(s: State, next: Feed, hash: Hash) {
    s.last.None? || hash(s.last.value.content) != hash(next.content)
  }

  lemma InstallIs(s: State, next: Feed, t: Tick, hash: Hash)
    ensures var r, p := Install(s, next, t, hash), Placed(s, next, t);
            r == p.(staleLogged := TooOld(Some(next), t.againAt, s.staleLogged),
                    log := s.log + Crossing(Some(next), t.againAt, s.staleLogged) +
                           if Differs(s, next, hash) || s.degraded then [Reloaded(s.degraded)] else [])
  {
    ReportIs(Placed(s, next, t), t.againAt);
    AppendNothing(s.log + Crossing(Some(next), t.againAt, s.staleLogged));
    hide ReportStaleness, TooOld, Crossing;
  }

  /** What a due look says, line by line: a crossing of the age limit by the feed it finds in
      force; then one failure line if it begins a degraded spell, or, for a file it takes, a
      crossing by the new feed and one line if the bytes changed or a spell ends. After it, the
      age limit has been reported as it stands. */
  lemma LookSays(cfg: Config, hash: Hash, s: State, t: Tick)
    requires Due(cfg, s, t)
    ensures var s' := Refresh(cfg, hash, s, t);
            var old0 := TooOld(s.last, t.agedAt, s.staleLogged);
            var takes := HasToRead(cfg, s, t) && Acceptable(s, t);
            && s'.staleLogged == (if takes then TooOld(Some(t.load.value), t.againAt, old0) else old0)
            && s'.log == s.log + Crossing(s.last, t.agedAt, s.staleLogged) +
                 if takes then
                   Crossing(Some(t.load.value), t.againAt, old0) +
                   if Differs(s, t.load.value, hash) || s.degraded then [Reloaded(s.degraded)] else []
                 else if s'.degraded && !s.degraded then [Failed(s.last.Some?)] else []
  {
    var c := s.(checked := Some(t.now));
    var aged := ReportStaleness(c, t.agedAt);
    ReportIs(c, t.agedAt);
    LookDecides(cfg, hash, s, t);
    BackwardsIs(s, t);
    AppendNothing(aged.log);
    if t.load.Ok? {
      InstallIs(aged, t.load.value, t, hash);
      var a, b := Crossing(Some(t.load.value), t.againAt, aged.staleLogged),
                  if Differs(s, t.load.value, hash) || s.degraded then [Reloaded(s.degraded)] else [];
      assert aged.log + a + b == aged.log + (a + b);
    }
    hide ReportStaleness, Install, Backwards, TooOld, Crossing, Acceptable;
  }

  /** A due look at a changed file that loads puts it in force exactly when that does not go
      backwards. */
  lemma ChangedFileInstalls(cfg: Config, hash: Hash, s: State, t: Tick)
    requires Due(cfg, s, t) && t.stat.Some? && t.stat != s.seen && t.load.Ok?
    ensures var s' := Refresh(cfg, hash, s, t);
            && (!Backwards(s.last, t.load.value) ==> s'.last == Some(t.load.value) && s'.seen == t.stat)
            && (Backwards(s.last, t.load.value) ==> s'.last == s.last && s'.seen == s.seen)
            && s'.checked == Some(t.now)
  {
    hide Backwards, ReportStaleness, Fail, Install;
    var c := s.(checked := Some(t.now));
    var aged := ReportStaleness(c, t.agedAt);
    ReportKeeps(c, t.agedAt);
    FailLast(aged);
    InstallLast(aged, t.load.value, t, hash);
  }

  lemma InstallLast(s: State, next: Feed, t: Tick, hash: Hash)
    ensures var r := Install(s, next, t, hash);
            && r.last == Some(next) && r.seen == t.stat && r.checked == s.checked && r.parsed == Some(t.parsedAt)
            && !r.degraded
  {
    ReportKeeps(Placed(s, next, t), t.againAt);
    hide ReportStaleness;
  }

  lemma FailLast(s: State)
    ensures Fail(s).last == s.last && Fail(s).seen == s.seen && Fail(s).checked == s.checked
            && Fail(s).parsed == s.parsed
  {
  }

  /** The serial in force, where the feed in force says one. */
  function Serial(last: Option<Feed>): Option<int> {
    if last.Some? && last.value.header.Some? then Some(last.value.header.value.serial) else None
  }

  /** A due look, at a file that changed, that finds f there. */
  function LookFinding(cfg: Config, s: State, f: Feed): (t: Tick)
    ensures TickOk(t) && Due(cfg, s, t) && t.load == Ok(f) && t.stat.Some? && t.stat != s.seen
  {
    var at := (if s.checked.Some? then s.checked.value else 0) + cfg.statTTL;
    var stat := if s.seen.Some? then Stat(s.seen.value.size + 1, s.seen.value.modTime) else Stat(0, 0);
    Tick(at, at, at, Some(stat), at, Ok(f), at, at)
  }

  /** From any state, some look can put a feed of serial m in force if and only if the feed in
      force declares no serial, or one no greater: only a declared serial protects. */
  lemma CanInstallExactly(cfg: Config, hash: Hash, s: State, f: Feed)
    requires f.header.Some?
    ensures (exists t :: TickOk(t) && t.load == Ok(f) && Refresh(cfg, hash, s, t).last == Some(f)) <==>
            (s.last == Some(f) || Serial(s.last).None? || Serial(s.last).value <= f.header.value.serial)
  {
    var t := LookFinding(cfg, s, f);
    ChangedFileInstalls(cfg, hash, s, t);
    forall u | TickOk(u) && u.load == Ok(f) && Refresh(cfg, hash, s, u).last == Some(f)
      ensures s.last == Some(f) || Serial(s.last).None? || Serial(s.last).value <= f.header.value.serial {
      InstalledNotBackwards(cfg, hash, s, u);
    }
    hide Refresh;
  }

  lemma InstalledNotBackwards(cfg: Config, hash: Hash, s: State, t: Tick)
    ensures Refresh(cfg, hash, s, t).last != s.last ==> t.load.Ok? && !Backwards(s.last, t.load.value)
  {
    hide ReportStaleness, Backwards, Fail;
    var c := s.(checked := Some(t.now));
    ReportKeeps(c, t.agedAt);
    FailLast(ReportStaleness(c, t.agedAt));
  }

  /** Without headers the comparison resets: from every state with a feed of serial n in force,
      two looks, at any feed that declares no serial and then at any feed of a smaller one, put
      the smaller one in force. */
  lemma HeaderlessFeedResets(cfg: Config, hash: Hash, s: State, bare: Feed, low: Feed)
    requires bare.header.None? && low.header.Some? && Serial(s.last).Some?
    requires low.header.value.serial < Serial(s.last).value
    ensures var t1 := LookFinding(cfg, s, bare);
            var t2 := LookFinding(cfg, Refresh(cfg, hash, s, t1), low);
            RunTicks(cfg, hash, s, [t1, t2]).last == Some(low) && !NotBackwards(s.last, Some(low))
  {
    hide Refresh;
    var t1 := LookFinding(cfg, s, bare);
    var s1 := Refresh(cfg, hash, s, t1);
    var t2 := LookFinding(cfg, s1, low);
    ChangedFileInstalls(cfg, hash, s, t1);
    ChangedFileInstalls(cfg, hash, s1, t2);
    TwoTicks(cfg, hash, s, t1, t2);
  }

  lemma TwoTicks(cfg: Config, hash: Hash, s: State, t1: Tick, t2: Tick)
    ensures RunTicks(cfg, hash, s, [t1, t2]) == Refresh(cfg, hash, Refresh(cfg, hash, s, t1), t2)
  {
    hide Refresh;
    assert [t1, t2][..1] == [t1] && [t1][..0] == [];
    assert RunTicks(cfg, hash, s, [t1]) == Refresh(cfg, hash, s, t1);
  }

  // ---------------------------------------------------------------- exactly when a run can go backwards

  /** The serial in force after the first i looks. */
  function SerialAt(cfg: Config, hash: Hash, s: State, ticks: seq<Tick>, i: nat): Option<int>
    requires i <= |ticks|
  {
    Serial(RunTicks(cfg, hash, s, ticks[..i]).last)
  }

  predicate HeadedLoad(t: Tick) {
    TickOk(t) && (t.load.Ok? ==> t.load.value.header.Some?)
  }

  predicate HeadedLoads(ticks: seq<Tick>) {
    forall k :: 0 <= k < |ticks| ==> HeadedLoad(ticks[k])
  }

  /** At some look the serial in force is below one that was in force before it. */
  ghost predicate WentBack(cfg: Config, hash: Hash, s: State, ticks: seq<Tick>, i: nat, j: nat) {
    && i <= j <= |ticks|
    && SerialAt(cfg, hash, s, ticks, i).Some? && SerialAt(cfg, hash, s, ticks, j).Some?
    && SerialAt(cfg, hash, s, ticks, j).value < SerialAt(cfg, hash, s, ticks, i).value
  }

  ghost predicate Regressed(cfg: Config, hash: Hash, s: State, ticks: seq<Tick>) {
    exists i: nat, j: nat :: WentBack(cfg, hash, s, ticks, i, j)
  }

  lemma {:induction false} RunConcat(cfg: Config, hash: Hash, s: State, a: seq<Tick>, b: seq<Tick>)
    ensures RunTicks(cfg, hash, s, a + b) == RunTicks(cfg, hash, RunTicks(cfg, hash, s, a), b)
  {
    hide Refresh;
    if b == [] {
      assert a + b == a;
    } else {
      var front := b[..|b| - 1];
      RunConcat(cfg, hash, s, a, front);
      assert (a + b)[..|a + b| - 1] == a + front;
    }
  }

  /** From a declared serial on, headed loads only raise it. */
  lemma HeadedRaises(cfg: Config, hash: Hash, s: State, more: seq<Tick>)
    requires Serial(s.last).Some? && HeadedLoads(more)
    ensures var e := Serial(RunTicks(cfg, hash, s, more).last); e.Some? && e.value >= Serial(s.last).value
  {
    hide Refresh;
    SerialMonotone(cfg, hash, s, more, 0);
    assert more[..0] == [];
    assert RunTicks(cfg, hash, s, []) == s;
  }

  /** The same between two points of a run whose loads from the first on are headed. */
  lemma RaisesBetween(cfg: Config, hash: Hash, s: State, ticks: seq<Tick>, i: nat, j: nat)
    requires i <= j <= |ticks| && HeadedLoads(ticks[i..j]) && SerialAt(cfg, hash, s, ticks, i).Some?
    ensures var e := SerialAt(cfg, hash, s, ticks, j); e.Some? && e.value >= SerialAt(cfg, hash, s, ticks, i).value
  {
    RunConcat(cfg, hash, s, ticks[..i], ticks[i..j]);
    assert ticks[..i] + ticks[i..j] == ticks[..j];
    hide RunTicks;
    HeadedRaises(cfg, hash, RunTicks(cfg, hash, s, ticks[..i]), ticks[i..j]);
  }

  /** No headed continuation of the run ever goes back. */
  ghost predicate SafeForHeaded(cfg: Config, hash: Hash, s: State, ticks: seq<Tick>) {
    forall more :: HeadedLoads(more) ==> !Regressed(cfg, hash, s, ticks + more)
  }

  /** The run has not gone back, and the feed in force says a serial if any before it did. */
  ghost predicate StillGuarded(cfg: Config, hash: Hash, s: State, ticks: seq<Tick>) {
    && !Regressed(cfg, hash, s, ticks)
    && (Serial(RunTicks(cfg, hash, s, ticks).last).None? ==>
          forall i :: 0 <= i <= |ticks| ==> SerialAt(cfg, hash, s, ticks, i).None?)
  }

  lemma SerialAtFront(cfg: Config, hash: Hash, s: State, ticks: seq<Tick>, more: seq<Tick>, i: nat)
    requires i <= |ticks|
    ensures SerialAt(cfg, hash, s, ticks + more, i) == SerialAt(cfg, hash, s, ticks, i)
  {
    assert (ticks + more)[..i] == ticks[..i];
    hide RunTicks, Serial;
  }

  lemma SerialAtEnd(cfg: Config, hash: Hash, s: State, ticks: seq<Tick>)
    ensures SerialAt(cfg, hash, s, ticks, |ticks|) == Serial(RunTicks(cfg, hash, s, ticks).last)
  {
    assert ticks[..|ticks|] == ticks;
    hide RunTicks, Serial;
  }

  lemma GuardedStaysSafe(cfg: Config, hash: Hash, s: State, ticks: seq<Tick>, more: seq<Tick>, i: nat, j: nat)
    requires StillGuarded(cfg, hash, s, ticks) && HeadedLoads(more)
    ensures !WentBack(cfg, hash, s, ticks + more, i, j)
  {
    hide RunTicks, Serial, SerialAt;
    var all, n := ticks + more, |ticks|;
    if i <= j <= |all| && SerialAt(cfg, hash, s, all, i).Some? {
      SerialAtEnd(cfg, hash, s, ticks);
      if j <= n {
        SerialAtFront(cfg, hash, s, ticks, more, i);
        SerialAtFront(cfg, hash, s, ticks, more, j);
        assert !WentBack(cfg, hash, s, ticks, i, j);
      } else if i <= n {
        SerialAtFront(cfg, hash, s, ticks, more, i);
        SerialAtFront(cfg, hash, s, ticks, more, n);
        assert !WentBack(cfg, hash, s, ticks, i, n);
        assert all[n..j] == more[..j - n];
        RaisesBetween(cfg, hash, s, all, n, j);
      } else {
        assert all[i..j] == more[i - n..j - n];
        RaisesBetween(cfg, hash, s, all, i, j);
      }
    }
  }

  /** A headed continuation that goes back, where the guard is lost. */
  lemma UnguardedGoesBack(cfg: Config, hash: Hash, s: State, ticks: seq<Tick>, i: nat) returns (more: seq<Tick>)
    requires i <= |ticks| && SerialAt(cfg, hash, s, ticks, i).Some?
    requires Serial(RunTicks(cfg, hash, s, ticks).last).None? && RunTicks(cfg, hash, s, ticks).last.Some?
    ensures HeadedLoads(more) && Regressed(cfg, hash, s, ticks + more)
  {
    var end := RunTicks(cfg, hash, s, ticks);
    var low := end.last.value.(header := Some(Header(SerialAt(cfg, hash, s, ticks, i).value - 1, 0, 0)));
    var t := LookFinding(cfg, end, low);
    hide RunTicks, Refresh;
    ChangedFileInstalls(cfg, hash, end, t);
    more := [t];
    OneMore(cfg, hash, s, ticks, t);
    SerialAtFront(cfg, hash, s, ticks, more, i);
    SerialAtEnd(cfg, hash, s, ticks + more);
    assert WentBack(cfg, hash, s, ticks + more, i, |ticks| + 1);
  }

  lemma OneMore(cfg: Config, hash: Hash, s: State, ticks: seq<Tick>, t: Tick)
    ensures RunTicks(cfg, hash, s, ticks + [t]) == Refresh(cfg, hash, RunTicks(cfg, hash, s, ticks), t)
  {
    assert (ticks + [t])[..|ticks + [t]| - 1] == ticks;
    hide Refresh;
  }

  /** A feed once in force is never lost, so a run that has had a serial still has a feed. */
  lemma SomeSerialSomeFeed(cfg: Config, hash: Hash, s: State, ticks: seq<Tick>, i: nat)
    requires i <= |ticks| && SerialAt(cfg, hash, s, ticks, i).Some?
    ensures RunTicks(cfg, hash, s, ticks).last.Some?
  {
    RunConcat(cfg, hash, s, ticks[..i], ticks[i..]);
    assert ticks[..i] + ticks[i..] == ticks;
    hide RunTicks;
    LastGoodKept(cfg, hash, RunTicks(cfg, hash, s, ticks[..i]), ticks[i..]);
  }

  /** Exactly when the serial is safe: whatever headed snapshots the mount offers next, a run
      never goes back if and only if it has not gone back so far and the feed in force declares
      a serial (or no feed ever in force did). A headed run is therefore always safe, and one
      headerless feed over a headed one always loses it. */
  lemma SafeExactly(cfg: Config, hash: Hash, s: State, ticks: seq<Tick>)
    ensures SafeForHeaded(cfg, hash, s, ticks) <==> StillGuarded(cfg, hash, s, ticks)
  {
    hide RunTicks, SerialAt, Serial, WentBack;
    if StillGuarded(cfg, hash, s, ticks) {
      forall more | HeadedLoads(more) ensures !Regressed(cfg, hash, s, ticks + more) {
        forall i: nat, j: nat ensures !WentBack(cfg, hash, s, ticks + more, i, j) {
          GuardedStaysSafe(cfg, hash, s, ticks, more, i, j);
        }
      }
    }
    if SafeForHeaded(cfg, hash, s, ticks) {
      assert HeadedLoads([]) && ticks + [] == ticks;
      if Serial(RunTicks(cfg, hash, s, ticks).last).None? {
        forall i | 0 <= i <= |ticks| ensures SerialAt(cfg, hash, s, ticks, i).None? {
          if SerialAt(cfg, hash, s, ticks, i).Some? {
            SomeSerialSomeFeed(cfg, hash, s, ticks, i);
            var more := UnguardedGoesBack(cfg, hash, s, ticks, i);
          }
        }
      }
    }
  }

  // ---------------------------------------------------------------- freshness

  /** Since the last look that did not degrade, the parse behind the feed is recent. */
  predicate FreshInv(cfg: Config, s: State) {
    s.checked.Some? && !s.degraded ==>
      s.last.Some? && s.parsed.Some? && s.checked.value - s.parsed.value < cfg.rereadEvery
  }

  lemma FreshStep(cfg: Config, hash: Hash, s: State, t: Tick)
    requires FreshInv(cfg, s) && TickOk(t) && cfg.rereadEvery > 0
    ensures var s' := Refresh(cfg, hash, s, t);
            FreshInv(cfg, s') && s'.checked.Some? && t.entered - s'.checked.value < cfg.statTTL + 1
  {
    hide ReportStaleness, Backwards, Fail, Install;
    var c := s.(checked := Some(t.now));
    ReportKeeps(c, t.agedAt);
    FailKeeps(ReportStaleness(c, t.agedAt));
    if t.load.Ok? {
      var aged := ReportStaleness(c, t.agedAt);
      InstallLast(aged, t.load.value, t, hash);
    }
  }

  lemma ReportKeeps(s: State, at: nat)
    ensures var r := ReportStaleness(s, at);
            r.last == s.last && r.checked == s.checked && r.parsed == s.parsed && r.seen == s.seen
            && r.degraded == s.degraded
  {
  }

  lemma FailKeeps(s: State)
    ensures Fail(s).degraded && Fail(s).checked == s.checked
  {
  }

  /** Where the feed in force and its parse time come from: the load of one look of the run, or
      the state the run began with. */
  ghost predicate ParsedBy(s0: State, ticks: seq<Tick>, s: State) {
    || (s.last == s0.last && s.parsed == s0.parsed)
    || (exists k :: 0 <= k < |ticks| && LoadedBy(ticks[k], s))
  }

  predicate LoadedBy(t: Tick, s: State) {
    t.load.Ok? && s.last == Some(t.load.value) && s.parsed == Some(t.parsedAt)
  }

  lemma ParsedStep(cfg: Config, hash: Hash, s: State, t: Tick)
    ensures var s' := Refresh(cfg, hash, s, t); (s'.last == s.last && s'.parsed == s.parsed) || LoadedBy(t, s')
  {
    hide ReportStaleness, Backwards, Fail, Install;
    var c := s.(checked := Some(t.now));
    var aged := ReportStaleness(c, t.agedAt);
    ReportKeeps(c, t.agedAt);
    FailLast(aged);
    if t.load.Ok? {
      InstallLast(aged, t.load.value, t, hash);
    }
  }

  lemma {:induction false} ParsedRun(cfg: Config, hash: Hash, s: State, ticks: seq<Tick>)
    ensures ParsedBy(s, ticks, RunTicks(cfg, hash, s, ticks))
  {
    hide Refresh, LoadedBy;
    if ticks != [] {
      var front, t := ticks[..|ticks| - 1], ticks[|ticks| - 1];
      var m := RunTicks(cfg, hash, s, front);
      ParsedRun(cfg, hash, s, front);
      ParsedStep(cfg, hash, m, t);
      var s' := Refresh(cfg, hash, m, t);
      if s'.last == m.last && s'.parsed == m.parsed {
        if !(m.last == s.last && m.parsed == s.parsed) {
          var k :| 0 <= k < |front| && LoadedBy(front[k], m);
          LoadedAlike(front[k], m, s');
          assert LoadedBy(ticks[k], s');
        }
      } else {
        assert LoadedBy(ticks[|ticks| - 1], s');
      }
    }
  }

  lemma LoadedAlike(t: Tick, m: State, s': State)
    requires LoadedBy(t, m) && s'.last == m.last && s'.parsed == m.parsed
    ensures LoadedBy(t, s')
  {
  }

  /** At a call entered at time t that is not degraded, the feed in force is exactly what one
      look of the run loaded, or the feed the run began with, and that parse, or that seeding,
      was after t - (statTTL + rereadEvery). */
  lemma FreshWhenNotDegraded(cfg: Config, hash: Hash, s: State, ticks: seq<Tick>)
    requires s.checked.None? && cfg.rereadEvery > 0 && cfg.statTTL > 0 && ticks != []
    requires forall k :: 0 <= k < |ticks| ==> TickOk(ticks[k])
    ensures var s' := RunTicks(cfg, hash, s, ticks);
            var since := ticks[|ticks| - 1].entered - (cfg.statTTL + cfg.rereadEvery);
            !s'.degraded ==>
              && s'.last.Some?
              && ((s'.last == s.last && s.parsed.Some? && s.parsed.value > since) ||
                  (exists k :: 0 <= k < |ticks| && ticks[k].load == Ok(s'.last.value) && ticks[k].parsedAt > since))
  {
    hide Refresh;
    var front, t := ticks[..|ticks| - 1], ticks[|ticks| - 1];
    FreshRun(cfg, hash, s, front);
    var m := RunTicks(cfg, hash, s, front);
    FreshStep(cfg, hash, m, t);
    LookedRecently(cfg, hash, m, t);
    ParsedRun(cfg, hash, s, ticks);
    var s' := RunTicks(cfg, hash, s, ticks);
    if !s'.degraded && !(s'.last == s.last && s'.parsed == s.parsed) {
      var k :| 0 <= k < |ticks| && LoadedBy(ticks[k], s');
      assert ticks[k].load == Ok(s'.last.value) && ticks[k].parsedAt == s'.parsed.value;
    }
  }

  lemma LookedRecently(cfg: Config, hash: Hash, s: State, t: Tick)
    requires TickOk(t) && cfg.statTTL > 0
    ensures var s' := Refresh(cfg, hash, s, t); s'.checked.Some? && t.entered - s'.checked.value < cfg.statTTL
  {
    hide ReportStaleness, Backwards, Fail, Install;
    var aged := ReportStaleness(s.(checked := Some(t.now)), t.agedAt);
    ReportKeeps(s.(checked := Some(t.now)), t.agedAt);
    FailLast(aged);
    if t.load.Ok? { InstallLast(aged, t.load.value, t, hash); }
  }

  lemma {:induction false} FreshRun(cfg: Config, hash: Hash, s: State, ticks: seq<Tick>)
    requires s.checked.None? && cfg.rereadEvery > 0 && forall k :: 0 <= k < |ticks| ==> TickOk(ticks[k])
    ensures FreshInv(cfg, RunTicks(cfg, hash, s, ticks))
  {
    hide Refresh, FreshInv;
    if ticks != [] {
      FreshRun(cfg, hash, s, ticks[..|ticks| - 1]);
      FreshStep(cfg, hash, RunTicks(cfg, hash, s, ticks[..|ticks| - 1]), ticks[|ticks| - 1]);
    } else {
      assert FreshInv(cfg, s) by { NotYetChecked(cfg, s); }
    }
  }

  lemma NotYetChecked(cfg: Config, s: State)
    requires s.checked.None?
    ensures FreshInv(cfg, s)
  {
  }

  // ---------------------------------------------------------------- the log alternates

  predicate Opens(e: Event) {
    e.Failed?
  }

  predicate Closes(e: Event) {
    e.Reloaded? && e.recovered
  }

  /** Reading the log as failures and recoveries: whether a failure is open at its end, or
      None if two failures, or two recoveries, follow each other. */
  function FailureOpen(log: seq<Event>): Option<bool> {
    if log == [] then Some(false)
    else
      var before, e := FailureOpen(log[..|log| - 1]), log[|log| - 1];
      if before.None? then None
      else if Opens(e) then (if before.value then None else Some(true))
      else if Closes(e) then (if before.value then Some(false) else None)
      else before
  }

  /** The same for "is too old" and "is current again". */
  function StaleOpen(log: seq<Event>): Option<bool> {
    if log == [] then Some(false)
    else
      var before, e := StaleOpen(log[..|log| - 1]), log[|log| - 1];
      if before.None? then None
      else if e.Stale? then (if before.value then None else Some(true))
      else if e.Current? then (if before.value then Some(false) else None)
      else before
  }

  predicate LogInv(s: State) {
    FailureOpen(s.log) == Some(s.degraded) && StaleOpen(s.log) == Some(s.staleLogged)
  }

  lemma LogAppends(log: seq<Event>, e: Event)
    requires FailureOpen(log).Some? && StaleOpen(log).Some?
    ensures Opens(e) && !FailureOpen(log).value ==> FailureOpen(log + [e]) == Some(true)
    ensures Closes(e) && FailureOpen(log).value ==> FailureOpen(log + [e]) == Some(false)
    ensures !Opens(e) && !Closes(e) ==> FailureOpen(log + [e]) == FailureOpen(log)
    ensures e.Stale? && !StaleOpen(log).value ==> StaleOpen(log + [e]) == Some(true)
    ensures e.Current? && StaleOpen(log).value ==> StaleOpen(log + [e]) == Some(false)
    ensures !e.Stale? && !e.Current? ==> StaleOpen(log + [e]) == StaleOpen(log)
  {
    assert (log + [e])[..|log + [e]| - 1] == log;
  }

  lemma StalenessKeepsLog(s: State, at: nat, degraded: bool)
    requires LogInv(s.(degraded := degraded))
    ensures LogInv(ReportStaleness(s, at).(degraded := degraded))
    ensures ReportStaleness(s, at).degraded == s.degraded
  {
    hide FailureOpen, StaleOpen;
    LogAppends(s.log, Stale);
    LogAppends(s.log, Current);
  }

  lemma FailKeepsLog(s: State)
    requires LogInv(s)
    ensures LogInv(Fail(s))
  {
    hide FailureOpen, StaleOpen;
    LogAppends(s.log, Failed(s.last.Some?));
  }

  lemma InstallKeepsLog(s: State, next: Feed, t: Tick, hash: Hash)
    requires LogInv(s)
    ensures LogInv(Install(s, next, t, hash))
  {
    hide FailureOpen, StaleOpen, ReportStaleness;
    var placed := Placed(s, next, t);
    assert LogInv(placed.(degraded := s.degraded));
    StalenessKeepsLog(placed, t.againAt, s.degraded);
    var aged := ReportStaleness(placed, t.againAt);
    LogAppends(aged.log, Reloaded(s.degraded));
    InstallEnds(s, next, t, hash, aged);
  }

  lemma InstallEnds(s: State, next: Feed, t: Tick, hash: Hash, aged: State)
    requires aged == ReportStaleness(Placed(s, next, t), t.againAt)
    ensures var r := Install(s, next, t, hash);
            r == Log(aged, Reloaded(s.degraded)) || (!s.degraded && r == aged)
  {
    hide ReportStaleness;
  }

  lemma RefreshKeepsLog(cfg: Config, hash: Hash, s: State, t: Tick)
    requires LogInv(s)
    ensures LogInv(Refresh(cfg, hash, s, t))
  {
    hide FailureOpen, StaleOpen, ReportStaleness, Install, Fail, Backwards;
    var c := s.(checked := Some(t.now));
    assert c.(degraded := s.degraded) == c;
    StalenessKeepsLog(c, t.agedAt, s.degraded);
    var aged := ReportStaleness(c, t.agedAt);
    assert aged.(degraded := s.degraded) == aged;
    FailKeepsLog(aged);
    if t.load.Ok? { InstallKeepsLog(aged, t.load.value, t, hash); }
  }

  /** Over any run, failure and recovery lines strictly alternate, as do the stale and
      current lines, each starting with the bad news. */
  lemma {:induction false} LinesAlternate(cfg: Config, hash: Hash, first: Option<Feed>, stat: Option<Stat>, now: nat,
      ticks: seq<Tick>)
    ensures var s := RunTicks(cfg, hash, Seeded(first, stat, now), ticks);
            FailureOpen(s.log) == Some(s.degraded) && StaleOpen(s.log) == Some(s.staleLogged)
  {
    if ticks != [] {
      LinesAlternate(cfg, hash, first, stat, now, ticks[..|ticks| - 1]);
      hide FailureOpen, StaleOpen, Refresh;
      RefreshKeepsLog(cfg, hash, RunTicks(cfg, hash, Seeded(first, stat, now), ticks[..|ticks| - 1]),
        ticks[|ticks| - 1]);
    }
  }
}
