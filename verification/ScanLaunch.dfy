/** firewall.go, the re-check after the claim: exactly which histories of the two score caches
    let a request launch a scan. A history is a sequence of environment steps; a request's own
    steps fall anywhere between them. */
module ScanLaunch {
  import opened GoStrings
  import opened ScanSlot

  // ---------------------------------------------------------------- cache histories

  /** A step that only touches the caches or the clock. */
  predicate IsEnvironment(l: Label) {
    l.DropL1? || l.Elapse? || l.L2Outage? || l.L2Recovery? || l.WriteL2? || l.DropL2? || l.ScanOutsideSlot?
  }

  predicate History(env: seq<Label>) {
    forall k :: 0 <= k < |env| ==> IsEnvironment(env[k])
  }

  predicate SameCaches(s: State, s': State) {
    s'.l1 == s.l1 && s'.l2 == s.l2 && s'.l2Up == s.l2Up && s'.now == s.now
  }

  /** The state after the first n steps of a history that nobody interrupts. */
  function After(s: State, ttl: nat, env: seq<Label>, n: nat): State
    requires History(env) && n <= |env|
    decreases n
  {
    if n == 0 then s else After(Next(s, ttl, env[0]), ttl, env[1..], n - 1)
  }

  // ---------------------------------------------------------------- schedules

  /** The environment's part of a schedule. */
  function EnvironmentOf(labels: seq<Label>): (env: seq<Label>)
    ensures History(env)
  {
    if labels == [] then []
    else (if IsEnvironment(labels[0]) then [labels[0]] else []) + EnvironmentOf(labels[1..])
  }

  /** A schedule of request t and the environment that ends with t launching a scan. */
  ghost predicate EndsInLaunch(s: State, ttl: nat, t: Tid, labels: seq<Label>)
    decreases |labels|
  {
    && labels != [] && Enabled(s, labels[0])
    && if labels[0] == StartScan(t) then |labels| == 1
       else (labels[0] == Advance(t) || IsEnvironment(labels[0]))
            && EndsInLaunch(Next(s, ttl, labels[0]), ttl, t, labels[1..])
  }

  /** Some interleaving of t's own steps with this history makes t launch a scan. */
  ghost predicate CanLaunch(s: State, ttl: nat, t: Tid, env: seq<Label>) {
    exists labels :: EnvironmentOf(labels) == env && EndsInLaunch(s, ttl, t, labels)
  }

  // ---------------------------------------------------------------- the reads that have to miss

  datatype Level = L1 | L2

  predicate Misses(s: State, ttl: nat, r: Repo, level: Level) {
    match level
    case L1 => !InL1(s, r)
    case L2 => !InL2(s, ttl, r)
  }

  /** The cache reads a request still has to make, all in vain, before it launches: the first
      resolution reads each cache once, and the re-check behind the slot once more. */
  function Reads(pc: RequestPC): Option<seq<Level>> {
    match pc
    case ReadL1 => Some([L1, L2, L1, L2])
    case ReadL2 => Some([L2, L1, L2])
    case Begin => Some([L1, L2])
    case ReReadL1 => Some([L1, L2])
    case ReReadL2 => Some([L2])
    case Launch => Some([])
    case _ => None
  }

  /** The history has a moment for each read, none earlier than the one before, at which they miss. */
  predicate MissInTurn(s: State, ttl: nat, r: Repo, left: seq<Level>, env: seq<Label>)
    requires History(env)
    decreases |left| + |env|
  {
    || left == []
    || (Misses(s, ttl, r, left[0]) && MissInTurn(s, ttl, r, left[1..], env))
    || (env != [] && MissInTurn(Next(s, ttl, env[0]), ttl, r, left, env[1..]))
  }

  // ---------------------------------------------------------------- one step

  lemma EnvironmentStep(s: State, s': State, ttl: nat, l: Label)
    requires IsEnvironment(l)
    ensures Enabled(s, l) && Next(s, ttl, l).requests == s.requests && Next(s, ttl, l).running == s.running
    ensures SameCaches(s, s') ==> SameCaches(Next(s, ttl, l), Next(s', ttl, l))
  {
  }

  /** A request goes on to its next read exactly when this one misses; off the way it stays. */
  lemma WayStep(s: State, ttl: nat, r: Repo, pc: RequestPC)
    ensures Reads(pc).None? ==> Reads(NextPC(s, ttl, r, pc)).None?
    ensures pc.Begin? ==> NextPC(s, ttl, r, pc) == if r in s.running then Returned(Pending) else ReReadL1
    ensures Reads(pc).Some? && !pc.Begin? && !pc.Launch? ==>
              Reads(NextPC(s, ttl, r, pc)) ==
              if Misses(s, ttl, r, Reads(pc).value[0]) then Some(Reads(pc).value[1..]) else None
  {
    hide L2View;
  }

  /** On the way a request's step writes no cache, and takes no slot but at the claim. */
  lemma WayWrites(s: State, ttl: nat, t: Tid)
    requires Enabled(s, Advance(t)) && Reads(s.requests[t].pc).Some?
    ensures var s', Request(r, pc) := Next(s, ttl, Advance(t)), s.requests[t];
            && SameCaches(s, s') && t in s'.requests && s'.requests[t] == Request(r, NextPC(s, ttl, r, pc))
            && (!pc.Begin? ==> s'.running == s.running)
  {
    hide NextPC;
  }

  lemma MissHere(s: State, ttl: nat, r: Repo, left: seq<Level>, env: seq<Label>)
    requires History(env) && left != []
    requires Misses(s, ttl, r, left[0]) && MissInTurn(s, ttl, r, left[1..], env)
    ensures MissInTurn(s, ttl, r, left, env)
  {
  }

  lemma MissLater(s: State, ttl: nat, r: Repo, left: seq<Level>, l: Label, env: seq<Label>)
    requires IsEnvironment(l) && History(env) && MissInTurn(Next(s, ttl, l), ttl, r, left, env)
    ensures History([l] + env) && MissInTurn(s, ttl, r, left, [l] + env)
  {
    assert ([l] + env)[1..] == env;
    hide Next, Misses;
  }

  /** Only the caches matter to a history. */
  lemma {:induction false} MissSame(s: State, s': State, ttl: nat, r: Repo, left: seq<Level>, env: seq<Label>)
    requires History(env) && SameCaches(s, s') && MissInTurn(s, ttl, r, left, env)
    ensures MissInTurn(s', ttl, r, left, env)
    decreases |left| + |env|
  {
    hide Next, Misses, SameCaches;
    if left != [] {
      MissesSame(s, s', ttl, r, left[0]);
      if Misses(s, ttl, r, left[0]) && MissInTurn(s, ttl, r, left[1..], env) {
        MissSame(s, s', ttl, r, left[1..], env);
      } else {
        EnvironmentStep(s, s', ttl, env[0]);
        MissSame(Next(s, ttl, env[0]), Next(s', ttl, env[0]), ttl, r, left, env[1..]);
      }
    }
  }

  lemma MissesSame(s: State, s': State, ttl: nat, r: Repo, level: Level)
    requires SameCaches(s, s')
    ensures Misses(s, ttl, r, level) == Misses(s', ttl, r, level)
  {
  }

  // ---------------------------------------------------------------- exactly when a launch is possible

  /** A step of t's own, seen from the reads it still had and the reads it has left after. */
  lemma AdvanceMissed(s: State, ttl: nat, t: Tid, r: Repo, env: seq<Label>)
    requires Enabled(s, Advance(t)) && s.requests[t].repo == r && History(env)
    requires var s' := Next(s, ttl, Advance(t));
             t in s'.requests && Reads(s'.requests[t].pc).Some?
             && MissInTurn(s', ttl, r, Reads(s'.requests[t].pc).value, env)
    ensures Reads(s.requests[t].pc).Some? && MissInTurn(s, ttl, r, Reads(s.requests[t].pc).value, env)
  {
    var s', pc := Next(s, ttl, Advance(t)), s.requests[t].pc;
    AdvanceShape(s, ttl, t);
    WayStep(s, ttl, r, pc);
    WayWrites(s, ttl, t);
    var left := Reads(s'.requests[t].pc).value;
    MissSame(s', s, ttl, r, left, env);
    if !pc.Begin? {
      MissHere(s, ttl, r, Reads(pc).value, env);
    }
  }

  /** A schedule that ends in a launch has missed every read the request had left. */
  lemma {:induction false} LaunchMissed(s: State, ttl: nat, t: Tid, r: Repo, labels: seq<Label>)
    requires t in s.requests && s.requests[t].repo == r && EndsInLaunch(s, ttl, t, labels)
    ensures var left := Reads(s.requests[t].pc);
            left.Some? && MissInTurn(s, ttl, r, left.value, EnvironmentOf(labels))
    decreases |labels|
  {
    hide Next, NextPC, Misses, SameCaches, MissInTurn;
    var l, rest := labels[0], labels[1..];
    if IsEnvironment(l) {
      EnvironmentStep(s, s, ttl, l);
      LaunchMissed(Next(s, ttl, l), ttl, t, r, rest);
      MissLater(s, ttl, r, Reads(s.requests[t].pc).value, l, EnvironmentOf(rest));
    } else if l == Advance(t) {
      RequestStays(s, ttl, t);
      LaunchMissed(Next(s, ttl, l), ttl, t, r, rest);
      AdvanceMissed(s, ttl, t, r, EnvironmentOf(rest));
      assert EnvironmentOf(labels) == EnvironmentOf(rest);
    } else {
      NothingLeft(s, ttl, r, EnvironmentOf(labels));
    }
  }

  lemma RequestStays(s: State, ttl: nat, t: Tid)
    requires Enabled(s, Advance(t))
    ensures var s' := Next(s, ttl, Advance(t)); t in s'.requests && s'.requests[t].repo == s.requests[t].repo
  {
    AdvanceShape(s, ttl, t);
    hide AdvanceRequest;
  }

  lemma NothingLeft(s: State, ttl: nat, r: Repo, env: seq<Label>)
    requires History(env)
    ensures MissInTurn(s, ttl, r, [], env)
  {
  }

  /** How many steps of its own a request on the way is from its launch. */
  function Distance(pc: RequestPC): nat {
    match pc
    case ReadL1 => 5 case ReadL2 => 4 case Begin => 3 case ReReadL1 => 2 case ReReadL2 => 1 case _ => 0
  }

  /** And if the reads left can miss in turn, some schedule launches: the request holds still
      until the next read misses. */
  lemma {:induction false} FindLaunch(s: State, ttl: nat, t: Tid, r: Repo, env: seq<Label>) returns (labels: seq<Label>)
    requires t in s.requests && s.requests[t].repo == r && Reads(s.requests[t].pc).Some?
    requires HoldsSlot(s.requests[t].pc) || r !in s.running
    requires History(env) && MissInTurn(s, ttl, r, Reads(s.requests[t].pc).value, env)
    ensures EnvironmentOf(labels) == env && EndsInLaunch(s, ttl, t, labels)
    decreases |env|, Distance(s.requests[t].pc)
  {
    hide Next, NextPC, Misses, SameCaches;
    var pc := s.requests[t].pc;
    var left := Reads(pc).value;
    if pc.Launch? && env == [] {
      labels := [StartScan(t)];
      assert labels[1..] == [];
    } else if pc.Begin? || (left != [] && Misses(s, ttl, r, left[0]) && MissInTurn(s, ttl, r, left[1..], env)) {
      var s' := Next(s, ttl, Advance(t));
      StepToLaunch(s, ttl, t, r, env);
      var rest := FindLaunch(s', ttl, t, r, env);
      labels := [Advance(t)] + rest;
      assert labels[1..] == rest;
    } else {
      EnvironmentStep(s, s, ttl, env[0]);
      if pc.Launch? { NothingLeft(Next(s, ttl, env[0]), ttl, r, env[1..]); }
      var rest := FindLaunch(Next(s, ttl, env[0]), ttl, t, r, env[1..]);
      labels := [env[0]] + rest;
      assert labels[1..] == rest;
      assert [env[0]] + env[1..] == env;
    }
  }

  lemma StepToLaunch(s: State, ttl: nat, t: Tid, r: Repo, env: seq<Label>)
    requires t in s.requests && s.requests[t].repo == r && Reads(s.requests[t].pc).Some? && !s.requests[t].pc.Launch?
    requires HoldsSlot(s.requests[t].pc) || r !in s.running
    requires var left := Reads(s.requests[t].pc).value;
             && History(env)
             && if s.requests[t].pc.Begin? then MissInTurn(s, ttl, r, left, env)
                else Misses(s, ttl, r, left[0]) && MissInTurn(s, ttl, r, left[1..], env)
    ensures Enabled(s, Advance(t))
    ensures var s', pc := Next(s, ttl, Advance(t)), s.requests[t].pc;
            && t in s'.requests && s'.requests[t].repo == r && Reads(s'.requests[t].pc).Some?
            && (HoldsSlot(s'.requests[t].pc) || r !in s'.running)
            && MissInTurn(s', ttl, r, Reads(s'.requests[t].pc).value, env)
            && Distance(s'.requests[t].pc) < Distance(pc)
  {
    var s', pc := Next(s, ttl, Advance(t)), s.requests[t].pc;
    WayStep(s, ttl, r, pc);
    WayWrites(s, ttl, t);
    NextHolds(s, ttl, r, pc);
    hide Next, Misses, SameCaches, NextPC;
    MissSame(s, s', ttl, r, if pc.Begin? then Reads(pc).value else Reads(pc).value[1..], env);
  }

  /** A request on its way to a launch can launch along a history of the caches if and only if
      the reads it still has to make can miss in turn. Before its claim it needs the slot free. */
  lemma LaunchExactly(s: State, ttl: nat, t: Tid, r: Repo, env: seq<Label>)
    requires t in s.requests && s.requests[t].repo == r && Reads(s.requests[t].pc).Some?
    requires HoldsSlot(s.requests[t].pc) || r !in s.running
    requires History(env)
    ensures CanLaunch(s, ttl, t, env) <==> MissInTurn(s, ttl, r, Reads(s.requests[t].pc).value, env)
  {
    hide EndsInLaunch, MissInTurn, EnvironmentOf, Reads;
    if CanLaunch(s, ttl, t, env) {
      var labels :| EnvironmentOf(labels) == env && EndsInLaunch(s, ttl, t, labels);
      LaunchMissed(s, ttl, t, r, labels);
    }
    if MissInTurn(s, ttl, r, Reads(s.requests[t].pc).value, env) {
      var labels := FindLaunch(s, ttl, t, r, env);
    }
  }

  // ---------------------------------------------------------------- two moments of the history

  lemma {:induction false} MissOnceAt(s: State, ttl: nat, r: Repo, level: Level, env: seq<Label>) returns (d: nat)
    requires History(env) && MissInTurn(s, ttl, r, [level], env)
    ensures d <= |env| && Misses(After(s, ttl, env, d), ttl, r, level)
    decreases |env|
  {
    hide Next, Misses;
    d := 0;
    if !Misses(s, ttl, r, level) {
      var n := MissOnceAt(Next(s, ttl, env[0]), ttl, r, level, env[1..]);
      d := n + 1;
    }
  }

  lemma {:induction false} MissOnceFrom(s: State, ttl: nat, r: Repo, level: Level, env: seq<Label>, d: nat)
    requires History(env) && d <= |env| && Misses(After(s, ttl, env, d), ttl, r, level)
    ensures MissInTurn(s, ttl, r, [level], env)
    decreases d
  {
    hide Next, Misses;
    if d == 0 {
      NothingLeft(s, ttl, r, env);
    } else {
      MissOnceFrom(Next(s, ttl, env[0]), ttl, r, level, env[1..], d - 1);
    }
  }

  lemma {:induction false} MissTwiceAt(s: State, ttl: nat, r: Repo, env: seq<Label>) returns (c: nat, d: nat)
    requires History(env) && MissInTurn(s, ttl, r, [L1, L2], env)
    ensures c <= d <= |env| && Misses(After(s, ttl, env, c), ttl, r, L1) && Misses(After(s, ttl, env, d), ttl, r, L2)
    decreases |env|
  {
    hide Next, Misses;
    assert [L1, L2][1..] == [L2];
    if Misses(s, ttl, r, L1) && MissInTurn(s, ttl, r, [L2], env) {
      c := 0;
      d := MissOnceAt(s, ttl, r, L2, env);
    } else {
      var m, n := MissTwiceAt(Next(s, ttl, env[0]), ttl, r, env[1..]);
      c, d := m + 1, n + 1;
    }
  }

  lemma {:induction false} MissTwiceFrom(s: State, ttl: nat, r: Repo, env: seq<Label>, c: nat, d: nat)
    requires History(env) && c <= d <= |env|
    requires Misses(After(s, ttl, env, c), ttl, r, L1) && Misses(After(s, ttl, env, d), ttl, r, L2)
    ensures MissInTurn(s, ttl, r, [L1, L2], env)
    decreases c
  {
    hide Next, Misses;
    assert [L1, L2][1..] == [L2];
    if c == 0 {
      MissOnceFrom(s, ttl, r, L2, env, d);
    } else {
      MissTwiceFrom(Next(s, ttl, env[0]), ttl, r, env[1..], c - 1, d - 1);
    }
  }

  /** A request waiting for its claim, its own reads behind it, can launch along a history of the
      caches if and only if at one moment of the history L1 holds no result and at that moment
      or a later one L2 shows none. */
  lemma WaitingLaunchExactly(s: State, ttl: nat, t: Tid, r: Repo, env: seq<Label>)
    requires AtPC(s, t, r, Begin) && r !in s.running && History(env)
    ensures CanLaunch(s, ttl, t, env) <==>
            exists c, d :: 0 <= c <= d <= |env| &&
              !InL1(After(s, ttl, env, c), r) && !InL2(After(s, ttl, env, d), ttl, r)
  {
    LaunchExactly(s, ttl, t, r, env);
    hide CanLaunch, MissInTurn, After, InL1, InL2;
    if CanLaunch(s, ttl, t, env) {
      var c, d := MissTwiceAt(s, ttl, r, env);
    }
    forall c, d | 0 <= c <= d <= |env| && !InL1(After(s, ttl, env, c), r) && !InL2(After(s, ttl, env, d), ttl, r)
      ensures CanLaunch(s, ttl, t, env)
    {
      MissTwiceFrom(s, ttl, r, env, c, d);
    }
  }

  // ---------------------------------------------------------------- the histories that runs have

  /** The environment step that does to the caches what a step of a run does. */
  function Echo(s: State, l: Label): Label
    requires Enabled(s, l)
  {
    match l
    case Advance(t) => RequestEcho(s.requests[t].repo, s.requests[t].pc)
    case Write(t, ok) =>
      var Scan(r, pc) := s.scans[t];
      if pc.PutL1? then ScanOutsideSlot(r, Some(pc.score))
      else if ok then WriteL2(r, Row(pc.row, Some(s.now)))
      else Elapse(0)
    case _ => if IsEnvironment(l) then l else Elapse(0)
  }

  /** A request writes a cache only when it warms L1. */
  function RequestEcho(r: Repo, pc: RequestPC): Label {
    match pc
    case WarmL1(sc) => ScanOutsideSlot(r, Some(sc))
    case ReWarmL1(sc) => ScanOutsideSlot(r, Some(sc))
    case _ => Elapse(0)
  }

  lemma EchoSame(s: State, x: State, ttl: nat, l: Label)
    requires Enabled(s, l) && SameCaches(s, x)
    ensures IsEnvironment(Echo(s, l)) && SameCaches(Next(s, ttl, l), Next(x, ttl, Echo(s, l)))
  {
    hide AdvanceRequest, WriteScan, RequestEcho;
    match l
    case Advance(t) => AdvanceEcho(s, x, ttl, t);
    case Write(t, ok) => WriteEcho(s, x, ttl, t, ok);
    case _ =>
  }

  lemma AdvanceEcho(s: State, x: State, ttl: nat, t: Tid)
    requires Enabled(s, Advance(t)) && SameCaches(s, x)
    ensures var l := Echo(s, Advance(t)); IsEnvironment(l) && SameCaches(AdvanceRequest(s, ttl, t), Next(x, ttl, l))
  {
    WritesEcho(s, x, ttl, s.requests[t].repo, s.requests[t].pc);
    hide NextPC, Writes, RequestEcho, Next;
  }

  lemma WritesEcho(s: State, x: State, ttl: nat, r: Repo, pc: RequestPC)
    requires SameCaches(s, x)
    ensures var l := RequestEcho(r, pc);
            && IsEnvironment(l) && SameCaches(Writes(s, r, pc), Next(x, ttl, l))
            && Writes(s, r, pc).requests == s.requests
  {
  }

  lemma WriteEcho(s: State, x: State, ttl: nat, t: Tid, ok: bool)
    requires Enabled(s, Write(t, ok)) && SameCaches(s, x)
    ensures var l := Write(t, ok);
            IsEnvironment(Echo(s, l)) && SameCaches(WriteScan(s, t, ok), Next(x, ttl, Echo(s, l)))
  {
  }

  /** What the steps i to j of a run do to the caches, whoever takes them. */
  ghost function Echoes(states: seq<State>, labels: seq<Label>, ttl: nat, i: nat, j: nat): (env: seq<Label>)
    requires Run(states, labels, ttl) && i <= j < |states|
    ensures |env| == j - i && History(env)
    decreases j - i
  {
    if i == j then []
    else
      EchoSame(states[i], states[i], ttl, labels[i]);
      [Echo(states[i], labels[i])] + Echoes(states, labels, ttl, i + 1, j)
  }

  lemma {:induction false} EchoesSame(states: seq<State>, labels: seq<Label>, ttl: nat, i: nat, j: nat, n: nat,
      x: State)
    requires Run(states, labels, ttl) && i <= n <= j < |states| && SameCaches(states[i], x)
    ensures SameCaches(states[n], After(x, ttl, Echoes(states, labels, ttl, i, j), n - i))
    decreases n - i
  {
    hide Next, SameCaches, Echo;
    if i < n {
      var env := Echoes(states, labels, ttl, i, j);
      EchoSame(states[i], x, ttl, labels[i]);
      EchoesSame(states, labels, ttl, i + 1, j, n, Next(x, ttl, env[0]));
      assert env[1..] == Echoes(states, labels, ttl, i + 1, j);
    }
  }

  /** At step n of a run and of its echo the caches answer alike for r. */
  lemma EchoAt(states: seq<State>, labels: seq<Label>, ttl: nat, i: nat, j: nat, n: nat, r: Repo)
    requires Run(states, labels, ttl) && i <= n <= j < |states|
    ensures var x := After(states[i], ttl, Echoes(states, labels, ttl, i, j), n - i);
            InL1(x, r) == InL1(states[n], r) && InL2(x, ttl, r) == InL2(states[n], ttl, r)
  {
    EchoesSame(states, labels, ttl, i, j, n, states[i]);
  }

  lemma LaunchEchoes(states: seq<State>, labels: seq<Label>, ttl: nat, i: nat, j: nat, t: Tid, r: Repo)
    returns (c: nat, d: nat)
    requires Run(states, labels, ttl) && i <= j < |states| && AtPC(states[i], t, r, Begin) && r !in states[i].running
    requires CanLaunch(states[i], ttl, t, Echoes(states, labels, ttl, i, j))
    ensures i <= c <= d <= j && !InL1(states[c], r) && !InL2(states[d], ttl, r)
  {
    hide *;
    var s, env := states[i], Echoes(states, labels, ttl, i, j);
    WaitingLaunchExactly(s, ttl, t, r, env);
    var m: nat, n: nat :| m <= n <= |env| && !InL1(After(s, ttl, env, m), r) && !InL2(After(s, ttl, env, n), ttl, r);
    c, d := i + m, i + n;
    EchoAt(states, labels, ttl, i, j, c, r);
    EchoAt(states, labels, ttl, i, j, d, r);
  }

  /** The two misses are all that the caches can say: along what any run does to them from step i
      to step j, a request waiting at step i can launch if and only if L1 holds no result at some
      moment and L2 shows none at that moment or later. */
  lemma RunPermitsLaunchExactly(states: seq<State>, labels: seq<Label>, ttl: nat, i: nat, j: nat, t: Tid, r: Repo)
    requires Run(states, labels, ttl) && i <= j < |states| && AtPC(states[i], t, r, Begin) && r !in states[i].running
    ensures CanLaunch(states[i], ttl, t, Echoes(states, labels, ttl, i, j)) <==>
            exists c, d :: i <= c <= d <= j && !InL1(states[c], r) && !InL2(states[d], ttl, r)
  {
    hide *;
    if CanLaunch(states[i], ttl, t, Echoes(states, labels, ttl, i, j)) {
      var c, d := LaunchEchoes(states, labels, ttl, i, j, t, r);
    }
    if c, d :| i <= c <= d <= j && !InL1(states[c], r) && !InL2(states[d], ttl, r) {
      EchoAt(states, labels, ttl, i, j, c, r);
      EchoAt(states, labels, ttl, i, j, d, r);
      WaitingLaunchExactly(states[i], ttl, t, r, Echoes(states, labels, ttl, i, j));
    }
  }
}
