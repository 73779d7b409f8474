/** policy.go: ordered rulesets, decided by the first match, with an implicit terminal block. */
module Policy {

  datatype DenyKind = NoKind | Score | Human | Unscorable | Unverified | KnownMalware | OperatorDenied | ReleaseWindow

  datatype Action = Allow | AllowLog | Reject

  datatype PathKind = NotClassified | ControlPlanePath | UnknownPath

  datatype Facts = Facts(allowed: bool, deny: DenyKind, kind: PathKind)

  datatype Rule = Rule(matches: Facts -> bool, action: Action)

  /** First match wins; nothing matching is a block. */
  function Decide(rules: seq<Rule>, f: Facts): Action {
    if rules == [] then Reject
    else if rules[0].matches(f) then rules[0].action
    else Decide(rules[1..], f)
  }

  method DecideLoop(rules: seq<Rule>, f: Facts) returns (a: Action)
    ensures a == Decide(rules, f)
  {
    assert rules[0..] == rules;
    for i := 0 to |rules|
      invariant Decide(rules, f) == Decide(rules[i..], f)
    {
      assert rules[i..][1..] == rules[i + 1..];
      if rules[i].matches(f) {
        return rules[i].action;
      }
    }
    a := Reject;
  }

  /** An allow always has a line of policy behind it, and no earlier line says otherwise. */
  lemma {:induction false} AllowNeedsARule(rules: seq<Rule>, f: Facts)
    ensures Decide(rules, f) != Reject ==>
              exists i :: 0 <= i < |rules| && rules[i].matches(f) && rules[i].action == Decide(rules, f)
                          && forall j :: 0 <= j < i ==> !rules[j].matches(f)
  {
    if rules != [] && !rules[0].matches(f) && Decide(rules, f) != Reject {
      AllowNeedsARule(rules[1..], f);
      var i :| 0 <= i < |rules[1..]| && rules[1..][i].matches(f) && rules[1..][i].action == Decide(rules[1..], f)
               && forall j :: 0 <= j < i ==> !rules[1..][j].matches(f);
      assert rules[i + 1].matches(f) && forall j :: 0 < j < i + 1 ==> rules[j] == rules[1..][j - 1];
    }
  }

  // ---------------------------------------------------------------- the byte gate

  datatype Mode = Off | AllowButLog | Enforce

  /** byteGateMode: a typo is the default, never off. */
  function ByteGateMode(v: string): Mode {
    if v == "off" then Off else if v == "enforce" then Enforce else AllowButLog
  }

  /** A positive finding about the package, rather than an absence of trust. */
  predicate HardDeny(allowed: bool, kind: DenyKind) {
    !allowed && (kind == Score || kind == Human || kind == KnownMalware || kind == OperatorDenied)
  }

  function ByteGateRules(mode: Mode): seq<Rule> {
    match mode
    case Off => [Rule((f: Facts) => true, Allow)]
    case Enforce => [Rule((f: Facts) => f.allowed, Allow), Rule((f: Facts) => true, Reject)]
    case AllowButLog => [Rule((f: Facts) => HardDeny(f.allowed, f.deny), Reject), Rule((f: Facts) => true, AllowLog)]
  }

  /** What the byte gate refuses: nothing when off, every refusal under enforce, and otherwise
      exactly the positive findings. */
  lemma ByteGateRefuses(mode: Mode, f: Facts)
    ensures Decide(ByteGateRules(mode), f) == Reject <==>
              (mode == Enforce && !f.allowed) || (mode == AllowButLog && HardDeny(f.allowed, f.deny))
  {
    var rules := ByteGateRules(mode);
    if |rules| == 2 {
      assert rules[1..] == [rules[1]];
    }
    assert |rules| == 2 ==> Decide(rules[1..], f) == rules[1].action;
  }

  /** The setting as the operator writes it: only "off" turns the gate off, only "enforce" makes
      it refuse everything not allowed, and anything else, a typo included, refuses exactly the
      positive findings. */
  lemma ByteGateSetting(v: string, f: Facts)
    ensures Decide(ByteGateRules(ByteGateMode(v)), f) == Reject <==>
              if v == "enforce" then !f.allowed else v != "off" && HardDeny(f.allowed, f.deny)
  {
    ByteGateRefuses(ByteGateMode(v), f);
    hide Decide, ByteGateRules;
  }

  // ---------------------------------------------------------------- unidentified paths

  datatype UnknownPolicy = BlockUnknown | LogUnknown | AllowUnknown

  /** unknownPathPolicy: anything unrecognised blocks. */
  function UnknownPathPolicy(v: string): UnknownPolicy {
    if v == "allow-but-log" then LogUnknown else if v == "allow" then AllowUnknown else BlockUnknown
  }

  function ClassificationRules(policy: UnknownPolicy): seq<Rule> {
    [Rule((f: Facts) => f.kind == ControlPlanePath, Allow),
     Rule((f: Facts) => f.kind == UnknownPath && policy != BlockUnknown,
          if policy == AllowUnknown then Allow else AllowLog)]
  }

  /** A path that names no package is relayed exactly when it is an enumerated control-plane
      path or the operator asked for unknown ones; under any unrecognised setting it is not. */
  lemma UnidentifiedRelayed(v: string, f: Facts)
    ensures Decide(ClassificationRules(UnknownPathPolicy(v)), f) != Reject <==>
              f.kind == ControlPlanePath || (f.kind == UnknownPath && (v == "allow" || v == "allow-but-log"))
  {
    var rules := ClassificationRules(UnknownPathPolicy(v));
    assert rules[1..] == [rules[1]];
    assert [rules[1]][1..] == [];
    assert Decide([rules[1]], f) == if rules[1].matches(f) then rules[1].action else Reject;
  }
}
