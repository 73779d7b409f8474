/** firewall.go, npmpackument.go and proxy.go: how advisories, the operator's allow and deny
    lists, unknown versions and the byte gate combine at every control point. The scoring half
    of Evaluate is an arbitrary answer. */
module Verdicts {
  import opened GoStrings
  import opened Policy
  import K = PackageKeys
  import L = OperatorList
  import M = MalwareFeed
  import O = OciIdentity

  // ---------------------------------------------------------------- inputs

  datatype Eco = Npm | Pypi | Oci | Maven {
    function Name(): string {
      match this
      case Npm => "npm"
      case Pypi => "pypi"
      case Oci => "oci"
      case Maven => "maven"
    }
  }

  /** The feed and the two lists in force; one that is not configured is empty. */
  datatype Config = Config(eco: Eco, feed: M.Feed, allow: L.List, deny: L.List)

  /** Pending and Unavailable are not verdicts: nothing was decided. */
  datatype Decision = Allowed(override: bool) | Denied(kind: DenyKind) | Pending | Unavailable

  // ---------------------------------------------------------------- lookups

  predicate WideAdvisory(c: Config, name: string) {
    M.LookupAll(c.feed, c.eco.Name(), name).Some?
  }

  predicate PinAdvisory(c: Config, name: string, v: string) {
    M.PinnedFor(c.feed, c.eco.Name(), name, v).Some?
  }

  predicate AnyPin(c: Config, name: string) {
    M.HasPinned(c.feed, c.eco.Name(), name)
  }

  predicate AllowName(c: Config, name: string) {
    L.Has(c.allow, c.eco.Name(), name)
  }

  predicate AllowVersion(c: Config, name: string, v: string) {
    L.HasVersion(c.allow, c.eco.Name(), name, v)
  }

  predicate DenyName(c: Config, name: string) {
    L.Has(c.deny, c.eco.Name(), name)
  }

  predicate DenyVersion(c: Config, name: string, v: string) {
    L.HasVersion(c.deny, c.eco.Name(), name, v)
  }

  predicate DenyAnyVersion(c: Config, name: string) {
    L.HasAnyVersion(c.deny, c.eco.Name(), name)
  }

  /** operatorList.covers, of the allow list. */
  predicate Covered(c: Config, name: string, v: string) {
    L.Covers(c.allow, c.eco.Name(), name, v)
  }

  // ---------------------------------------------------------------- the shared rules

  /** adminAllowsRelease: the allow entry reaches this release and the operator's own deny list
      does not; an unknown version is reached by a bare name only. */
  predicate AdminAllows(c: Config, name: string, version: Option<string>) {
    && (AllowName(c, name) || (version.Some? && version.value != "" && AllowVersion(c, name, version.value)))
    && !DenyName(c, name)
    && if version.Some? && version.value != "" then !DenyVersion(c, name, version.value) else !DenyAnyVersion(c, name)
  }

  function PinnedVerdict(c: Config, name: string, version: Option<string>): Option<Decision> {
    if version.None? && !AnyPin(c, name) then None
    else if version.Some? && !PinAdvisory(c, name, version.value) then None
    else if AdminAllows(c, name, version) then Some(Allowed(true))
    else Some(Denied(KnownMalware))
  }

  function OperatorVerdict(c: Config, name: string, version: Option<string>): Option<Decision> {
    if !DenyAnyVersion(c, name) then None
    else if version.None? then Some(Denied(OperatorDenied))
    else if !DenyVersion(c, name, version.value) then None
    else Some(Denied(OperatorDenied))
  }

  /** The release an OCI identity carries. */
  function InIdentity(c: Config, name: string): Option<string> {
    O.IdentityVersion(c.eco.Name(), name)
  }

  /** Evaluate: the local layers in order, then the answer of the networked ones. */
  function Evaluate(c: Config, name: string, rest: Decision): Decision {
    if WideAdvisory(c, name) then
      if AllowName(c, name) && AdminAllows(c, name, None) then Allowed(true) else Denied(KnownMalware)
    else if c.eco.Oci? && PinnedVerdict(c, name, InIdentity(c, name)).Some? then
      PinnedVerdict(c, name, InIdentity(c, name)).value
    else if DenyName(c, name) then Denied(OperatorDenied)
    else if c.eco.Oci? && OperatorVerdict(c, name, InIdentity(c, name)).Some? then
      OperatorVerdict(c, name, InIdentity(c, name)).value
    else if AllowName(c, name) then Allowed(false)
    else rest
  }

  // ---------------------------------------------------------------- control points

  datatype Outcome = Served | Refused | Deferred

  /** The four outcomes of the metadata path. */
  function Relay(d: Decision): Outcome {
    match d
    case Allowed(_) => Served
    case Denied(_) => Refused
    case _ => Deferred
  }

  function FactsOf(d: Decision): Facts {
    Facts(d.Allowed?, if d.Denied? then d.kind else NoKind, NotClassified)
  }

  /** proxyArtifactBytes after the version verdicts. */
  function Bytes(mode: Mode, d: Decision): Outcome {
    var reject := Decide(ByteGateRules(mode), FactsOf(d)) == Reject;
    match mode
    case Off => Served
    case AllowButLog => if reject then Refused else if d.Unavailable? then Deferred else Served
    case Enforce => if d.Pending? || d.Unavailable? then Deferred else if reject then Refused else Served
  }

  /** versionVerdict: an override is served. */
  function VersionOutcome(d: Decision): Outcome {
    if d.Allowed? then Served else Refused
  }

  /** A version verdict if there is one, the advisory's first, else what comes after. */
  function VersionsFirst(c: Config, name: string, version: Option<string>, after: Outcome): Outcome {
    var pinned, denied := PinnedVerdict(c, name, version), OperatorVerdict(c, name, version);
    if pinned.Some? then VersionOutcome(pinned.value)
    else if denied.Some? then VersionOutcome(denied.value)
    else after
  }

  datatype WindowVerdict = InWindow | OutsideWindow | AgeUnavailable

  datatype Point =
    | Packument
    | Tarball(mode: Mode, served: Option<string>)
    | Manifest
    | Blob(mode: Mode)
    | MavenFile(version: Option<string>, window: WindowVerdict)
    | Index
    | File(release: Option<string>)

  predicate PointOf(pt: Point, eco: Eco) {
    match eco
    case Npm => pt.Packument? || pt.Tarball?
    case Oci => pt.Manifest? || pt.Blob?
    case Maven => pt.MavenFile?
    case Pypi => pt.Index? || pt.File?
  }

  /** Maven's release window stands between its version verdicts and Evaluate. */
  function AfterWindow(window: WindowVerdict, d: Decision): Outcome {
    if window == AgeUnavailable then Deferred else if window == OutsideWindow then Refused else Relay(d)
  }

  /** What the client gets. A refused PyPI index is relayed with every file yanked; that is a
      refusal here. */
  function Gate(c: Config, pt: Point, name: string, rest: Decision): Outcome {
    var d := Evaluate(c, name, rest);
    match pt
    case Packument => Relay(d)
    case Tarball(mode, served) => if mode == Off then Served else VersionsFirst(c, name, served, Bytes(mode, d))
    case Manifest => Relay(d)
    case Blob(mode) => Bytes(mode, d)
    case MavenFile(version, window) =>
      VersionsFirst(c, name, version, AfterWindow(window, d))
    case Index => Relay(d)
    case File(release) => PypiFile(c, name, release, Relay(d))
  }

  /** pypiPinnedMalwareOnFile and pypiOperatorVersionOnFile skip the join when no entry names
      the package. */
  function PypiFile(c: Config, name: string, release: Option<string>, after: Outcome): Outcome {
    var pinned := if AnyPin(c, name) then PinnedVerdict(c, name, release) else None;
    var denied := if DenyAnyVersion(c, name) then OperatorVerdict(c, name, release) else None;
    if pinned.Some? then VersionOutcome(pinned.value)
    else if denied.Some? then VersionOutcome(denied.value)
    else after
  }

  /** The release a point judges: None where it judges only the name, Some(None) where it
      judges a release it could not determine. */
  function Judged(c: Config, pt: Point, name: string): Option<Option<string>> {
    match pt
    case Packument => None
    case Index => None
    case Tarball(_, served) => Some(served)
    case MavenFile(version, _) => Some(version)
    case File(release) => Some(release)
    case Manifest => Some(InIdentity(c, name))
    case Blob(_) => Some(InIdentity(c, name))
  }

  predicate GateOn(pt: Point) {
    !((pt.Tarball? || pt.Blob?) && pt.mode == Off)
  }

  // ---------------------------------------------------------------- the metadata filters

  /** npmPinnedRefuser and npmOperatorRefuser; operatorPin and malwarePin for PyPI, which may
      not know the release of a file. */
  predicate FilterRemoves(c: Config, name: string, version: Option<string>) {
    || AdvisoryRemoves(c, name, version)
    || OperatorRemoves(c, name, version)
  }

  predicate AdvisoryRemoves(c: Config, name: string, version: Option<string>) {
    if version.None? then !AllowName(c, name) && AnyPin(c, name)
    else PinAdvisory(c, name, version.value) && !Covered(c, name, version.value)
  }

  predicate OperatorRemoves(c: Config, name: string, version: Option<string>) {
    DenyAnyVersion(c, name) && (version.None? || DenyVersion(c, name, version.value))
  }

  /** npm's operator refuser asks hasVersion alone. */
  lemma NpmOperatorRefuser(c: Config, name: string, v: string)
    ensures OperatorRemoves(c, name, Some(v)) <==> DenyVersion(c, name, v)
  {
    PinsImply(c, name, v);
    hide DenyAnyVersion, DenyVersion;
  }

  /** A named release is a named package. */
  lemma PinsImply(c: Config, name: string, v: string)
    ensures DenyVersion(c, name, v) ==> DenyAnyVersion(c, name)
    ensures PinAdvisory(c, name, v) ==> AnyPin(c, name)
    ensures DenyVersion(c, name, v) || AllowVersion(c, name, v) || PinAdvisory(c, name, v) ==> v != ""
  {
    hide K.SameVersion, K.MalwareKey;
  }

  /** What VersionsFirst and PypiFile have in common. */
  lemma PypiFileIsVersionsFirst(c: Config, name: string, release: Option<string>, after: Outcome)
    ensures PypiFile(c, name, release, after) == VersionsFirst(c, name, release, after)
  {
    if release.Some? { PinsImply(c, name, release.value); }
    hide AnyPin, PinAdvisory, DenyAnyVersion, DenyVersion, AdminAllows;
  }

  // ---------------------------------------------------------------- safety

  lemma EvaluateDenied(c: Config, name: string, rest: Decision)
    requires DenyName(c, name)
    ensures var d := Evaluate(c, name, rest); d == Denied(KnownMalware) || d == Denied(OperatorDenied)
  {
    hide WideAdvisory, AnyPin, PinAdvisory, AllowName, AllowVersion, DenyName, DenyVersion, DenyAnyVersion, InIdentity;
  }

  lemma HardBytes(mode: Mode, d: Decision)
    ensures mode == Off ==> Bytes(mode, d) == Served
    ensures mode == Enforce ==> (Bytes(mode, d) == Served <==> d.Allowed?)
    ensures mode == AllowButLog ==>
              (Bytes(mode, d) == Served <==> !d.Unavailable? && !(d.Denied? && HardDeny(false, d.kind)))
  {
    ByteGateRefuses(mode, FactsOf(d));
    hide Decide, ByteGateRules;
  }

  /** A package the operator denied by name is served at no control point, in no byte-gate mode
      but off, whatever the allow list, the feed and scoring say. */
  lemma DeniedNameNeverServed(c: Config, pt: Point, name: string, rest: Decision)
    requires DenyName(c, name) && GateOn(pt) && PointOf(pt, c.eco)
    ensures Gate(c, pt, name, rest) != Served
  {
    hide WideAdvisory, AnyPin, PinAdvisory, AllowName, AllowVersion, DenyName, DenyVersion, DenyAnyVersion,
      InIdentity, Bytes, Evaluate, PypiFile;
    EvaluateDenied(c, name, rest);
    var d := Evaluate(c, name, rest);
    if pt.Tarball? || pt.Blob? { HardBytes(pt.mode, d); }
    if pt.File? { PypiFileIsVersionsFirst(c, name, pt.release, Relay(d)); }
  }

  /** Denied at a version-aware point: the release it judges, or an unknown one when some
      release is. */
  predicate DeniedRelease(c: Config, name: string, version: Option<string>) {
    if version.Some? then DenyVersion(c, name, version.value) else DenyAnyVersion(c, name)
  }

  lemma VersionsFirstDenied(c: Config, name: string, version: Option<string>, after: Outcome)
    requires DeniedRelease(c, name, version)
    ensures VersionsFirst(c, name, version, after) == Refused
  {
    hide WideAdvisory, AnyPin, PinAdvisory, AllowName, AllowVersion, DenyName, DenyVersion, DenyAnyVersion, InIdentity;
    if version.Some? { PinsImply(c, name, version.value); }
  }

  lemma EvaluateDeniedRelease(c: Config, name: string, rest: Decision)
    requires c.eco.Oci? && DeniedRelease(c, name, InIdentity(c, name))
    ensures var d := Evaluate(c, name, rest); d == Denied(KnownMalware) || d == Denied(OperatorDenied)
  {
    hide WideAdvisory, AnyPin, PinAdvisory, AllowName, AllowVersion, DenyName, DenyVersion, DenyAnyVersion, InIdentity;
    var v := InIdentity(c, name);
    if v.Some? { PinsImply(c, name, v.value); }
  }

  /** A release the operator denied is served at no point that judges releases; and where the
      release is unknown, a package with any denied release is not served at all. */
  lemma DeniedReleaseNeverServed(c: Config, pt: Point, name: string, rest: Decision)
    requires GateOn(pt) && PointOf(pt, c.eco)
    requires var j := Judged(c, pt, name); j.Some? && DeniedRelease(c, name, j.value)
    ensures Gate(c, pt, name, rest) != Served
  {
    hide WideAdvisory, AnyPin, PinAdvisory, AllowName, AllowVersion, DenyName, DenyVersion, DenyAnyVersion,
      InIdentity, DeniedRelease, Bytes, Evaluate, PypiFile, VersionsFirst;
    var v := Judged(c, pt, name).value;
    var d := Evaluate(c, name, rest);
    match pt
    case Manifest => EvaluateDeniedRelease(c, name, rest);
    case Blob(mode) =>
      EvaluateDeniedRelease(c, name, rest);
      HardBytes(mode, d);
    case Tarball(mode, served) => VersionsFirstDenied(c, name, v, Bytes(mode, d));
    case File(_) =>
      PypiFileIsVersionsFirst(c, name, v, Relay(d));
      VersionsFirstDenied(c, name, v, Relay(d));
    case MavenFile(_, window) =>
      VersionsFirstDenied(c, name, v, AfterWindow(window, d));
    case _ =>
  }

  /** Whether an advisory names what a point judges: the package, the release, or, when the
      release is unknown, any release. */
  predicate Advised(c: Config, pt: Point, name: string) {
    var j := Judged(c, pt, name);
    WideAdvisory(c, name) || (j.Some? && if j.value.Some? then PinAdvisory(c, name, j.value.value) else AnyPin(c, name))
  }

  /** Whether an allow entry covers what a point judges: the name, or the release it knows. */
  predicate CoveredAt(c: Config, pt: Point, name: string) {
    var j := Judged(c, pt, name);
    AllowName(c, name) || (j.Some? && j.value.Some? && AllowVersion(c, name, j.value.value))
  }

  lemma EvaluateAdvised(c: Config, name: string, rest: Decision)
    requires WideAdvisory(c, name) ||
             (c.eco.Oci? && PinnedVerdict(c, name, InIdentity(c, name)).Some?)
    ensures var d := Evaluate(c, name, rest);
            && (d == Allowed(true) || d == Denied(KnownMalware))
            && (d == Allowed(true) ==> AllowName(c, name) || (c.eco.Oci? && AdminAllows(c, name, InIdentity(c, name))))
            && (d == Allowed(true) && WideAdvisory(c, name) ==> AllowName(c, name))
  {
    hide WideAdvisory, AnyPin, PinAdvisory, AllowName, AllowVersion, DenyName, DenyVersion, DenyAnyVersion,
      InIdentity, AdminAllows;
  }

  lemma AdminCovers(c: Config, name: string, version: Option<string>)
    requires AdminAllows(c, name, version)
    ensures AllowName(c, name) || (version.Some? && AllowVersion(c, name, version.value))
  {
    hide AllowName, AllowVersion, DenyName, DenyVersion, DenyAnyVersion;
  }

  /** What an advisory names is served only if an allow entry covers it, at every control point
      with the byte gate on. */
  lemma AdvisedServedOnlyIfCovered(c: Config, pt: Point, name: string, rest: Decision)
    requires GateOn(pt) && PointOf(pt, c.eco) && Advised(c, pt, name)
    ensures Gate(c, pt, name, rest) == Served ==> CoveredAt(c, pt, name)
  {
    hide WideAdvisory, AnyPin, PinAdvisory, AllowName, AllowVersion, DenyName, DenyVersion, DenyAnyVersion,
      InIdentity, AdminAllows, Evaluate, Bytes, PypiFile, VersionsFirst;
    var d := Evaluate(c, name, rest);
    var j := Judged(c, pt, name);
    if j.Some? && AdminAllows(c, name, j.value) { AdminCovers(c, name, j.value); }
    if c.eco.Oci? || WideAdvisory(c, name) { AdvisedIdentity(c, pt, name, rest); }
    if pt.Tarball? || pt.Blob? { HardBytes(pt.mode, d); }
    match pt
    case Tarball(mode, served) => AdvisedVersions(c, name, served, Bytes(mode, d));
    case File(release) =>
      PypiFileIsVersionsFirst(c, name, release, Relay(d));
      AdvisedVersions(c, name, release, Relay(d));
    case MavenFile(version, window) =>
      AdvisedVersions(c, name, version, AfterWindow(window, d));
    case _ =>
  }

  lemma AdvisedIdentity(c: Config, pt: Point, name: string, rest: Decision)
    requires PointOf(pt, c.eco) && Advised(c, pt, name) && (c.eco.Oci? || WideAdvisory(c, name))
    ensures var d := Evaluate(c, name, rest);
            && (d == Allowed(true) || d == Denied(KnownMalware))
            && (d == Allowed(true) ==> AllowName(c, name) || (c.eco.Oci? && AdminAllows(c, name, InIdentity(c, name))))
            && (d == Allowed(true) && WideAdvisory(c, name) ==> AllowName(c, name))
  {
    hide WideAdvisory, AnyPin, PinAdvisory, AllowName, AllowVersion, DenyName, DenyVersion, DenyAnyVersion,
      InIdentity, Evaluate, AdminAllows;
    EvaluateAdvised(c, name, rest);
  }

  lemma AdvisedVersions(c: Config, name: string, version: Option<string>, after: Outcome)
    ensures VersionsFirst(c, name, version, after) == Served ==> after == Served || AdminAllows(c, name, version)
    ensures (if version.Some? then PinAdvisory(c, name, version.value) else AnyPin(c, name)) ==>
              VersionsFirst(c, name, version, after) == if AdminAllows(c, name, version) then Served else Refused
  {
    hide WideAdvisory, AnyPin, PinAdvisory, AllowName, AllowVersion, DenyName, DenyVersion, DenyAnyVersion,
      InIdentity, AdminAllows;
  }

  // ---------------------------------------------------------------- monotonicity

  /** Growing the deny list leaves Evaluate's answer or turns it into a hard denial. */
  lemma EvaluateMoreDenied(c: Config, deny: L.List, name: string, rest: Decision)
    requires L.Extends(c.deny, deny)
    ensures var d, d' := Evaluate(c, name, rest), Evaluate(c.(deny := deny), name, rest);
            d' == d || d' == Denied(KnownMalware) || d' == Denied(OperatorDenied)
  {
    hide WideAdvisory, AnyPin, PinAdvisory, AllowName, AllowVersion, DenyName, DenyVersion, DenyAnyVersion,
      InIdentity, AdminAllows, L.Extends;
    var c' := c.(deny := deny);
    DenyGrows(c, deny, name, InIdentity(c, name));
    DenyGrows(c, deny, name, None);
  }

  /** What a larger deny list changes: fewer overrides, more denials, nothing else. */
  lemma DenyGrows(c: Config, deny: L.List, name: string, version: Option<string>)
    requires L.Extends(c.deny, deny)
    ensures var c' := c.(deny := deny);
            && (WideAdvisory(c', name) <==> WideAdvisory(c, name)) && (AnyPin(c', name) <==> AnyPin(c, name))
            && (AllowName(c', name) <==> AllowName(c, name)) && InIdentity(c', name) == InIdentity(c, name)
            && (version.Some? ==> (PinAdvisory(c', name, version.value) <==> PinAdvisory(c, name, version.value)))
            && (DenyName(c, name) ==> DenyName(c', name))
            && (DenyAnyVersion(c, name) ==> DenyAnyVersion(c', name))
            && (version.Some? && DenyVersion(c, name, version.value) ==> DenyVersion(c', name, version.value))
            && (AdminAllows(c', name, version) ==> AdminAllows(c, name, version))
  {
    L.LookupsGrow(c.deny, deny, c.eco.Name(), name, if version.Some? then version.value else "");
    hide M.LookupAll, M.PinnedFor, M.HasPinned, L.Has, L.HasVersion, L.HasAnyVersion, O.IdentityVersion;
  }

  lemma VersionsFirstMoreDenied(c: Config, deny: L.List, name: string, version: Option<string>, after: Outcome,
      after': Outcome)
    requires L.Extends(c.deny, deny) && (after' == Served ==> after == Served)
    ensures VersionsFirst(c.(deny := deny), name, version, after') == Served ==>
              VersionsFirst(c, name, version, after) == Served
  {
    hide WideAdvisory, AnyPin, PinAdvisory, AllowName, AllowVersion, DenyName, DenyVersion, DenyAnyVersion,
      InIdentity, AdminAllows, L.Extends;
    DenyGrows(c, deny, name, version);
  }

  lemma BytesMoreDenied(mode: Mode, d: Decision, d': Decision)
    requires d' == d || d' == Denied(KnownMalware) || d' == Denied(OperatorDenied)
    ensures Bytes(mode, d') == Served ==> Bytes(mode, d) == Served
    ensures Relay(d') == Served ==> Relay(d) == Served
  {
    hide Bytes;
    HardBytes(mode, d);
    HardBytes(mode, d');
  }

  /** More deny entries remove no less from the metadata, release by release. */
  lemma FilterMoreDenied(c: Config, deny: L.List, name: string, version: Option<string>)
    requires L.Extends(c.deny, deny)
    ensures FilterRemoves(c, name, version) ==> FilterRemoves(c.(deny := deny), name, version)
  {
    hide WideAdvisory, AnyPin, PinAdvisory, AllowName, AllowVersion, DenyName, DenyVersion, DenyAnyVersion,
      InIdentity, AdminAllows, L.Extends, Covered;
    DenyGrows(c, deny, name, version);
    if version.Some? { CoveredFollows(c.(deny := deny), c, name, version.value); }
  }

  lemma CoveredFollows(c: Config, c': Config, name: string, v: string)
    requires c.eco == c'.eco && (c.allow == c'.allow || L.Extends(c.allow, c'.allow))
    ensures Covered(c, name, v) ==> Covered(c', name, v)
  {
    if L.Extends(c.allow, c'.allow) { L.LookupsGrow(c.allow, c'.allow, c.eco.Name(), name, v); }
    hide L.Has, L.HasVersion;
  }

  /** More allow entries remove no more from the metadata, release by release. */
  lemma FilterMoreAllowed(c: Config, allow: L.List, name: string, version: Option<string>)
    requires L.Extends(c.allow, allow)
    ensures FilterRemoves(c.(allow := allow), name, version) ==> FilterRemoves(c, name, version)
  {
    hide WideAdvisory, AnyPin, PinAdvisory, AllowName, AllowVersion, DenyName, DenyVersion, DenyAnyVersion,
      InIdentity, AdminAllows, Covered;
    if version.Some? { CoveredFollows(c, c.(allow := allow), name, version.value); }
    hide L.Extends;
    AllowGrows(c, allow, name, version);
  }

  /** Adding deny entries never turns a refusal into a serve, at any control point, and never puts
      a release back into the metadata. */
  lemma MoreDeniesServeNoMore(c: Config, deny: L.List, pt: Point, name: string, rest: Decision)
    requires L.Extends(c.deny, deny)
    ensures Gate(c.(deny := deny), pt, name, rest) == Served ==> Gate(c, pt, name, rest) == Served
    ensures forall version :: FilterRemoves(c, name, version) ==> FilterRemoves(c.(deny := deny), name, version)
  {
    hide WideAdvisory, AnyPin, PinAdvisory, AllowName, AllowVersion, DenyName, DenyVersion, DenyAnyVersion,
      InIdentity, Evaluate, Bytes, PypiFile, VersionsFirst, L.Extends, FilterRemoves;
    forall version ensures FilterRemoves(c, name, version) ==> FilterRemoves(c.(deny := deny), name, version) {
      FilterMoreDenied(c, deny, name, version);
    }
    var c' := c.(deny := deny);
    EvaluateMoreDenied(c, deny, name, rest);
    var d, d' := Evaluate(c, name, rest), Evaluate(c', name, rest);
    BytesMoreDenied(Enforce, d, d');
    match pt
    case Tarball(mode, served) =>
      BytesMoreDenied(mode, d, d');
      VersionsFirstMoreDenied(c, deny, name, served, Bytes(mode, d), Bytes(mode, d'));
    case Blob(mode) => BytesMoreDenied(mode, d, d');
    case File(release) =>
      PypiFileIsVersionsFirst(c, name, release, Relay(d));
      PypiFileIsVersionsFirst(c', name, release, Relay(d'));
      VersionsFirstMoreDenied(c, deny, name, release, Relay(d), Relay(d'));
    case MavenFile(version, window) =>
      VersionsFirstMoreDenied(c, deny, name, version, AfterWindow(window, d), AfterWindow(window, d'));
    case _ =>
  }

  /** What a larger allow list changes: more overrides, more bare names, nothing else. */
  lemma AllowGrows(c: Config, allow: L.List, name: string, version: Option<string>)
    requires L.Extends(c.allow, allow)
    ensures var c' := c.(allow := allow);
            && (WideAdvisory(c', name) <==> WideAdvisory(c, name)) && (AnyPin(c', name) <==> AnyPin(c, name))
            && (DenyName(c', name) <==> DenyName(c, name)) && (DenyAnyVersion(c', name) <==> DenyAnyVersion(c, name))
            && InIdentity(c', name) == InIdentity(c, name)
            && (version.Some? ==> (PinAdvisory(c', name, version.value) <==> PinAdvisory(c, name, version.value))
                                  && (DenyVersion(c', name, version.value) <==> DenyVersion(c, name, version.value)))
            && (AllowName(c, name) ==> AllowName(c', name))
            && (AdminAllows(c, name, version) ==> AdminAllows(c', name, version))
  {
    L.LookupsGrow(c.allow, allow, c.eco.Name(), name, if version.Some? then version.value else "");
    hide M.LookupAll, M.PinnedFor, M.HasPinned, L.Has, L.HasVersion, L.HasAnyVersion, O.IdentityVersion;
  }

  /** Growing the allow list leaves Evaluate's answer or turns it into an allow. */
  lemma EvaluateMoreAllowed(c: Config, allow: L.List, name: string, rest: Decision)
    requires L.Extends(c.allow, allow)
    ensures var d, d' := Evaluate(c, name, rest), Evaluate(c.(allow := allow), name, rest);
            d' == d || d'.Allowed?
  {
    hide WideAdvisory, AnyPin, PinAdvisory, AllowName, AllowVersion, DenyName, DenyVersion, DenyAnyVersion,
      InIdentity, AdminAllows, L.Extends;
    AllowGrows(c, allow, name, InIdentity(c, name));
    AllowGrows(c, allow, name, None);
  }

  lemma VersionsFirstMoreAllowed(c: Config, allow: L.List, name: string, version: Option<string>, after: Outcome,
      after': Outcome)
    requires L.Extends(c.allow, allow) && (after == Served ==> after' == Served)
    ensures VersionsFirst(c, name, version, after) == Served ==>
              VersionsFirst(c.(allow := allow), name, version, after') == Served
  {
    hide WideAdvisory, AnyPin, PinAdvisory, AllowName, AllowVersion, DenyName, DenyVersion, DenyAnyVersion,
      InIdentity, AdminAllows, L.Extends;
    AllowGrows(c, allow, name, version);
  }

  lemma BytesMoreAllowed(mode: Mode, d: Decision, d': Decision)
    requires d' == d || d'.Allowed?
    ensures Bytes(mode, d) == Served ==> Bytes(mode, d') == Served
    ensures Relay(d) == Served ==> Relay(d') == Served
  {
    hide Bytes;
    HardBytes(mode, d);
    HardBytes(mode, d');
  }

  /** Adding allow entries never turns a serve into a refusal, at any control point, and never
      takes a release out of the metadata. */
  lemma MoreAllowsRefuseNoMore(c: Config, allow: L.List, pt: Point, name: string, rest: Decision)
    requires L.Extends(c.allow, allow)
    ensures Gate(c, pt, name, rest) == Served ==> Gate(c.(allow := allow), pt, name, rest) == Served
    ensures forall version :: FilterRemoves(c.(allow := allow), name, version) ==> FilterRemoves(c, name, version)
  {
    hide WideAdvisory, AnyPin, PinAdvisory, AllowName, AllowVersion, DenyName, DenyVersion, DenyAnyVersion,
      InIdentity, Evaluate, Bytes, PypiFile, VersionsFirst, L.Extends, FilterRemoves;
    forall version ensures FilterRemoves(c.(allow := allow), name, version) ==> FilterRemoves(c, name, version) {
      FilterMoreAllowed(c, allow, name, version);
    }
    var c' := c.(allow := allow);
    EvaluateMoreAllowed(c, allow, name, rest);
    var d, d' := Evaluate(c, name, rest), Evaluate(c', name, rest);
    BytesMoreAllowed(Enforce, d, d');
    match pt
    case Tarball(mode, served) =>
      BytesMoreAllowed(mode, d, d');
      VersionsFirstMoreAllowed(c, allow, name, served, Bytes(mode, d), Bytes(mode, d'));
    case Blob(mode) => BytesMoreAllowed(mode, d, d');
    case File(release) =>
      PypiFileIsVersionsFirst(c, name, release, Relay(d));
      PypiFileIsVersionsFirst(c', name, release, Relay(d'));
      VersionsFirstMoreAllowed(c, allow, name, release, Relay(d), Relay(d'));
    case MavenFile(version, window) =>
      VersionsFirstMoreAllowed(c, allow, name, version, AfterWindow(window, d), AfterWindow(window, d'));
    case _ =>
  }

  // ---------------------------------------------------------------- the release window

  datatype Window = Window(tooOldBefore: Option<int>, tooNewAfter: Option<int>)

  /** ageWindow.reasonFor, shared by PyPI and Maven; an age that is not known fails closed. */
  predicate WindowRefuses(w: Window, published: Option<int>) {
    if published.None? then w.tooOldBefore.Some? || w.tooNewAfter.Some?
    else if w.tooOldBefore.Some? && published.value < w.tooOldBefore.value then true
    else w.tooNewAfter.Some? && published.value > w.tooNewAfter.value
  }

  /** npmWindowRefuser, written on its own. */
  predicate NpmWindowRefuses(w: Window, inPackument: bool, published: Option<int>) {
    if !(w.tooOldBefore.Some? || w.tooNewAfter.Some?) || !inPackument then false
    else if published.None? then true
    else if w.tooOldBefore.Some? && published.value < w.tooOldBefore.value then true
    else w.tooNewAfter.Some? && published.value > w.tooNewAfter.value
  }

  /** One release window in all ecosystems: npm's own copy refuses what the shared one does, in
      a packument; and what is served lies inside the bounds. */
  lemma OneWindow(w: Window, published: Option<int>)
    ensures NpmWindowRefuses(w, true, published) <==> WindowRefuses(w, published)
    ensures !WindowRefuses(w, published) <==>
              && (w.tooOldBefore.Some? ==> published.Some? && w.tooOldBefore.value <= published.value)
              && (w.tooNewAfter.Some? ==> published.Some? && published.value <= w.tooNewAfter.value)
  {
  }

  // ---------------------------------------------------------------- the points agree

  /** The version verdicts of the byte path refuse this release. */
  predicate BytesRefuse(c: Config, name: string, version: Option<string>) {
    VersionsFirst(c, name, version, Served) == Refused
  }

  predicate Named(c: Config, name: string, version: Option<string>) {
    if version.Some? then PinAdvisory(c, name, version.value) else AnyPin(c, name)
  }

  /** An allow entry reaches this release; an unknown one only by bare name. */
  predicate AllowReaches(c: Config, name: string, version: Option<string>) {
    if version.Some? then Covered(c, name, version.value) else AllowName(c, name)
  }

  /** The metadata filter removes a release for an advisory or an operator entry exactly when
      the byte path's version verdicts refuse it, but for one family: a package denied by name
      (so its metadata is never served) whose release an advisory names, an allow entry
      reaches, and no deny entry names. They agree on every package not denied by name. */
  lemma FilterAgreesWithBytes(c: Config, name: string, version: Option<string>)
    ensures (FilterRemoves(c, name, version) <==> BytesRefuse(c, name, version)) <==>
            !(DenyName(c, name) && Named(c, name, version) && AllowReaches(c, name, version) &&
              !DeniedRelease(c, name, version))
  {
    hide WideAdvisory, AnyPin, PinAdvisory, AllowName, AllowVersion, DenyName, DenyVersion, DenyAnyVersion,
      InIdentity, Covered;
    if version.Some? {
      PinsImply(c, name, version.value);
      CoveredIs(c, name, version.value);
    }
  }

  /** The metadata document offers this release: the package passes, no entry removes the
      release, and the release window does not. */
  predicate Offered(c: Config, name: string, version: Option<string>, w: Window, published: Option<int>,
      rest: Decision)
  {
    && Evaluate(c, name, rest).Allowed?
    && !FilterRemoves(c, name, version)
    && !(if c.eco.Npm? then NpmWindowRefuses(w, true, published) else WindowRefuses(w, published))
  }

  /** The byte path of the two ecosystems whose metadata is filtered, under enforce. */
  function BytePoint(eco: Eco, version: Option<string>): Point {
    if eco.Npm? then Tarball(Enforce, version) else File(version)
  }

  /** An administrator's override of an advisory on this release. */
  predicate Overridden(c: Config, name: string, version: Option<string>) {
    Named(c, name, version) && AdminAllows(c, name, version)
  }

  /** For npm and PyPI: everything the metadata offers can be fetched under enforce; and what can
      be fetched was offered except in exactly two families, an override of a package that is
      refused or undecided, and a release the window refuses that passes otherwise. The byte
      paths do not ask the window. */
  lemma OfferedIsFetchable(c: Config, name: string, version: Option<string>, w: Window, published: Option<int>,
      rest: Decision)
    requires c.eco.Npm? || c.eco.Pypi?
    ensures var offered := Offered(c, name, version, w, published, rest);
            var fetched := Gate(c, BytePoint(c.eco, version), name, rest) == Served;
            var allowed := Evaluate(c, name, rest).Allowed?;
            && (offered ==> fetched)
            && ((offered <==> fetched) <==>
                  && !(Overridden(c, name, version) && !allowed)
                  && !(WindowRefuses(w, published) &&
                       (Overridden(c, name, version) || (allowed && !FilterRemoves(c, name, version)))))
  {
    hide WideAdvisory, AnyPin, PinAdvisory, AllowName, AllowVersion, DenyName, DenyVersion, DenyAnyVersion,
      InIdentity, AdminAllows, Evaluate, Gate, WindowRefuses, NpmWindowRefuses, FilterRemoves;
    OneWindow(w, published);
    FetchedIs(c, name, version, rest);
    FilterIs(c, name, version);
    if DenyName(c, name) { EvaluateDenied(c, name, rest); }
  }

  /** What the byte path serves under enforce. */
  lemma FetchedIs(c: Config, name: string, version: Option<string>, rest: Decision)
    requires c.eco.Npm? || c.eco.Pypi?
    ensures Gate(c, BytePoint(c.eco, version), name, rest) == Served <==>
              Overridden(c, name, version) ||
              (!Named(c, name, version) && !OperatorRemoves(c, name, version) && Evaluate(c, name, rest).Allowed?)
  {
    hide WideAdvisory, AnyPin, PinAdvisory, AllowName, AllowVersion, DenyName, DenyVersion, DenyAnyVersion,
      InIdentity, AdminAllows, Evaluate, Bytes, PypiFile;
    var d := Evaluate(c, name, rest);
    HardBytes(Enforce, d);
    PypiFileIsVersionsFirst(c, name, version, Relay(d));
  }

  /** What the filters keep, in the byte path's terms. */
  lemma FilterIs(c: Config, name: string, version: Option<string>)
    ensures Overridden(c, name, version) ==> !FilterRemoves(c, name, version)
    ensures !FilterRemoves(c, name, version) ==> !OperatorRemoves(c, name, version)
    ensures !Named(c, name, version) && !OperatorRemoves(c, name, version) ==> !FilterRemoves(c, name, version)
    ensures Named(c, name, version) && !FilterRemoves(c, name, version) && !DenyName(c, name) ==>
              Overridden(c, name, version)
  {
    hide WideAdvisory, AnyPin, PinAdvisory, AllowName, AllowVersion, DenyName, DenyVersion, DenyAnyVersion,
      InIdentity, Covered, AdminAllows;
    if Overridden(c, name, version) { OverriddenIsKept(c, name, version); }
    if version.Some? { CoveredIs(c, name, version.value); }
    KeptIsAllowed(c, name, version);
  }

  /** What an administrator overrides, no filter removes. */
  lemma OverriddenIsKept(c: Config, name: string, version: Option<string>)
    requires Overridden(c, name, version)
    ensures !FilterRemoves(c, name, version)
  {
    hide WideAdvisory, AnyPin, PinAdvisory, AllowName, AllowVersion, DenyName, DenyVersion, DenyAnyVersion,
      InIdentity, Covered;
    if version.Some? {
      PinsImply(c, name, version.value);
      CoveredIs(c, name, version.value);
    }
  }

  lemma KeptIsAllowed(c: Config, name: string, version: Option<string>)
    ensures Named(c, name, version) && !FilterRemoves(c, name, version) && !DenyName(c, name) ==>
              AdminAllows(c, name, version)
  {
    hide WideAdvisory, AnyPin, PinAdvisory, AllowName, AllowVersion, DenyName, DenyVersion, DenyAnyVersion,
      InIdentity, Covered;
    if version.Some? {
      PinsImply(c, name, version.value);
      CoveredIs(c, name, version.value);
    }
  }

  lemma CoveredIs(c: Config, name: string, v: string)
    ensures Covered(c, name, v) <==> AllowName(c, name) || AllowVersion(c, name, v)
  {
    hide L.Has, L.HasVersion;
  }

  // ---------------------------------------------------------------- exactly what is served

  /** What the feed and the two lists say of a package by name. An advisory on the whole package is
      overridden by its bare name on the allow list, unless the deny list names it or any release
      of it; else a denied name is refused, and an allowed one passes. */
  predicate NameOverridden(c: Config, name: string) {
    WideAdvisory(c, name) && AllowName(c, name) && !DenyName(c, name) && !DenyAnyVersion(c, name)
  }

  predicate NameRefused(c: Config, name: string) {
    (WideAdvisory(c, name) && !NameOverridden(c, name)) || DenyName(c, name)
  }

  predicate NameAllowed(c: Config, name: string) {
    !NameRefused(c, name) && AllowName(c, name)
  }

  /** The same of one release, or of one that could not be determined: an advisory on it is
      overridden by an allow entry that reaches it and no deny entry that does. */
  predicate ReleaseOverridden(c: Config, name: string, version: Option<string>) {
    && Named(c, name, version) && AllowReaches(c, name, version)
    && !DenyName(c, name) && !DeniedRelease(c, name, version)
  }

  predicate ReleaseRefused(c: Config, name: string, version: Option<string>) {
    !ReleaseOverridden(c, name, version) && (Named(c, name, version) || DeniedRelease(c, name, version))
  }

  /** Whether the answer of the networked layers passes at a point: an allow, or, where the byte
      gate only logs, anything but an outage and a positive finding. */
  predicate RestPasses(pt: Point, rest: Decision) {
    if (pt.Tarball? || pt.Blob?) && pt.mode == AllowButLog then
      !rest.Unavailable? &&
      (rest.Denied? ==>
        rest.kind != Score && rest.kind != Human && rest.kind != KnownMalware && rest.kind != OperatorDenied)
    else rest.Allowed?
  }

  /** And whether it leaves the request waiting. */
  predicate RestWaits(pt: Point, rest: Decision) {
    rest.Unavailable? || (rest.Pending? && !((pt.Tarball? || pt.Blob?) && pt.mode == AllowButLog))
  }

  /** Neither list nor the feed decides what the point judges. */
  predicate Undecided(c: Config, pt: Point, name: string) {
    var j := Judged(c, pt, name);
    && !NameRefused(c, name) && !AllowName(c, name)
    && (j.Some? ==> !ReleaseOverridden(c, name, j.value) && !ReleaseRefused(c, name, j.value))
  }

  /** A point serves: an override; or nothing refuses the release or the name, and the name is
      allowed or the networked layers pass; for Maven, inside its window. An OCI identity is judged
      by its name first, every other release before its name. */
  predicate Serves(c: Config, pt: Point, name: string, rest: Decision) {
    var j := Judged(c, pt, name);
    var passes := !NameRefused(c, name) && (NameAllowed(c, name) || RestPasses(pt, rest));
    if j.None? then passes
    else if c.eco.Oci? && WideAdvisory(c, name) then NameOverridden(c, name)
    else
      || ReleaseOverridden(c, name, j.value)
      || (!ReleaseRefused(c, name, j.value) && passes && (pt.MavenFile? ==> pt.window == InWindow))
  }

  /** A point lets the request wait: nothing local decides and the networked layers are undecided;
      for Maven also when only the age is missing. */
  predicate Waits(c: Config, pt: Point, name: string, rest: Decision) {
    if pt.MavenFile? then
      && !ReleaseOverridden(c, name, pt.version) && !ReleaseRefused(c, name, pt.version)
      && (pt.window == AgeUnavailable || (pt.window == InWindow && Undecided(c, pt, name) && RestWaits(pt, rest)))
    else Undecided(c, pt, name) && RestWaits(pt, rest)
  }

  /** The package's decision, by what the lists and the feed say of its name. */
  lemma DecisionByName(c: Config, name: string, rest: Decision)
    requires !c.eco.Oci? || WideAdvisory(c, name)
    ensures var d := Evaluate(c, name, rest);
            if NameRefused(c, name) then d == Denied(KnownMalware) || d == Denied(OperatorDenied)
            else if AllowName(c, name) then d.Allowed? else d == rest
  {
    hide WideAdvisory, AnyPin, PinAdvisory, AllowName, AllowVersion, DenyName, DenyVersion, DenyAnyVersion, InIdentity;
  }

  lemma OverrideIs(c: Config, name: string, version: Option<string>)
    ensures ReleaseOverridden(c, name, version) <==> Named(c, name, version) && AdminAllows(c, name, version)
  {
    hide WideAdvisory, AnyPin, PinAdvisory, AllowName, AllowVersion, DenyName, DenyVersion, DenyAnyVersion,
      InIdentity, Covered;
    if version.Some? {
      PinsImply(c, name, version.value);
      CoveredIs(c, name, version.value);
    }
  }

  lemma DecisionByIdentity(c: Config, name: string, rest: Decision)
    requires c.eco.Oci? && !WideAdvisory(c, name)
    ensures var d, v := Evaluate(c, name, rest), InIdentity(c, name);
            if ReleaseOverridden(c, name, v) then d.Allowed?
            else if ReleaseRefused(c, name, v) || DenyName(c, name) then
              d == Denied(KnownMalware) || d == Denied(OperatorDenied)
            else if AllowName(c, name) then d.Allowed? else d == rest
  {
    hide WideAdvisory, AnyPin, PinAdvisory, AllowName, AllowVersion, DenyName, DenyVersion, DenyAnyVersion,
      InIdentity, Covered, AdminAllows, AllowReaches;
    var v := InIdentity(c, name);
    OverrideIs(c, name, v);
    if v.Some? { PinsImply(c, name, v.value); }
  }

  /** The byte path's version verdicts, in the same terms. */
  lemma VersionsFirstIs(c: Config, name: string, version: Option<string>, after: Outcome)
    ensures VersionsFirst(c, name, version, after) ==
            if ReleaseOverridden(c, name, version) then Served
            else if ReleaseRefused(c, name, version) then Refused else after
  {
    hide WideAdvisory, AnyPin, PinAdvisory, AllowName, AllowVersion, DenyName, DenyVersion, DenyAnyVersion,
      InIdentity, Covered, AdminAllows, AllowReaches;
    OverrideIs(c, name, version);
    if version.Some? { PinsImply(c, name, version.value); }
  }

  /** What the point does with the package's decision, once no release verdict stands. */
  function OnDecision(pt: Point, d: Decision): Outcome {
    match pt
    case Tarball(mode, _) => Bytes(mode, d)
    case Blob(mode) => Bytes(mode, d)
    case MavenFile(_, window) => AfterWindow(window, d)
    case _ => Relay(d)
  }

  lemma OnDecisionIs(pt: Point, d: Decision)
    requires GateOn(pt) && !pt.MavenFile?
    ensures OnDecision(pt, d) == Served <==> RestPasses(pt, d)
    ensures OnDecision(pt, d) == Deferred <==> RestWaits(pt, d)
  {
    if pt.Tarball? || pt.Blob? {
      HardBytes(pt.mode, d);
      ByteGateRefuses(pt.mode, FactsOf(d));
    }
    hide Decide, ByteGateRules;
  }

  /** The whole decision, at every control point of every ecosystem with the byte gate on: what is
      served, what waits, and so what is refused, in terms of the feed, the two lists, the release
      judged, the window and the answer of the networked layers. */
  lemma GateExactly(c: Config, pt: Point, name: string, rest: Decision)
    requires GateOn(pt) && PointOf(pt, c.eco)
    ensures Gate(c, pt, name, rest) == Served <==> Serves(c, pt, name, rest)
    ensures Gate(c, pt, name, rest) == Deferred <==> Waits(c, pt, name, rest)
  {
    hide WideAdvisory, AnyPin, PinAdvisory, AllowName, AllowVersion, DenyName, DenyVersion, DenyAnyVersion,
      InIdentity, Evaluate, Bytes, PypiFile, VersionsFirst, ReleaseOverridden, Named;
    var d := Evaluate(c, name, rest);
    if c.eco.Oci? && !WideAdvisory(c, name) {
      DecisionByIdentity(c, name, rest);
    } else {
      DecisionByName(c, name, rest);
    }
    if !pt.MavenFile? { OnDecisionIs(pt, d); }
    match pt
    case Tarball(mode, served) => VersionsFirstIs(c, name, served, Bytes(mode, d));
    case File(release) =>
      PypiFileIsVersionsFirst(c, name, release, Relay(d));
      VersionsFirstIs(c, name, release, Relay(d));
    case MavenFile(version, window) => VersionsFirstIs(c, name, version, AfterWindow(window, d));
    case _ =>
  }

  /** The allow list allows: a package it names, that nothing denies and no advisory names, neither
      the package nor what the point judges, is served at every point, whatever scoring would say;
      for Maven, inside its window. */
  lemma AllowListServes(c: Config, pt: Point, name: string, rest: Decision)
    requires GateOn(pt) && PointOf(pt, c.eco) && AllowName(c, name) && !WideAdvisory(c, name) && !DenyName(c, name)
    requires var j := Judged(c, pt, name); j.Some? ==> !Named(c, name, j.value) && !DeniedRelease(c, name, j.value)
    requires pt.MavenFile? ==> pt.window == InWindow
    ensures Gate(c, pt, name, rest) == Served
  {
    GateExactly(c, pt, name, rest);
    hide Gate, WideAdvisory, AllowName, DenyName, Named, DeniedRelease, AllowReaches, InIdentity;
  }

  /** Where nothing names the package, the networked layers decide: the metadata paths and image
      manifests give exactly their answer. */
  lemma UnnamedIsScored(c: Config, pt: Point, name: string, rest: Decision)
    requires Unnamed(c, name) && (pt.Packument? || pt.Manifest? || pt.Index?) && PointOf(pt, c.eco)
    ensures Gate(c, pt, name, rest) ==
            if rest.Allowed? then Served else if rest.Denied? then Refused else Deferred
  {
    GateExactly(c, pt, name, rest);
    UnnamedServesAsScored(c, pt, name, rest);
    hide Gate, Serves, Waits, Unnamed;
  }

  lemma UnnamedServesAsScored(c: Config, pt: Point, name: string, rest: Decision)
    requires Unnamed(c, name) && (pt.Packument? || pt.Manifest? || pt.Index?)
    ensures Serves(c, pt, name, rest) <==> rest.Allowed?
    ensures Waits(c, pt, name, rest) <==> rest.Pending? || rest.Unavailable?
  {
    var j := Judged(c, pt, name);
    UnnamedName(c, name);
    if j.Some? { UnnamedReleases(c, name, j.value); }
    hide *;
    UnnamedServes(c, pt, name, rest);
  }

  lemma UnnamedServes(c: Config, pt: Point, name: string, rest: Decision)
    requires pt.Packument? || pt.Manifest? || pt.Index?
    requires !NameRefused(c, name) && !AllowName(c, name) && !WideAdvisory(c, name)
    requires var j := Judged(c, pt, name);
             j.Some? ==> !ReleaseOverridden(c, name, j.value) && !ReleaseRefused(c, name, j.value)
    ensures Serves(c, pt, name, rest) <==> rest.Allowed?
    ensures Waits(c, pt, name, rest) <==> rest.Pending? || rest.Unavailable?
  {
    hide NameRefused, AllowName, WideAdvisory, ReleaseOverridden, ReleaseRefused, InIdentity;
  }

  lemma UnnamedName(c: Config, name: string)
    requires Unnamed(c, name)
    ensures !NameRefused(c, name) && !AllowName(c, name) && !WideAdvisory(c, name)
  {
    hide WideAdvisory, AllowName, DenyName, AnyPin, DenyAnyVersion;
  }

  lemma UnnamedReleases(c: Config, name: string, release: Option<string>)
    requires Unnamed(c, name)
    ensures !ReleaseOverridden(c, name, release) && !ReleaseRefused(c, name, release)
  {
    NotNamed(c, name, release);
    hide *;
    NothingOnRelease(c, name, release);
  }

  lemma NotNamed(c: Config, name: string, release: Option<string>)
    requires Unnamed(c, name)
    ensures !Named(c, name, release) && !DeniedRelease(c, name, release)
  {
    hide WideAdvisory, AnyPin, PinAdvisory, AllowName, DenyName, DenyVersion, DenyAnyVersion;
    if release.Some? { PinsImply(c, name, release.value); }
  }

  lemma NothingOnRelease(c: Config, name: string, release: Option<string>)
    requires !Named(c, name, release) && !DeniedRelease(c, name, release)
    ensures !ReleaseOverridden(c, name, release) && !ReleaseRefused(c, name, release)
  {
    hide Named, DeniedRelease, AllowReaches, DenyName;
  }

  /** Nothing names the package in the feed or on either list. */
  predicate Unnamed(c: Config, name: string) {
    && !WideAdvisory(c, name) && !AnyPin(c, name) && !AllowName(c, name)
    && !DenyName(c, name) && !DenyAnyVersion(c, name)
  }

  /** The second family is not empty: whatever release of a package nobody names, allowed by
      scoring, the window refuses, the metadata withholds it and the byte path serves it. */
  lemma WindowStopsAtMetadata(c: Config, name: string, v: string, w: Window, published: Option<int>)
    requires (c.eco.Npm? || c.eco.Pypi?) && Unnamed(c, name) && WindowRefuses(w, published)
    ensures !Offered(c, name, Some(v), w, published, Allowed(false))
    ensures Gate(c, BytePoint(c.eco, Some(v)), name, Allowed(false)) == Served
  {
    OneWindow(w, published);
    UnnamedServed(c, name, v);
    hide Unnamed, Evaluate, FilterRemoves, Gate, WindowRefuses, NpmWindowRefuses;
  }

  lemma UnnamedServed(c: Config, name: string, v: string)
    requires (c.eco.Npm? || c.eco.Pypi?) && Unnamed(c, name)
    ensures Gate(c, BytePoint(c.eco, Some(v)), name, Allowed(false)) == Served
  {
    FetchedIs(c, name, Some(v), Allowed(false));
    PinsImply(c, name, v);
    hide WideAdvisory, AnyPin, PinAdvisory, AllowName, AllowVersion, DenyName, DenyVersion, DenyAnyVersion,
      InIdentity, AdminAllows, Gate, Overridden;
  }

  const DAY := 24 * 3600

  /** The shipped cooldown of 14 days, an empty feed and empty lists, and a release of yesterday:
      the packument does not list it, and its tarball is served under enforce. */
  lemma CooldownByExample(now: int)
    ensures var c := Config(Npm, M.Feed(map[], map[], 0, None, 0, []), L.List({}, map[]), L.List({}, map[]));
            var cooldown := Window(None, Some(now - 14 * DAY));
            && !Offered(c, "p", Some("2.0.0"), cooldown, Some(now - DAY), Allowed(false))
            && Gate(c, Tarball(Enforce, Some("2.0.0")), "p", Allowed(false)) == Served
  {
    var c := Config(Npm, M.Feed(map[], map[], 0, None, 0, []), L.List({}, map[]), L.List({}, map[]));
    EmptyNamesNobody(c, "p");
    hide Offered, Gate, Unnamed;
    WindowStopsAtMetadata(c, "p", "2.0.0", Window(None, Some(now - 14 * DAY)), Some(now - DAY));
  }

  lemma EmptyNamesNobody(c: Config, name: string)
    requires c.feed.all == map[] && c.feed.pinned == map[]
    requires c.allow == L.List({}, map[]) && c.deny == L.List({}, map[])
    ensures Unnamed(c, name)
  {
    hide K.MalwareKey;
  }

  /** Maven's one path does ask the window: a release it refuses, or cannot date, is served only
      by an override. */
  lemma MavenAsksTheWindow(c: Config, name: string, version: Option<string>, window: WindowVerdict, rest: Decision)
    requires window != InWindow
    ensures Gate(c, MavenFile(version, window), name, rest) == Served <==> Overridden(c, name, version)
  {
    hide WideAdvisory, AnyPin, PinAdvisory, AllowName, AllowVersion, DenyName, DenyVersion, DenyAnyVersion,
      InIdentity, AdminAllows, Evaluate;
  }

  /** Enforce relays bytes exactly where the metadata path relays, so the two gates give one
      answer; allow-but-log also serves what was merely not trusted or not yet decided. */
  lemma ModesOrdered(d: Decision)
    ensures Bytes(Enforce, d) == Relay(d)
    ensures Bytes(Enforce, d) == Served ==> Bytes(AllowButLog, d) == Served
    ensures Bytes(AllowButLog, d) == Served && Relay(d) != Served <==>
              d.Pending? || (d.Denied? && !HardDeny(false, d.kind))
  {
    ByteGateRefuses(Enforce, FactsOf(d));
    ByteGateRefuses(AllowButLog, FactsOf(d));
    hide Decide, ByteGateRules;
  }

  // ---------------------------------------------------------------- from the files

  /** The configuration as three files give it: the feed's lines, and the two lists'. */
  ghost predicate LoadedFrom(c: Config, feed: seq<M.Line>, allow: seq<string>, deny: seq<string>) {
    && M.ParseMalwareList(feed) == M.Result.Ok(c.feed)
    && L.Denotes(c.allow, multiset(L.Meanings(L.Kind.Allow, c.eco.Name(), allow)))
    && L.Denotes(c.deny, multiset(L.Meanings(L.Kind.Deny, c.eco.Name(), deny)))
  }

  /** What each condition of the decision says of the three files: an advisory is a record with the
      package's key, an allow or deny entry a line that asks for it. */
  lemma LookupsReadTheFiles(c: Config, feed: seq<M.Line>, allow: seq<string>, deny: seq<string>, name: string,
      v: string)
    requires LoadedFrom(c, feed, allow, deny)
    ensures var eco, es := c.eco.Name(), M.Records(feed);
            var key := K.MalwareKey(eco, name);
            var allows, denies := L.Meanings(L.Kind.Allow, eco, allow), L.Meanings(L.Kind.Deny, eco, deny);
            && (WideAdvisory(c, name) <==>
                  exists e :: e in es && e.ecosystem != "" && e.name != "" && e.versions == [] && M.KeyOf(e) == key)
            && (PinAdvisory(c, name, v) <==>
                  v != "" && (exists e, x :: e in es && x in e.versions && e.ecosystem != "" && e.name != "" &&
                                             M.KeyOf(e) == key && K.SameVersion(eco, x, v)))
            && (AnyPin(c, name) <==>
                  exists e :: e in es && e.ecosystem != "" && e.name != "" && e.versions != [] && M.KeyOf(e) == key)
            && (AllowName(c, name) <==> L.Bare(key) in allows)
            && (AllowVersion(c, name, v) <==>
                 v != "" && (exists x :: L.Pinned(key, x) in allows && K.SameVersion(eco, x, v)))
            && (DenyName(c, name) <==> L.Bare(key) in denies)
            && (DenyVersion(c, name, v) <==>
                 v != "" && (exists x :: L.Pinned(key, x) in denies && K.SameVersion(eco, x, v)))
            && (DenyAnyVersion(c, name) <==> exists x :: L.Pinned(key, x) in denies)
  {
    var eco := c.eco.Name();
    M.GatesExactly(feed, eco, name, v);
    M.PinsExactly(feed, eco, name);
    L.LookupsReadTheLines(L.Kind.Allow, eco, allow, c.allow, name, v);
    L.LookupsReadTheLines(L.Kind.Deny, eco, deny, c.deny, name, v);
    hide M.ParseMalwareList, M.Records, M.KeyOf, K.MalwareKey, K.SameVersion, M.LookupAll, M.PinnedFor, M.HasPinned,
      L.Has, L.HasVersion, L.HasAnyVersion, L.Meanings, L.Denotes;
  }
}
