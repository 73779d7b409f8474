# A model of the package firewall's decision core

The firewall stands between package managers (npm, PyPI, OCI, Maven) and their registries and
decides, per request, whether bytes may pass. This project models the parts of it whose
correctness is an argument rather than a test case, and proves that argument in Dafny 4.11:

- `Semver.dfy`, `Pep440.dfy`, `Pep440Regex.dfy`, `Pep440Key.dfy`, `Pep440Spec.dfy`,
  `PypiWheelVersion.dfy`: the two version algebras. The PEP 440 regular expression is written out as
  a value with its usual meaning, and a deterministic parser is proved to accept exactly what it
  matches; the key it feeds is proved to be a normal form; and the second, independent release
  parser is proved to agree with it.
- `Packument.dfy`: the npm packument filter, which deletes refused versions and moves tags by a
  maximum search over maps walked in any order.
- `ScanSlot.dfy`, `ScanResults.dfy`, `ScanLaunch.dfy`: requests and background scans interleaving
  over one slot table and two caches; what a scan leaves in them and what a request answers from
  them; and exactly which cache histories let a request launch a scan.
- `MalwareFeed.dfy`, `FeedReload.dfy`, `FeedDelivery.dfy`: the advisory feed: its index, its
  last-good re-read, and its delivery through a mount anyone may write.
- `PackageKeys.dfy`, `OperatorList.dfy`, `OperatorGrammar.dfy`, `OperatorDisplay.dfy`,
  `ListReload.dfy`: package identity, the operator's allow and deny lists, the grammar of their
  lines, their display form, and their re-read.
- `PathGuard.dfy`, `NpmPaths.dfy`, `OciIdentity.dfy`: which request paths are accepted, which
  control point each npm path goes to, and the OCI identity codec.
- `Policy.dfy`, `Verdicts.dfy`: ordered rulesets, and how advisories, both lists, unknown versions
  and the byte gate combine at seven control points, with scoring as an arbitrary answer.
- `FlowRows.dfy`, `FlowAccounting.dfy`: two marginal aggregations drained into an additive sink.
- `GoStrings.dfy`, `Sorting.dfy`: the Go library primitives all of these are written in.

Where the source computes, the model is functions and lemmas; where it changes state step by
step, it is a class or a loop proved against such a function, and the promises are proved about
the function. Concurrency is a step relation whose steps are single atomic actions, and its
theorems range over every run.

## What the proofs found

Some promises in comments hold on less than they say. Each is kept as the code has it, with the
exact condition proved.

- `pep440.go:45-50` presents the key as PEP 440 identity. It is exactly that on versions whose
  numbers fit a 64-bit int and whose numeric local segments carry no leading zero
  (`Pep440Spec.SameIsPep440`); every version outside that class is confused with, or told apart
  from, some version against the standard (`Pep440Spec.UnfitDisagrees`): an overflowing epoch is
  dropped, an overflowing release makes the key give up, other overflowing numbers and local
  segments keep their leading zeros.
- `semver.go:103-104` reads the identifier `-5` as a negative number. The comparator is a total
  preorder on all strings, and section 11 precedence of Semantic Versioning 2.0.0 on exactly the
  versions without such identifiers and without int64 overflow (`SemverSpec.FaithfulIsExact`).
- `feedfetch.go:152-160` orders its two renames so that a new snapshot never meets an old
  signature. That holds; the opposite pairing, an old snapshot with a newer signature, does happen,
  and the read is refused. It happens if and only if a signature rename of other content succeeded
  after the snapshot in the reader's hand landed (`FeedDelivery.RefusedExactly`). A read that
  overlaps an install loses one read that way (`FeedDelivery.OverlappingReadRefused`); an install
  whose second rename fails leaves the mount mismatched, and every read is refused, overlapping or
  not, until another rename succeeds (`FeedDelivery.HalfInstallRefusesEveryRead`).
- `feedfetch.go:94-105` compares what it pulled with the feed in force, not with the one installed.
  On an untampered mount every completed install that no later rename disturbs is delivered by the
  next whole read, if its serial is not below the one then in force (`FeedDelivery.Delivered`). But
  when the look that the comparison begins with fails, an older snapshot can be installed over a newer
  one not read yet, and is what the next read takes (`FeedDelivery.OvertakenInstall`).
- `malwarereload.go:180-210` refuses a feed that goes backwards, but only headers can be compared.
  A look can put a serial in force if and only if the feed in force declares none or one no greater
  (`FeedReload.CanInstallExactly`), so from every state with a serial in force one headerless feed
  lets any smaller serial in (`FeedReload.HeaderlessFeedResets`); and a run is safe against every
  headed continuation if and only if it has not gone back yet and the feed in force declares a
  serial, or none ever did (`FeedReload.SafeExactly`).
- `operatorlist.go:433-435` says a displayed entry can be pasted back. It can, except PyPI versions
  that begin with `=` (`OperatorDisplay.RoundPinned`, `OperatorDisplay.ArbitraryEqualityIsEaten`).
- `ecosystem.go:155-161` unescapes a name from a path that is already decoded and reads one part of
  it, two behind a scope. An npm package is therefore judged under one name at both gates exactly
  when its decoded name holds no marker and is a bare scope, or has no `%` and just those parts
  (`NpmPaths.OneNameAtBothGates`); `/a%2541/-/f.tgz` is judged as `a%41`, its metadata as `aA`
  (`NpmPaths.DoubleEscapeSplitsTheName`). A double escape is the only way a path stays unknown.
- `proxy.go:938-953` wants the byte paths to agree with the metadata path. For npm and PyPI,
  whatever the metadata offers can be fetched; the converse fails in exactly two families: an
  administrator override of a package that is refused or undecided, and a release that passes
  but that the release window, on by default, withholds from the metadata, because the byte paths
  do not ask the window (`Verdicts.OfferedIsFetchable`, `Verdicts.CooldownByExample`). Without the
  window, the filter and the version verdicts part ways only on packages denied by name
  (`Verdicts.FilterAgreesWithBytes`).
- `firewall.go:1478-1485` argues that the re-check after the claim closes the race. It reads the two
  caches one after the other, so it does unless they miss in turn. In every run, a launch after a
  moment at which the slot was free means that since then L1 held no result and, later, L2 showed
  none (`ScanSlot.LaunchNeedsMisses`); and along whatever a run does to the caches, a request waiting
  for its claim can launch if and only if there are two such moments
  (`ScanLaunch.RunPermitsLaunchExactly`). A result that stays in one cache rules them out
  (`ScanSlot.NoScanOverAResult`); one that moves between the caches need not, even if some cache holds
  it at every moment (`ScanSlot.ReadableSomewhereIsNotEnough`).

## Model

| member | source | states |
|---|---|---|
| `Semver.Parse` | semver.go:26-52 | the parser's loops with early returns compute ParseSemver: core split, build cut, identifiers, and the one unparsable value |
| `Semver.CompareLoop` | semver.go:58-100 | the comparator's two loops compute SemverCompare on any two strings |
| `Semver.CompareReflexive` | semver.go:58-127 | every string equals itself, parsable or not |
| `Semver.CompareAntisymmetric` | semver.go:58-127 | swapping the arguments flips the sign, for all strings, so the order is total |
| `Semver.CompareTransitive` | semver.go:58-127 | the order is transitive, and a chain that ends equal is equal throughout |
| `SemverSpec.ParsesExactly` | semver.go:26-52 | on any text the parser accepts exactly an optional v, three fitting numbers without leading zeros, non-empty prerelease texts between dots and anything after a plus sign, between spaces, and returns those numbers and texts |
| `SemverSpec.PrereleaseExactly` | semver.go:124-127 | a valid version counts as a prerelease if and only if it has prerelease identifiers or a core number overflows int64 |
| `SemverSpec.UnparsedIsPrerelease` | semver.go:124-127 | every text that does not parse counts as a prerelease |
| `SemverSpec.ParseRender` | semver.go:26-52 | every valid version parses to its numbers and identifiers, and to "not semver" exactly when a core number overflows int64 |
| `SemverSpec.CompareIsPrecedence` | semver.go:54-118 | on faithful versions the comparator is section 11 precedence of Semantic Versioning 2.0.0, defined independently |
| `SemverSpec.UnfaithfulIsMisplaced` | semver.go:103-104 | every valid version with an overflowing number or an identifier such as -5 is misplaced against some faithful version |
| `SemverSpec.FaithfulIsExact` | semver.go:54-118 | a valid version is ordered as the standard says against all faithful ones if and only if it is faithful |
| `Pep440Grammar.ParseSound` | pep440.go:30-36 | what the parser accepts is a rendering of well-formed groups, with every optional separator taken greedily |
| `Pep440Grammar.ParseRender` | pep440.go:30-36 | rendering greedy groups and parsing returns the same groups |
| `Pep440Regex.RegexExactly` | pep440.go:30-36 | the parser accepts a text if and only if the regular expression, written out as a value with the usual meaning of its operators, matches it |
| `Pep440Grammar.ParseExact` | pep440.go:30-36 | the parser accepts exactly the language of the regular expression |
| `Pep440.ReleaseNumbers` | pep440.go:66-75 | the release loop reads every segment or gives up at the first that overflows |
| `Pep440.DropTrailingZeros` | pep440.go:76-78 | the trimming loop drops trailing zero segments and keeps at least one |
| `Pep440.BuildKey` | pep440.go:51-104 | the builder writes, piece by piece, the key string of the normal form, or nothing |
| `Pep440.KeyInjective` | pep440.go:51-104 | two well-formed normal forms with one key string are equal in all six components |
| `Pep440.KeyParses` | pep440.go:51-104 | a key is itself a PEP 440 version and parses back to its normal form |
| `Pep440.KeyIdempotent` | pep440.go:51-104 | the key of a key is that key |
| `Pep440.SameIffMeaning` | pep440.go:126-133 | two strings are the same version if and only if their normal forms agree, or neither has a shared one and the folded texts agree |
| `Pep440.SameIsEquivalence` | pep440.go:126-133 | pep440Same is reflexive, symmetric and transitive on all strings, fallback included |
| `Pep440Spec.VersionExactly` | pep440.go:51-56 | a string is a version if and only if the expression matches its text between the spaces in lower case, and spaces and case do not change its key |
| `Pep440Spec.NormIsPep` | pep440.go:51-104 | on versions that fit, equality of normal forms is equality of the standard's identity, both ways |
| `Pep440Spec.SameIsPep440` | pep440.go:126-133 | on versions that fit, pep440Same holds if and only if PEP 440 calls them equal |
| `Pep440Spec.EpochOverflow` | pep440.go:61-65 | an epoch that overflows is dropped, so the version compares equal to the one without it |
| `Pep440Spec.ReleaseOverflow` | pep440.go:68-75 | an overflowing release number makes two respellings of one version differ |
| `Pep440Spec.UnfitDisagrees` | pep440.go:30-133 | for every version that does not fit there is a version on which pep440Same contradicts PEP 440 |
| `PypiWheelVersion.ReleaseSegmentLoop` | pypiwheelversion.go:192-230 | the cutting, scanning and trimming loops compute ReleaseSegment |
| `PypiWheelVersion.NameDifferentReleasesLoop` | pypiwheelversion.go:238-253 | the comparison loop says "different" exactly when both releases are read and some position differs |
| `PypiWheelVersion.DifferentOnAnyText` | pypiwheelversion.go:192-253 | on any two texts the wheel check says "different" if and only if both have a release where the cuts leave one, and the two, wrapped and trimmed, differ; a text without one is never called different |
| `PypiWheelVersion.EveryTextLaidOut` | pypiwheelversion.go:192-230 | every text is cut in just these places: after its first "!", at the first "+" after that, behind one v, and where its numbers end |
| `PypiWheelVersion.ReleaseSegmentIsNormRelease` | pypiwheelversion.go:192-230 | on every version with a normal form, the small parser reads the same zero-trimmed release as the key |
| `PypiWheelVersion.DifferentExactly` | pypiwheelversion.go:238-253 | on any two PEP 440 versions the wheel check says "different" if and only if their zero-trimmed releases differ after each number wraps to 64 bits; so it never refuses what the standard calls equal, overflowing releases included |
| `PypiWheelVersion.SameNeverDifferent` | pypiwheelversion.go:238-253 | for any two strings, if pep440Same holds the wheel check does not refuse |
| `Packument.RepointTag` | npmpackument.go:220-250 | the loop returns a semver maximum of the preferred non-empty candidates in any iteration order, or nothing exactly when there is no candidate |
| `Packument.NewestUnique` | npmpackument.go:220-250 | two maxima of one candidate set are equal under the comparator, so map order cannot matter |
| `Packument.Document.Filter` | npmpackument.go:122-194 | removed versions are exactly the refused ones, survivors and times are kept, and every tag is reconciled |
| `Packument.Document.FilterTwice` | npmpackument.go:122-194 | filtering a filtered packument removes nothing and moves nothing |
| `Packument.JudgedWithItsTime` | npmpackument.go:139-146 | a version is refused if and only if the refuser, given it with the time the document has for it, refuses it |
| `Packument.NoTagOnRemoved` | npmpackument.go:150-187 | no tag names a removed version; a moved tag names a survivor |
| `Packument.TagKeepsItsClass` | npmpackument.go:220-250 | in the standard's terms: a tag on a removed release lands on a release, and one on a removed prerelease on a prerelease, no newer than the removed one and no older than any such version that remains |
| `Packument.TagsRollBack` | npmpackument.go:215-250 | a tag rolls back, never forward, while a version not newer remains, and stays in its release class if it can |
| `ScanSlot.InflightScans.Begin` | inflight.go:28-38 | exactly the caller that finds the slot free claims it |
| `ScanSlot.InflightScans.Done` | inflight.go:44-51 | the slot is free afterwards and no other slot changes |
| `ScanSlot.OneOwnerPerSlot` | firewall.go:1454-1492 | in every run a repo is marked running if and only if one party is between begin and done, and no two are |
| `ScanResults.ScanRecords` | firewall.go:1562-1581 | in every run, a scan that ends has written exactly its result: a score to L1 and then, with the time of that write, to L2; else the negative marker to L2 alone; after a transient failure nothing; a failed L2 write leaves L2 alone |
| `ScanResults.HeldIsReturned` | firewall.go:1474-1540 | in every run, a request that reads a cache holding an answer launches nothing and returns that answer, the score or the negative one, and warms L1 with a score found in L2 |
| `ScanResults.AnswersAreJustified` | firewall.go:1474-1540 | in every run, a request answers a score or the negative marker only if it read a cache holding it, fresh enough to trust, and pending only if it launched a scan or found one running |
| `ScanResults.SeenIsTrusted` | firewall.go:1550-1555 | a row of L2 is trusted if and only if freshness is off, or it carries no time, or it is no older than the limit |
| `ScanSlot.LaunchNeedsMisses` | firewall.go:1471-1491 | in every run, a launch of a scan of a repo means that since any moment with its slot free L1 held no result of it and, at a later moment, L2 showed none |
| `ScanSlot.NoScanOverAResult` | firewall.go:1471-1491 | after a scan ends, no request launches another while one cache keeps a result of that repo readable |
| `ScanSlot.ReadableSomewhereIsNotEnough` | firewall.go:1471-1491 | from every state with the slot free and a result in L2, a schedule launches another scan while some cache holds a result at every moment |
| `ScanLaunch.LaunchExactly` | firewall.go:1454-1492 | from every state, a request anywhere on its way can launch along a history of the caches if and only if every cache read it still has to make can miss, in that order; an arriving request has four, a waiting one two |
| `ScanLaunch.WaitingLaunchExactly` | firewall.go:1471-1491 | a request at its claim, the slot free, can launch along a history if and only if L1 holds no result at one moment and L2 shows none at that moment or later |
| `ScanLaunch.RunPermitsLaunchExactly` | firewall.go:1471-1491 | the same for what any segment of any run, by any party, does to the caches: no other condition on the caches decides a launch |
| `ScanSlot.OwnStepProgresses` | firewall.go:1562-1581 | each step of a slot's owner frees the slot or strictly approaches freeing it |
| `ScanSlot.OthersDoNotInterfere` | firewall.go:1454-1581 | no step of anyone else sets an owner back |
| `ScanSlot.NoLeak` | firewall.go:1562-1581 | in every run, once the successive owners of a claimed slot have taken as many steps as the owner's rank, at most seven, the slot has been free, whatever others did in between; and steps of the owner alone that free it always exist |
| `MalwareFeed.ParseMalwareListLoop` | malware.go:214-277 | the scan loop over two maps and counters computes the feed, or the first bad line |
| `MalwareFeed.PinnedForLoop` | malware.go:452-464 | the nested loops return the first pinned record naming this version, in the ecosystem's equality |
| `MalwareFeed.GatesExactly` | malware.go:319-330 | a package is condemned if and only if a record with an identity and no versions has its key, and a version of it if and only if such a record with versions lists the same release; a later record never changes that |
| `MalwareFeed.LoadsExactly` | malware.go:214-277 | a feed loads if and only if no line is malformed and at most one is a header; otherwise the error names the first offending line |
| `MalwareFeed.SignedLoadsExactly` | malware.go:193-212 | a signed feed loads if and only if it loads, has a header, and declares no row count or the number of its records |
| `MalwareFeed.LookupsAreScans` | malware.go:319-330 | lookupAll, pinnedFor and hasPinned answer as a linear scan of the records would |
| `MalwareFeed.RecordsConserved` | malware.go:214-277 | records equal skipped plus package-wide plus pinned |
| `MalwareFeed.CountFor` | malware.go:302-316 | the loops over map keys count the keys and entries under one ecosystem's prefix |
| `MalwareFeed.UnderIsEcosystem` | malware.go:302-316 | a key is under an ecosystem's prefix exactly when it is of that ecosystem |
| `MalwareFeed.PinnedCountIsScan` | malware.go:302-316 | the pinned count of a loaded feed is the count over its records |
| `MalwareFeed.WideKeysAreScan` | malware.go:302-316 | the package-wide keys counted are the distinct keys of the wide records |
| `MalwareFeed.TruncationDetected` | malware.go:193-212 | a line-boundary prefix of a signed feed loads if and only if its header survived and it declares no row count or lost no record |
| `FeedReload.ReloadingFeed.RefreshLocked` | malwarereload.go:140-218 | the re-read, with its early returns, computes the next state and log of the specification |
| `FeedReload.ReloadingFeed.CurrentFeed` | malwarereload.go:106-115 | the caller gets the feed in force after the bounded re-read |
| `FeedReload.LookDecides` | malwarereload.go:140-211 | one look, decided: not due, it changes nothing; due, it puts the file in force if and only if it has to read it and may take it, and is degraded afterwards if and only if the file could not be seen, or had to be read and could not be taken |
| `FeedReload.LookSays` | malwarereload.go:140-255 | exactly the lines a due look logs, in order, and that the 72-hour limit has been reported as it stands for the feed in force |
| `FeedReload.SeedIsTrusted` | malwarereload.go:91-103 | the feed loaded at startup is in force, and its file is not read again until it moves or the limit passes, if it could be stat'd then |
| `FeedReload.LastGoodKept` | malwarereload.go:140-255 | a failed read never replaces the feed; a feed once loaded is never lost |
| `FeedReload.SerialMonotone` | malwarereload.go:180-210 | over any run with headed loads the serial never decreases and the feed never returns to nothing |
| `FeedReload.HeaderlessFeedResets` | malwarereload.go:180-210 | from every state with a serial in force, a headerless feed and then any feed of a smaller serial are installed |
| `FeedReload.CanInstallExactly` | malwarereload.go:180-210 | from every state, some look can put a headed feed in force if and only if the feed in force is it, or declares no serial, or one no greater |
| `FeedReload.SafeExactly` | malwarereload.go:180-210 | no headed continuation of a run goes back if and only if the run has not gone back and the feed in force declares a serial, or none in force ever did |
| `FeedReload.FreshWhenNotDegraded` | malwarereload.go:140-180 | at a call at time t that is not degraded, the feed in force is what one look of the run loaded, parsed after t minus (statTTL plus rereadEvery), or the seed, seeded after that |
| `FeedReload.LinesAlternate` | malwarereload.go:222-255 | failure and recovery lines, and stale and current lines, strictly alternate over any run |
| `FeedDelivery.FeedFetcher.FetchOnce` | feedfetch.go:78-111 | one pull leaves the mount the step machine says, and installs exactly when the bytes verify, parse and are newer and both renames succeed |
| `FeedDelivery.FeedFetcher.Install` | feedfetch.go:152-160 | signature first, snapshot second; a failed rename leaves the rest untouched |
| `FeedDelivery.FeedFetcher.Report` | feedfetch.go:205-228 | an outcome is logged when and only when it differs from the last |
| `FeedDelivery.FeedInForceIsSafe` | malware.go:161-212 | with a key, for any mount contents and interleaving: the feed in force verified, is never lost, and its serial never decreases |
| `FeedDelivery.FetchDecides` | feedfetch.go:78-111 | a pull is written if and only if it verifies, loads as a signed feed, and is newer than any serial in force |
| `FeedDelivery.ReadDecides` | malwarereload.go:164-196 | a read puts its snapshot in force if and only if the signature it meets verifies it, it loads as a signed feed, and its serial is not below the one in force; otherwise the feed stays |
| `FeedDelivery.Delivered` | feedfetch.go:152-160 | delivery: on an untampered mount, a read between an install and the next rename is not refused, and puts that content in force if and only if it is not older than the feed then in force |
| `FeedDelivery.DeliveredUndisturbed` | feedfetch.go:78-160 | if no read ended since the pull, what was pulled and installed is in force after that read |
| `FeedDelivery.OvertakenInstall` | feedfetch.go:94-105 | an older snapshot is installed over a newer one installed but not yet read, and is what the next read puts in force |
| `FeedDelivery.AnythingMayLand` | malware.go:161-191 | the mount is anyone's: at any moment any snapshot and signature may be put there or taken away |
| `FeedDelivery.VerifiedBeforeWrite` | feedfetch.go:78-111 | the fetcher only ever writes a snapshot that verified and parsed |
| `FeedDelivery.SignatureNeverStale` | feedfetch.go:152-160 | a reader never pairs a snapshot with a signature of an older install; one that fails to verify is newer |
| `FeedDelivery.OverlappingReadRefused` | malware.go:177-186 | a read spanning the two renames of an install is refused and the feed in force stays |
| `FeedDelivery.NewerExactly` | feedfetch.go:152-160 | the signature a reader meets is of a newer install than its snapshot if and only if a signature rename succeeded after the snapshot landed |
| `FeedDelivery.RefusedIffNewer` | malware.go:177-186 | with signatures that tell installs apart, a read is refused for its signature if and only if the signature is of a newer install, if and only if a signature rename came after the snapshot landed |
| `FeedDelivery.RefusedExactly` | malware.go:177-186 | with signatures that vouch for one content each, a read is refused if and only if the last signature rename since its snapshot landed was of other content; the feed in force stays |
| `FeedDelivery.HalfInstallRefusesEveryRead` | feedfetch.go:152-160 | after an install that renames its signature and not its snapshot, every read is refused and the feed in force stays until another rename succeeds |
| `PackageKeys.NormalizePypiNameLoop` | ecosystem.go:738-760 | the builder loop with its prevSep flag computes the normalised name |
| `PackageKeys.NormalisesExactly` | ecosystem.go:738-760 | a name normalises to exactly what PEP 503's substitution gives: lower case, each longest run of the three separators one hyphen |
| `PackageKeys.KeysMeetExactly` | malware.go:106-118 | two spellings share a key if and only if the ecosystems agree in any case and the names agree as that ecosystem reads them |
| `PackageKeys.SameVersionExactly` | malware.go:439-444 | two versions are one release if and only if, for PyPI, they mean the same to the key, and elsewhere are one text between spaces |
| `PackageKeys.NormalizePypiNameIdempotent` | ecosystem.go:738-760 | normalising a normalised name changes nothing |
| `PackageKeys.SameVersionIsEquivalence` | malware.go:439-444 | version equality is an equivalence in every ecosystem |
| `OperatorList.ParseOperatorList` | operatorlist.go:300-347 | the loop loads exactly the names and pins the lines ask for, or names the first malformed line and why |
| `OperatorGrammar.TextExactly` | operatorlist.go:307-313 | of a line only what stands, between spaces, before the first # is read |
| `OperatorGrammar.BlankExactly` | operatorlist.go:311-317 | a line asks for nothing if and only if it has no text; a space or tab inside the text is an error |
| `OperatorGrammar.NpmPinExactly` | operatorlist.go:402-426 | npm: what follows the last @ past the start is a version, or the exact error |
| `OperatorGrammar.NpmBareExactly` | operatorlist.go:402-426 | npm: a text without an @ past its start is a bare name, if it is a name |
| `OperatorGrammar.PypiPinExactly` | operatorlist.go:402-426 | PyPI: what follows the first == or === is a version, or the exact error |
| `OperatorGrammar.MavenPinExactly` | operatorlist.go:402-426 | Maven: of three parts between colons the last is a version, or the exact error |
| `OperatorGrammar.PypiBareExactly` | operatorlist.go:402-426 | PyPI: a text without == is a bare name, if it is a name |
| `OperatorGrammar.MavenBareExactly` | operatorlist.go:402-426 | Maven: a text without two colons is a bare name, if it is a coordinate |
| `OperatorGrammar.OciBareExactly` | operatorlist.go:402-426 | OCI: any other entry names the repository |
| `OperatorGrammar.OciPinExactly` | operatorlist.go:402-426 | OCI: an allow entry that ends in a digest is pinned to it |
| `OperatorList.HasVersionLoop` | operatorlist.go:156-166 | the loop finds a pin exactly when one equals the version, and never for an empty version |
| `OperatorList.LookupsReadTheLines` | operatorlist.go:142-207 | has, hasVersion and hasAnyVersion answer from the lines as written |
| `OperatorList.MoreLinesExtend` | operatorlist.go:300-347 | a file with more lines loads a list with every entry of the smaller one |
| `OperatorList.LookupsGrow` | operatorlist.go:142-207 | every lookup that holds of a list holds of a larger one |
| `OperatorList.BuildEntries` | operatorlist.go:352-376 | the display list is the sorted rendering of the list's whole contents, in any map order |
| `OperatorList.EntriesIgnoreLineOrder` | operatorlist.go:352-380 | two line orders of one file load the same entries and give equal display lists, which the digest is taken of |
| `OperatorDisplay.RoundBare` | operatorlist.go:402-445 | a bare entry, displayed and parsed again, is the same entry |
| `OperatorDisplay.RoundPinned` | operatorlist.go:402-445 | a version-scoped entry survives display and parsing if and only if it is not a PyPI version starting with "=" |
| `OperatorDisplay.ArbitraryEqualityIsEaten` | operatorlist.go:414-417 | the line a====1 pins "=1" and its display does not |
| `OperatorDisplay.DisplayReparses` | operatorlist.go:352-376 | for npm, PyPI and Maven the display entries parse without error to a list with the same names and the same versions as often |
| `ListReload.ReloadingSource.RefreshLocked` | operatorlist.go:659-711 | the re-read computes the next state and log of the specification |
| `ListReload.ReloadingSource.CurrentList` | operatorlist.go:634-639 | the caller gets the list in force after the bounded re-read |
| `ListReload.LookDecides` | operatorlist.go:659-711 | one look, decided: before its time it changes nothing; after it, what could be read is in force, and the list is degraded if and only if nothing could |
| `ListReload.LookSays` | operatorlist.go:659-711 | exactly the lines it logs, in order: failure if it is news, else readable again, gone to zero, changed |
| `ListReload.FreshWhenNotDegraded` | operatorlist.go:659-711 | at a call at time t that is not degraded, the list in force is what a successful read after t minus ttl gave |
| `ListReload.LastGoodKept` | operatorlist.go:659-711 | failed reads never replace the list; it changes only to what a read gave and is never lost |
| `ListReload.SpellsAlternate` | operatorlist.go:659-686 | unreadable and readable-again lines strictly alternate, and say the current state |
| `PathGuard.AcceptedIsCanonical` | pathguard.go:77-138 | an accepted path decodes; decoded it has no empty inner part and no dot segment, is a fixed point of slash collapsing and of section 5.2.4 of RFC 3986, and has the marker exactly when the escaped path does |
| `PathGuard.GuardExactly` | pathguard.go:77-138 | a path is accepted if and only if no two slashes touch, each segment decodes to something clean, and decoding neither hides nor reveals an artifact marker |
| `PathGuard.SegmentExactly` | pathguard.go:87-126 | exactly why a segment is refused: a bad escape, a dot segment, an encoded slash outside a scoped name, a hidden marker |
| `PathGuard.DecodesExactly` | pathguard.go:88-91 | a text decodes to another if and only if it spells it, character by character, with two hex digits of either case after each percent sign |
| `PathGuard.DoubleSlashIsInnerEmpty` | pathguard.go:78-84 | a path contains "//" if and only if it has an empty inner part |
| `PathGuard.CollapseExactly` | pathguard.go:78-84 | collapsing slashes, as an upstream does, changes exactly the paths in which two slashes touch, and leaves none |
| `PathGuard.RemoveDotsFixed` | pathguard.go:92-96 | a path without dot segments is left alone by remove_dot_segments, whatever precedes it |
| `NpmPaths.ByteGateExactly` | ecosystem.go:215-239 | on accepted paths npmArtifactPath claims exactly the two artifact shapes |
| `NpmPaths.RefusedExactly` | proxy.go:402-481 | exactly what the path guard refuses is refused, for its reason |
| `NpmPaths.NoPathIsInfrastructure` | proxy.go:402-481 | a request with an empty path is infrastructure |
| `NpmPaths.DispatchIsComplete` | proxy.go:402-481 | every accepted absolute path is the byte gate's, a package with a non-empty name, or infrastructure exactly when it is "/" or starts with the marker; unknown needs a double escape |
| `NpmPaths.OneNameAtBothGates` | ecosystem.go:135-163 | for every path of the registry's tarball shape the byte gate judges the decoded name, and the metadata gate the same one if and only if that name holds no marker and is a bare scope, or has no "%" and one part, two behind a scope |
| `NpmPaths.DoubleEscapeSplitsTheName` | ecosystem.go:155-161 | the accepted path /a%2541/-/f.tgz is judged as a%41 by the byte gate and as aA by the metadata gate |
| `NpmPaths.NoMarkerNoVersion` | npmversion.go:104-108 | a path without the marker, or that starts with it, is read as no version |
| `NpmPaths.TarballVersionExact` | npmversion.go:104-129 | a tarball is read as version v if and only if its decoded file name is the one the registry gives v |
| `OciIdentity.LastSeparator` | ecosystem.go:713-720 | the last case-folded separator is the boundary, even if the name contains one |
| `OciIdentity.ManifestRoundTrip` | ecosystem.go:580-614 | for every legal name and reference and case spelling: path to identity to name and reference and back, and the feed key forgets the reference |
| `OciIdentity.BlobAndManifestAgree` | ecosystem.go:638-641 | a blob path and a manifest path name the same repository |
| `OciIdentity.CommittedExactly` | oci.go:167-179 | exactly a 64-digit lower-case digest in tag position becomes the digest it spells; any other reference is committed to as it is, and none as latest |
| `OciIdentity.IdentityInjective` | oci.go:250-275 | two requests share an identity if and only if they share the name and the committed reference |
| `Policy.DecideLoop` | policy.go:337-344 | the loop computes first match, with a terminal block |
| `Policy.AllowNeedsARule` | policy.go:337-344 | anything but a block has a matching rule with that action and no earlier match |
| `Policy.ByteGateRefuses` | policy.go:449-518 | the byte rulesets refuse every refusal under enforce, exactly the positive findings under allow-but-log, nothing when off |
| `Policy.ByteGateSetting` | config.go:752-759 | only "off" turns the byte gate off and only "enforce" refuses everything not allowed; any other setting refuses exactly the positive findings |
| `Policy.UnidentifiedRelayed` | policy.go:171-210 | a path naming no package is relayed exactly when it is control-plane or the operator set one of two values; a typo blocks |
| `Verdicts.GateExactly` | firewall.go:892-1200 | the whole decision at every control point with the byte gate on: what is served and what waits, if and only if explicit conditions on feed, lists, judged release, window and the networked answer |
| `Verdicts.AllowListServes` | firewall.go:1191-1197 | a name on the allow list, with nothing denied and no advisory on what the point judges, is served whatever scoring says; for Maven inside its window |
| `Verdicts.UnnamedIsScored` | firewall.go:1066-1200 | where nothing names the package, the metadata paths and image manifests give exactly the networked layers' answer |
| `Verdicts.LookupsReadTheFiles` | firewall.go:892-1200 | what each condition of the decision says of the three files: an advisory is a record with the package's key, an allow or deny entry a line that asks for it |
| `Verdicts.DeniedNameNeverServed` | firewall.go:1066-1191 | a name on the deny list is served at no control point outside byte-gate off, whatever else says |
| `Verdicts.DeniedReleaseNeverServed` | firewall.go:988-1020 | a denied release is served at no point that judges releases, nor is an unknown one of a package with a denied release |
| `Verdicts.AdvisedServedOnlyIfCovered` | firewall.go:892-966 | what an advisory names is served only if an allow entry covers it, at every control point |
| `Verdicts.MoreDeniesServeNoMore` | firewall.go:892-1191 | adding deny entries never turns a refusal into a serve, at any control point, and never puts a release back into the filtered metadata |
| `Verdicts.MoreAllowsRefuseNoMore` | firewall.go:892-1191 | adding allow entries never turns a serve into a refusal, at any control point, and never takes a release out of the filtered metadata |
| `Verdicts.NpmOperatorRefuser` | npmpackument.go:279-286 | npm's refuser, which asks hasVersion alone, removes what the fail-closed form removes |
| `Verdicts.PypiFileIsVersionsFirst` | proxy.go:1336-1364 | skipping the version join when no entry names the package changes no outcome |
| `Verdicts.FilterAgreesWithBytes` | npmpackument.go:256-286 | the metadata filter removes a release if and only if the byte verdicts refuse it, except one stated family of packages denied by name |
| `Verdicts.OfferedIsFetchable` | proxy.go:1509-1690 | for npm and PyPI, what the filtered metadata offers, release window included, can be fetched under enforce; the converse fails exactly on an override of a refused or undecided package and on a release the window refuses that passes otherwise |
| `Verdicts.WindowStopsAtMetadata` | npmpackument.go:292-312 | every release of a package nobody names, allowed by scoring and refused by the window, is withheld from the metadata and served by the byte path |
| `Verdicts.CooldownByExample` | config.go:906-907 | with the shipped 14-day cooldown and nothing else configured, yesterday's release is not listed and its tarball is served |
| `Verdicts.MavenAsksTheWindow` | proxy.go:2498-2540 | a Maven release the window refuses or cannot date is served only by an override |
| `Verdicts.ModesOrdered` | proxy.go:1572-1690 | enforce relays exactly what the metadata path relays; allow-but-log adds exactly the pending and the merely untrusted |
| `Verdicts.OneWindow` | proxy.go:2575-2589 | npm's copy of the release window refuses what the shared one does, and what passes lies inside both bounds |
| `FlowAccounting.FlowRecorder.RecordRelay` | flow.go:378-386 | one request is added to one package key and one IP key in the same step |
| `FlowAccounting.FlowRecorder.RecordRelayBytes` | flow.go:388-400 | the bytes that moved are added to both views in the same step |
| `FlowAccounting.FlowRecorder.RecordFault` | flow.go:228-255 | each failure bumps its own counter of one package key, and the IP view not at all |
| `FlowAccounting.FlowRecorder.RecordStatus` | flow.go:267-272 | only 5xx and 429 count, on the package view |
| `FlowAccounting.FlowRecorder.Drain` | flow.go:340-368 | both maps come out whole, each key once, in the order of their keys, and both start again empty |
| `FlowAccounting.BatchRowsDetermined` | flow.go:357-367 | every batch of every run has exactly one ordered listing, so the rows do not depend on map order |
| `FlowAccounting.FlowEmitter.Flush` | flowemit.go:159-202 | the recorder is drained whatever happens; a batch is posted at most once, never when empty or disabled, and an error is counted |
| `FlowAccounting.BatchesBalance` | flow.go:340-400 | in every run, held counters and each drained batch have equal request and byte totals in both views |
| `FlowAccounting.CountersCount` | flow.go:202-272 | in every run, each counter of a package counts just the events of its own kind: the failures, the answers 429 and from 500 up, the requests, and the bytes moved each way |
| `FlowAccounting.HostsCount` | flow.go:378-400 | a source host's counters count just its requests and bytes, and no failures |
| `FlowAccounting.DrainConserves` | flow.go:318-368 | for every key, what was recorded is what is held plus what was drained |
| `FlowAccounting.RunSendsExactly` | flowemit.go:159-202 | in every run with an endpoint, the batches posted are exactly the non-empty ones drained, the sink holds in order those whose post reached it, and the drop counter is the number of errors; without an endpoint nothing is posted |
| `FlowAccounting.SinkNeverExceeds` | flowemit.go:11-35 | each batch is posted at most once, the additive sink never exceeds what was recorded, and with no drop counted it is exact |
| `Sorting.SortedUnique` | operatorlist.go:377 | a sorted sequence is determined by the multiset it holds |

## Left out

- Text is ASCII: TrimSpace, ToLower and EqualFold are modelled on ASCII space and letters, so Unicode folding in version and name comparison is not covered.
- Bytes in paths are characters: an escape decodes to one character below 256, and UTF-8 is not interpreted.
- The PEP 440 regular expression engine's preference among matches, which decides the groups of an ambiguous match, is taken as leftmost-greedy.
- JSON, HTTP headers, timestamps and the feed's line syntax arrive already parsed; a feed line is blank, a comment, a header, a record or malformed.
- Ed25519 and SHA-256 are uninterpreted: a signature check is any predicate on bytes and signature, a digest any function.
- Scoring, deps.dev, the approval service and repository lookup are one arbitrary answer to Evaluate; it may also be pending or unavailable.
- The npm single-version document's exemption from the release window, and the window's clock arithmetic: bounds and publish times are inputs.
- Report mode, which relays every refusal, and byte-gate off are outside the safety statements by design; off appears only as the mode that serves.
- The Maven path grammar, PyPI's file-to-version join and OCI's digest binding: the release each path names is an input, known or unknown.
- Write requests, interception, signed artifact URLs, the minted tarball's binding to its package and the wheel metadata table are not modelled.
- The npm single-version document, the order of the removed list and the notice texts of the packument filter.
- Log wording and reason strings, except which transition lines appear and in what order.
- The parsers' size limits and scanner errors, and the warnings for widened OCI entries.
- Nil receivers: an unconfigured feed or list is an empty one, and a firewall without a slot table is not modelled.
- flightGroup and ttlLRU: sources outside this model; coalescing is nothing and a cache is a map whose entries may vanish at any step.
- Fairness: a slot is freed because its owner's next steps free it; that the scheduler runs them is not part of the model.
- FlowRecorder.RecordRelayBytes: does not model int64 wrap-around of a counter; counters are natural numbers.
- FeedFetcher.FetchOnce: does not model failed downloads, which change nothing but the outcome; the look its comparison begins with is a read of its own.
- DisplayReparses: does not cover OCI lists, whose bare entries widen to the repository and whose empty repository displays as an empty line.
- BuildEntries, Drain: sort.Strings and sort.Slice are insertion sorts here; only their results are used.
