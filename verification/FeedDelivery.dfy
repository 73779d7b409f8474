/** feedfetch.go against malwarereload.go and feedsig.go: one fetcher replacing two files on
    a mount that anyone may write, and one reader verifying what it finds there. Signatures
    are an arbitrary relation between signature and content. */
module FeedDelivery {
  import opened GoStrings
  import opened MalwareFeed
  import opened FeedReload

  type Content = seq<Line>
  type Sig = string
  type Verifier = (Content, Sig) -> bool

  /** A file on the mount, and which install put it there. */
  datatype Cell<T> = Cell(value: T, install: nat)

  datatype FetcherPC = Idle | Writing(content: Content, sig: Sig) | SigWritten(content: Content)
  datatype ReaderPC = Waiting | GotData(data: Cell<Content>)

  /** installs counts the snapshots the fetcher has begun to install. */
  datatype Mount = Mount(
    data: Option<Cell<Content>>, sig: Option<Cell<Sig>>, installs: nat,
    fetcher: FetcherPC, reader: ReaderPC, inForce: Option<Feed>)

  // ---------------------------------------------------------------- the two halves

  /** loadMalwareList with a key: verify before parsing, so nothing unverified becomes a feed. */
  function LoadSigned(ver: Verifier, data: Content, sig: Option<Cell<Sig>>): Result<Feed> {
    if sig.None? then Err(Unreadable)
    else if !ver(data, sig.value.value) then Err(BadSignature)
    else ParseSignedFeed(data)
  }

  /** fetchOnce up to the install: verified, parsed, and newer than the feed in force. */
  function FetchAccepts(ver: Verifier, inForce: Option<Feed>, content: Content, sig: Sig): bool {
    && ver(content, sig)
    && ParseSignedFeed(content).Ok?
    && (inForce.Some? && inForce.value.header.Some? ==>
          ParseSignedFeed(content).value.header.value.serial > inForce.value.header.value.serial)
  }

  /** The reader keeps what it has unless the load succeeds and does not go backwards. */
  function Adopt(inForce: Option<Feed>, load: Result<Feed>): Option<Feed> {
    if load.Err? || Backwards(inForce, load.value) then inForce else Some(load.value)
  }

  datatype Label =
    | Fetch(content: Content, sig: Sig)   // pulled from the network
    | WriteSig(ok: bool)                  // rename the signature into place, or fail
    | WriteData(ok: bool)                 // then the snapshot
    | ReadData                            // the reader opens and reads the snapshot
    | ReadSig                             // then the signature, and decides
    | Tamper(newData: Option<Content>, newSig: Option<Sig>)   // anyone else with write access

  predicate Enabled(m: Mount, l: Label) {
    match l
    case Fetch(_, _) => m.fetcher.Idle?
    case WriteSig(_) => m.fetcher.Writing?
    case WriteData(_) => m.fetcher.SigWritten?
    case ReadData => m.reader.Waiting?
    case ReadSig => m.reader.GotData?
    case Tamper(_, _) => true
  }

  function Next(m: Mount, ver: Verifier, l: Label): Mount
    requires Enabled(m, l)
  {
    match l
    case Fetch(c, s) =>
      if FetchAccepts(ver, m.inForce, c, s) then m.(fetcher := Writing(c, s), installs := m.installs + 1) else m
    case WriteSig(ok) =>
      if ok then m.(sig := Some(Cell(m.fetcher.sig, m.installs)), fetcher := SigWritten(m.fetcher.content))
      else m.(fetcher := Idle)
    case WriteData(ok) =>
      if ok then m.(data := Some(Cell(m.fetcher.content, m.installs)), fetcher := Idle) else m.(fetcher := Idle)
    case ReadData => if m.data.Some? then m.(reader := GotData(m.data.value)) else m
    case ReadSig => m.(reader := Waiting, inForce := Adopt(m.inForce, LoadSigned(ver, m.reader.data.value, m.sig)))
    case Tamper(d, s) =>
      m.(data := if d.Some? then Some(Cell(d.value, 0)) else None,
         sig := if s.Some? then Some(Cell(s.value, 0)) else None)
  }

  /** Startup loads the feed through the same verification, or has none. */
  ghost predicate Initial(m: Mount, ver: Verifier) {
    && m.fetcher.Idle? && m.reader.Waiting? && m.installs == 0
    && (m.data.Some? ==> m.data.value.install == 0) && (m.sig.Some? ==> m.sig.value.install == 0)
    && (m.inForce.Some? ==> Verified(ver, m.inForce.value))
  }

  ghost predicate Run(states: seq<Mount>, labels: seq<Label>, ver: Verifier) {
    && |states| == |labels| + 1
    && Initial(states[0], ver)
    && forall k :: 0 <= k < |labels| ==>
         Enabled(states[k], labels[k]) && states[k + 1] == Next(states[k], ver, labels[k])
  }

  /** f came from bytes the key verified. */
  ghost predicate Verified(ver: Verifier, f: Feed) {
    exists sig :: ver(f.content, sig) && ParseSignedFeed(f.content) == Ok(f)
  }

  // ---------------------------------------------------------------- safety on a hostile mount

  lemma ParsedContent(lines: Content)
    requires ParseSignedFeed(lines).Ok?
    ensures ParseSignedFeed(lines).value.content == lines && ParseSignedFeed(lines).value.header.Some?
  {
  }

  /** How hostile: at any moment anyone may put anything on the mount, or remove it. */
  lemma AnythingMayLand(m: Mount, ver: Verifier, d: Option<Content>, s: Option<Sig>)
    ensures Enabled(m, Tamper(d, s))
    ensures var n := Next(m, ver, Tamper(d, s));
            && n == m.(data := n.data, sig := n.sig)
            && (d.Some? <==> n.data.Some?) && (d.Some? ==> n.data.value == Cell(d.value, 0))
            && (s.Some? <==> n.sig.Some?) && (s.Some? ==> n.sig.value == Cell(s.value, 0))
  {
  }

  lemma SafeStep(m: Mount, ver: Verifier, l: Label)
    requires Enabled(m, l) && (m.inForce.Some? ==> Verified(ver, m.inForce.value))
    ensures var f := Next(m, ver, l).inForce;
            (f.Some? ==> Verified(ver, f.value)) && NotBackwards(m.inForce, f)
  {
    if m.inForce.Some? { ParsedContent(m.inForce.value.content); }
    if l.ReadSig? {
      var load := LoadSigned(ver, m.reader.data.value, m.sig);
      if load.Ok? {
        ParsedContent(m.reader.data.value);
        assert ver(load.value.content, m.sig.value.value);
        assert Verified(ver, load.value);
      }
    }
    hide ParseSignedFeed;
  }

  lemma {:induction false} AlwaysVerified(states: seq<Mount>, labels: seq<Label>, ver: Verifier, k: nat)
    requires Run(states, labels, ver) && k < |states|
    ensures states[k].inForce.Some? ==> Verified(ver, states[k].inForce.value)
  {
    hide Next, Verified;
    if k > 0 {
      AlwaysVerified(states, labels, ver, k - 1);
      SafeStep(states[k - 1], ver, labels[k - 1]);
    }
  }

  lemma NotBackwardsTrans(a: Option<Feed>, b: Option<Feed>, c: Option<Feed>)
    requires NotBackwards(a, b) && NotBackwards(b, c)
    ensures NotBackwards(a, c)
  {
  }

  /** With a key configured, whatever anyone writes to the mount and whenever installs and
      reads interleave: the feed in force always verified, is never lost once loaded, and
      its serial never decreases. */
  lemma {:induction false} FeedInForceIsSafe(states: seq<Mount>, labels: seq<Label>, ver: Verifier, i: nat, j: nat)
    requires Run(states, labels, ver) && i <= j < |states|
    ensures states[j].inForce.Some? ==> Verified(ver, states[j].inForce.value)
    ensures NotBackwards(states[i].inForce, states[j].inForce)
  {
    AlwaysVerified(states, labels, ver, j);
    if i == j {
      VerifiedIsHeaded(ver, states[i].inForce);
    } else {
      FeedInForceIsSafe(states, labels, ver, i, j - 1);
      SafeStep(states[j - 1], ver, labels[j - 1]);
      NotBackwardsTrans(states[i].inForce, states[j - 1].inForce, states[j].inForce);
    }
    hide Next, Verified, NotBackwards;
  }

  lemma VerifiedIsHeaded(ver: Verifier, f: Option<Feed>)
    requires f.Some? ==> Verified(ver, f.value)
    ensures NotBackwards(f, f)
  {
    if f.Some? { ParsedContent(f.value.content); }
  }

  // ---------------------------------------------------------------- the fetcher only writes what verifies

  /** Every snapshot the fetcher is about to write has verified and parsed. */
  ghost predicate FetcherInv(m: Mount, ver: Verifier) {
    match m.fetcher
    case Idle => true
    case Writing(c, s) => ver(c, s) && ParseSignedFeed(c).Ok?
    case SigWritten(c) => ParseSignedFeed(c).Ok? && exists s :: ver(c, s)
  }

  lemma {:induction false} VerifiedBeforeWrite(states: seq<Mount>, labels: seq<Label>, ver: Verifier, k: nat)
    requires Run(states, labels, ver) && k < |states|
    ensures FetcherInv(states[k], ver)
  {
    hide ParseSignedFeed, Adopt, LoadSigned;
    if k > 0 {
      VerifiedBeforeWrite(states, labels, ver, k - 1);
      var m, l := states[k - 1], labels[k - 1];
      if l.WriteSig? { assert ver(m.fetcher.content, m.fetcher.sig); }
    }
  }

  // ---------------------------------------------------------------- pairing without interference

  ghost predicate Untampered(labels: seq<Label>) {
    forall k :: 0 <= k < |labels| ==> !labels[k].Tamper?
  }

  /** Which install a cell comes from; an absent file is older than any. */
  function Age<T>(c: Option<Cell<T>>): int {
    if c.Some? then c.value.install else -1
  }

  /** The signature on the mount is never from an older install than the snapshot on it, nor
      than the snapshot the reader holds. */
  predicate PairInv(m: Mount) {
    && Age(m.data) <= m.installs && Age(m.sig) <= m.installs
    && (m.data.Some? ==> m.sig.Some?)
    && Age(m.data) <= Age(m.sig)
    && (m.fetcher.SigWritten? ==> Age(m.sig) == m.installs)
    && (m.reader.GotData? ==> m.sig.Some? && m.reader.data.install <= Age(m.sig))
  }

  lemma PairStep(m: Mount, ver: Verifier, l: Label)
    requires PairInv(m) && Enabled(m, l) && !l.Tamper?
    ensures PairInv(Next(m, ver, l))
  {
    hide ParseSignedFeed, FetchAccepts, Adopt, LoadSigned;
  }

  lemma {:induction false} PairRun(states: seq<Mount>, labels: seq<Label>, ver: Verifier, k: nat)
    requires Run(states, labels, ver) && Untampered(labels) && k < |states|
    requires states[0].data.Some? ==> states[0].sig.Some?
    ensures PairInv(states[k])
  {
    hide Next;
    if k > 0 {
      PairRun(states, labels, ver, k - 1);
      PairStep(states[k - 1], ver, labels[k - 1]);
    }
  }

  /** What each install put on the mount: cells of one install match each other. */
  ghost predicate Matched(ver: Verifier, data: Cell<Content>, sig: Cell<Sig>) {
    data.install == sig.install ==> ver(data.value, sig.value)
  }

  ghost predicate MatchInv(m: Mount, ver: Verifier) {
    && (m.data.Some? && m.sig.Some? ==> Matched(ver, m.data.value, m.sig.value))
    && (m.reader.GotData? && m.sig.Some? ==> Matched(ver, m.reader.data, m.sig.value))
    && (m.fetcher.Writing? ==> ver(m.fetcher.content, m.fetcher.sig))
    && (m.fetcher.Writing? ==> Age(m.sig) < m.installs && Age(m.data) < m.installs)
    && (m.fetcher.Writing? && m.reader.GotData? ==> m.reader.data.install < m.installs)
    && (m.fetcher.SigWritten? ==>
         m.sig.Some? && m.sig.value.install == m.installs && ver(m.fetcher.content, m.sig.value.value))
    && (m.reader.GotData? ==> m.reader.data.install <= m.installs)
  }

  lemma MatchStep(m: Mount, ver: Verifier, l: Label)
    requires PairInv(m) && MatchInv(m, ver) && Enabled(m, l) && !l.Tamper?
    ensures MatchInv(Next(m, ver, l), ver)
  {
    hide ParseSignedFeed, Adopt, LoadSigned;
  }

  lemma {:induction false} MatchRun(states: seq<Mount>, labels: seq<Label>, ver: Verifier, k: nat)
    requires Run(states, labels, ver) && Untampered(labels) && k < |states|
    requires states[0].data.Some? ==> states[0].sig.Some? && ver(states[0].data.value.value, states[0].sig.value.value)
    ensures MatchInv(states[k], ver)
  {
    hide Next;
    if k > 0 {
      MatchRun(states, labels, ver, k - 1);
      PairRun(states, labels, ver, k - 1);
      MatchStep(states[k - 1], ver, labels[k - 1]);
    }
  }

  /** Installs by one fetcher, even failing half-way, never make the reader pair a snapshot
      with a signature from an older install; when both are from one install it verifies.
      So a read is refused for its signature only if a newer signature had already landed. */
  lemma SignatureNeverStale(states: seq<Mount>, labels: seq<Label>, ver: Verifier, k: nat)
    requires Run(states, labels, ver) && Untampered(labels) && k < |labels| && labels[k].ReadSig?
    requires states[0].data.Some? ==> states[0].sig.Some? && ver(states[0].data.value.value, states[0].sig.value.value)
    ensures var m := states[k];
            && m.sig.Some? && m.reader.data.install <= m.sig.value.install
            && (!ver(m.reader.data.value, m.sig.value.value) ==> m.reader.data.install < m.sig.value.install)
  {
    PairRun(states, labels, ver, k);
    MatchRun(states, labels, ver, k);
    assert Enabled(states[k], labels[k]);
    hide Next;
  }

  /** That other case does happen, in two ways. Here, a read that starts before an install and
      ends between its two renames holds the old snapshot and the new signature, and is refused;
      below, an install that stops between its renames. */
  lemma OverlappingReadRefused(ver: Verifier, old0: Content, sig0: Sig, new1: Content, sig1: Sig, m: Mount)
    requires Initial(m, ver) && m.data == Some(Cell(old0, 0)) && m.sig == Some(Cell(sig0, 0))
    requires ver(old0, sig0) && !ver(old0, sig1) && FetchAccepts(ver, m.inForce, new1, sig1)
    ensures var m1 := Next(m, ver, Fetch(new1, sig1));
            var m2 := Next(m1, ver, ReadData);
            var m3 := Next(m2, ver, WriteSig(true));
            var m4 := Next(m3, ver, ReadSig);
            && LoadSigned(ver, m3.reader.data.value, m3.sig) == Err(BadSignature)
            && m4.inForce == m.inForce
  {
    hide ParseSignedFeed, FetchAccepts;
  }

  // ---------------------------------------------------------------- what a pull and a read decide

  /** The serial a content declares, where it is a signed feed that loads. */
  function Declared(c: Content): int
    requires SignedFeedOk(c)
  {
    Headers(c)[0].serial
  }

  /** A pull is written if and only if it verifies, loads as a signed feed, and is newer than the
      feed in force where that declares a serial; else nothing changes. */
  lemma FetchDecides(m: Mount, ver: Verifier, c: Content, s: Sig)
    requires m.fetcher.Idle?
    ensures var n := Next(m, ver, Fetch(c, s));
            if ver(c, s) && SignedFeedOk(c) && (Serial(m.inForce).None? || Declared(c) > Serial(m.inForce).value) then
              n == m.(fetcher := Writing(c, s), installs := m.installs + 1)
            else n == m
  {
    SignedLoadsExactly(c);
    hide ParseSignedFeed, ParseMalwareList, SignedFeedOk;
  }

  /** The snapshot the reader holds verifies against the signature on the mount, loads as a signed
      feed, and is not older than the feed in force. */
  predicate Takes(m: Mount, ver: Verifier)
    requires m.reader.GotData?
  {
    var c := m.reader.data.value;
    && m.sig.Some? && ver(c, m.sig.value.value) && SignedFeedOk(c)
    && (Serial(m.inForce).None? || Declared(c) >= Serial(m.inForce).value)
  }

  /** A read puts the snapshot it read in force if and only if the signature it then meets verifies
      it, it loads as a signed feed, and its serial is not below the one in force; else the feed in
      force stays. Nothing on the mount changes. */
  lemma ReadDecides(m: Mount, ver: Verifier)
    requires m.reader.GotData?
    ensures var n, c := Next(m, ver, ReadSig), m.reader.data.value;
            && n == m.(reader := Waiting, inForce := n.inForce)
            && (SignedFeedOk(c) ==>
                  ParseMalwareList(c).Ok? && Serial(Some(ParseMalwareList(c).value)) == Some(Declared(c)))
            && n.inForce == (if Takes(m, ver) then Some(ParseMalwareList(c).value) else m.inForce)
  {
    SignedLoadsExactly(m.reader.data.value);
    hide ParseSignedFeed, ParseMalwareList, SignedFeedOk;
  }

  // ---------------------------------------------------------------- delivery

  /** From step i to step j nothing is renamed into place. */
  predicate NoRename(labels: seq<Label>, i: nat, j: nat) {
    forall x :: i <= x < j && x < |labels| ==> labels[x] != WriteSig(true) && labels[x] != WriteData(true)
  }

  predicate NoReadEnds(labels: seq<Label>, i: nat, j: nat) {
    forall x :: i <= x < j && x < |labels| ==> labels[x] != ReadSig
  }

  /** What a step that renames nothing and ends no read leaves as it is. */
  lemma QuietStep(m: Mount, ver: Verifier, l: Label)
    requires Enabled(m, l) && !l.Tamper? && l != ReadSig
    ensures var n := Next(m, ver, l);
            && n.inForce == m.inForce
            && (l != WriteSig(true) && l != WriteData(true) ==> n.data == m.data && n.sig == m.sig)
            && (m.reader.GotData? ==> n.reader == m.reader)
  {
    hide FetchAccepts;
  }

  lemma {:induction false} QuietRun(states: seq<Mount>, labels: seq<Label>, ver: Verifier, i: nat, j: nat)
    requires Run(states, labels, ver) && Untampered(labels) && i <= j < |states| && NoReadEnds(labels, i, j)
    ensures states[j].inForce == states[i].inForce
    ensures states[i].reader.GotData? ==> states[j].reader == states[i].reader
  {
    hide Next, Enabled;
    if i < j {
      QuietRun(states, labels, ver, i, j - 1);
      assert Enabled(states[j - 1], labels[j - 1]) && !labels[j - 1].Tamper?;
      QuietStep(states[j - 1], ver, labels[j - 1]);
    }
  }

  /** A read that ends replaces no file. */
  lemma FilesStep(m: Mount, ver: Verifier, l: Label)
    requires Enabled(m, l) && !l.Tamper? && l != WriteSig(true) && l != WriteData(true)
    ensures Next(m, ver, l).data == m.data && Next(m, ver, l).sig == m.sig
  {
    hide FetchAccepts, Adopt, LoadSigned;
  }

  lemma {:induction false} FilesRun(states: seq<Mount>, labels: seq<Label>, ver: Verifier, i: nat, j: nat)
    requires Run(states, labels, ver) && Untampered(labels) && i <= j < |states| && NoRename(labels, i, j)
    ensures states[j].data == states[i].data && states[j].sig == states[i].sig
  {
    hide Next, Enabled;
    if i < j {
      FilesRun(states, labels, ver, i, j - 1);
      assert Enabled(states[j - 1], labels[j - 1]) && !labels[j - 1].Tamper?;
      FilesStep(states[j - 1], ver, labels[j - 1]);
    }
  }

  /** What a completed install leaves on the mount: its content beside a signature that verifies it. */
  lemma InstallLands(states: seq<Mount>, labels: seq<Label>, ver: Verifier, i: nat)
    requires Run(states, labels, ver) && Untampered(labels) && MatchedStart(states[0], ver)
    requires i < |labels| && labels[i] == WriteData(true)
    ensures states[i].fetcher.SigWritten? && SignedFeedOk(states[i].fetcher.content)
    ensures var m := states[i + 1];
            m.data.Some? && m.data.value.value == states[i].fetcher.content && m.sig.Some? &&
            ver(m.data.value.value, m.sig.value.value)
  {
    MatchRun(states, labels, ver, i);
    VerifiedBeforeWrite(states, labels, ver, i);
    assert Enabled(states[i], labels[i]) && states[i + 1] == Next(states[i], ver, labels[i]);
    SignedLoadsExactly(states[i].fetcher.content);
    hide ParseSignedFeed, FetchAccepts, Adopt, LoadSigned, SignedFeedOk;
  }

  /** The snapshot a read took, where it starts after an install and no rename follows it. */
  lemma ReadTakes(states: seq<Mount>, labels: seq<Label>, ver: Verifier, i: nat, a: nat, b: nat)
    requires Run(states, labels, ver) && Untampered(labels) && MatchedStart(states[0], ver)
    requires i < a < b < |labels| && labels[i] == WriteData(true) && labels[a] == ReadData && labels[b] == ReadSig
    requires NoRename(labels, i + 1, b) && NoReadEnds(labels, a, b)
    ensures states[b].reader.GotData? && states[b].reader.data == states[i + 1].data.value
    ensures states[b].sig == states[i + 1].sig
  {
    hide Enabled, Untampered;
    FilesRun(states, labels, ver, i + 1, a);
    FilesRun(states, labels, ver, i + 1, b);
    InstallLands(states, labels, ver, i);
    assert Enabled(states[a], labels[a]) && states[a + 1] == Next(states[a], ver, labels[a]);
    assert states[a + 1].reader == GotData(states[a].data.value);
    hide Next;
    QuietRun(states, labels, ver, a + 1, b);
  }

  /** Delivery: on an untampered mount that starts matched, a read that starts after an install and
      ends before any further rename is not refused. It leaves that install's content in force if
      and only if the content is not older than the feed then in force. */
  lemma Delivered(states: seq<Mount>, labels: seq<Label>, ver: Verifier, i: nat, a: nat, b: nat)
    requires Run(states, labels, ver) && Untampered(labels) && MatchedStart(states[0], ver)
    requires i < a < b < |labels| && labels[i] == WriteData(true) && labels[a] == ReadData && labels[b] == ReadSig
    requires NoRename(labels, i + 1, b) && NoReadEnds(labels, a, b)
    ensures states[i].fetcher.SigWritten? && SignedFeedOk(states[i].fetcher.content)
    ensures ParseMalwareList(states[i].fetcher.content).Ok?
    ensures var c := states[i].fetcher.content;
            states[b + 1].inForce ==
            if Serial(states[b].inForce).None? || Declared(c) >= Serial(states[b].inForce).value
            then Some(ParseMalwareList(c).value) else states[b].inForce
  {
    InstallLands(states, labels, ver, i);
    ReadTakes(states, labels, ver, i, a, b);
    assert Enabled(states[b], labels[b]) && states[b + 1] == Next(states[b], ver, labels[b]);
    hide Next, ParseMalwareList, SignedFeedOk;
    ReadDecides(states[b], ver);
  }

  /** The fetcher, from a pull to the install it leads to. */
  predicate Installing(m: Mount, c: Content) {
    m.fetcher.Idle? || m.fetcher.content == c
  }

  lemma {:induction false} PullToInstall(states: seq<Mount>, labels: seq<Label>, ver: Verifier, f: nat, i: nat)
    requires Run(states, labels, ver) && f < i < |states| && labels[f].Fetch?
    requires forall x :: f < x < i ==> !labels[x].Fetch?
    ensures Installing(states[i], labels[f].content)
    ensures states[f + 1] == states[f] ==> states[i].fetcher.Idle?
  {
    assert Enabled(states[i - 1], labels[i - 1]) && states[i] == Next(states[i - 1], ver, labels[i - 1]);
    hide FetchAccepts, Adopt, LoadSigned;
    if i > f + 1 {
      PullToInstall(states, labels, ver, f, i - 1);
    }
  }

  /** In particular, if no read ended since the pull the install came from, the content pulled is in
      force after that read. */
  lemma DeliveredUndisturbed(states: seq<Mount>, labels: seq<Label>, ver: Verifier, f: nat, i: nat, a: nat, b: nat)
    requires Run(states, labels, ver) && Untampered(labels) && MatchedStart(states[0], ver)
    requires f < i < a < b < |labels| && labels[f].Fetch? && labels[i] == WriteData(true)
    requires labels[a] == ReadData && labels[b] == ReadSig
    requires (forall x :: f < x < i ==> !labels[x].Fetch?) && NoRename(labels, i + 1, b) && NoReadEnds(labels, f, b)
    ensures ParseMalwareList(labels[f].content).Ok?
    ensures states[b + 1].inForce == Some(ParseMalwareList(labels[f].content).value)
  {
    hide ParseMalwareList, SignedFeedOk, Next, MatchedStart, Untampered;
    Delivered(states, labels, ver, i, a, b);
    PullToInstall(states, labels, ver, f, i);
    QuietRun(states, labels, ver, f, b);
    assert Enabled(states[f], labels[f]) && states[f + 1] == Next(states[f], ver, labels[f]);
    FetchDecides(states[f], ver, labels[f].content, labels[f].sig);
  }

  /** Two pulls and one read. The look with which the second pull begins failed, so it compares
      with a feed the first install has not reached. */
  function Overtaken(hi: Content, s1: Sig, lo: Content, s2: Sig): seq<Label> {
    [Fetch(hi, s1), WriteSig(true), WriteData(true), Fetch(lo, s2), WriteSig(true), WriteData(true), ReadData, ReadSig]
  }

  /** Why delivery asks that no rename comes in between: a pull is compared with the feed in force,
      not with what is installed, so an older snapshot can be installed over a newer one that was
      not read yet. The read then takes the older one. */
  lemma OvertakenInstall(states: seq<Mount>, labels: seq<Label>, ver: Verifier, hi: Content, s1: Sig, lo: Content,
      s2: Sig)
    requires Run(states, labels, ver) && labels == Overtaken(hi, s1, lo, s2)
    requires SignedFeedOk(hi) && SignedFeedOk(lo) && ver(hi, s1) && ver(lo, s2) && Declared(lo) < Declared(hi)
    requires Serial(states[0].inForce).None? || Serial(states[0].inForce).value < Declared(lo)
    ensures states[3].data.Some? && states[3].data.value.value == hi
    ensures states[6].data.Some? && states[6].data.value.value == lo
    ensures ParseMalwareList(lo).Ok? && states[8].inForce == Some(ParseMalwareList(lo).value)
  {
    hide Next, SignedFeedOk, ParseMalwareList, Declared, Serial;
    Step(states, labels, ver, 0);
    FetchDecides(states[0], ver, hi, s1);
    Step(states, labels, ver, 1);
    Step(states, labels, ver, 2);
    Renames(states[1], ver);
    Step(states, labels, ver, 3);
    FetchDecides(states[3], ver, lo, s2);
    Step(states, labels, ver, 4);
    Step(states, labels, ver, 5);
    Renames(states[4], ver);
    Step(states, labels, ver, 6);
    Reads(states[6], ver);
    Step(states, labels, ver, 7);
    ReadDecides(states[7], ver);
  }

  lemma Step(states: seq<Mount>, labels: seq<Label>, ver: Verifier, k: nat)
    requires Run(states, labels, ver) && k < |labels|
    ensures Enabled(states[k], labels[k]) && states[k + 1] == Next(states[k], ver, labels[k])
  {
    hide Next;
  }

  /** The two renames: what each leaves when it succeeds, and that a failure ends the attempt with
      the mount as it was. */
  lemma Renames(m: Mount, ver: Verifier)
    requires m.fetcher.Writing?
    ensures Next(m, ver, WriteSig(false)) == m.(fetcher := Idle)
    ensures var n := Next(m, ver, WriteSig(true));
            && n == m.(sig := n.sig, fetcher := SigWritten(m.fetcher.content))
            && n.sig.Some? && n.sig.value.value == m.fetcher.sig
            && Next(n, ver, WriteData(false)) == n.(fetcher := Idle)
            && var o := Next(n, ver, WriteData(true));
               o == n.(data := o.data, fetcher := Idle) && o.data.Some? && o.data.value.value == m.fetcher.content
  {
  }

  lemma Reads(m: Mount, ver: Verifier)
    requires m.reader.Waiting? && m.data.Some?
    ensures Next(m, ver, ReadData) == m.(reader := GotData(m.data.value))
  {
  }

  // ---------------------------------------------------------------- exactly when a read is refused

  /** The reader's snapshot does not verify against the signature now on the mount. */
  predicate SignatureRefused(ver: Verifier, m: Mount)
    requires m.reader.GotData?
  {
    m.sig.Some? && !ver(m.reader.data.value, m.sig.value.value)
  }

  /** The snapshot cell was put on the mount just before step d, or was there from the start. */
  ghost predicate InstalledAt(states: seq<Mount>, labels: seq<Label>, d: nat, cell: Cell<Content>)
    requires |states| == |labels| + 1
  {
    d < |states| && states[d].data == Some(cell) && (d == 0 || labels[d - 1] == WriteData(true))
  }

  /** The mount starts with a snapshot that its signature verifies, or with none. */
  ghost predicate MatchedStart(m: Mount, ver: Verifier) {
    m.data.Some? ==> m.sig.Some? && ver(m.data.value.value, m.sig.value.value)
  }

  ghost predicate SigRenamed(labels: seq<Label>, d: nat, k: nat) {
    exists w: nat :: d <= w < k && w < |labels| && labels[w] == WriteSig(true)
  }

  lemma {:induction false} DataOrigin(states: seq<Mount>, labels: seq<Label>, ver: Verifier, k: nat) returns (d: nat)
    requires Run(states, labels, ver) && Untampered(labels) && k < |states| && states[k].data.Some?
    ensures d <= k && InstalledAt(states, labels, d, states[k].data.value)
  {
    hide ParseSignedFeed, FetchAccepts, Adopt, LoadSigned;
    if k == 0 || labels[k - 1] == WriteData(true) {
      d := k;
    } else {
      DataKept(states[k - 1], ver, labels[k - 1]);
      hide Next;
      d := DataOrigin(states, labels, ver, k - 1);
    }
  }

  lemma DataKept(m: Mount, ver: Verifier, l: Label)
    requires Enabled(m, l) && !l.Tamper?
    ensures l != WriteData(true) ==> Next(m, ver, l).data == m.data
    ensures l != WriteSig(true) ==> Next(m, ver, l).sig == m.sig
  {
    hide ParseSignedFeed, FetchAccepts, Adopt, LoadSigned;
  }

  /** Whatever snapshot the reader holds was installed at some earlier step. */
  lemma {:induction false} ReaderSnapshot(states: seq<Mount>, labels: seq<Label>, ver: Verifier, k: nat)
    returns (d: nat)
    requires Run(states, labels, ver) && Untampered(labels) && k < |states| && states[k].reader.GotData?
    ensures d <= k && InstalledAt(states, labels, d, states[k].reader.data)
  {
    ReaderStep(states[k - 1], ver, labels[k - 1]);
    hide Next;
    if states[k - 1].reader == states[k].reader {
      d := ReaderSnapshot(states, labels, ver, k - 1);
    } else {
      d := DataOrigin(states, labels, ver, k - 1);
    }
  }

  lemma ReaderStep(m: Mount, ver: Verifier, l: Label)
    requires Enabled(m, l)
    ensures var n := Next(m, ver, l);
            n.reader.GotData? ==> n.reader == m.reader || (m.data.Some? && n.reader.data == m.data.value)
  {
    hide ParseSignedFeed, FetchAccepts, Adopt, LoadSigned;
  }

  /** When a snapshot lands, the signature beside it is of the same install. */
  lemma SigAtInstall(states: seq<Mount>, labels: seq<Label>, ver: Verifier, d: nat, cell: Cell<Content>)
    requires Run(states, labels, ver) && Untampered(labels) && MatchedStart(states[0], ver)
    requires InstalledAt(states, labels, d, cell)
    ensures states[d].sig.Some? && states[d].sig.value.install == cell.install
  {
    hide ParseSignedFeed, FetchAccepts, Adopt, LoadSigned;
    if d > 0 {
      MatchRun(states, labels, ver, d - 1);
      assert Enabled(states[d - 1], labels[d - 1]);
    }
  }

  lemma SigStep(m: Mount, ver: Verifier, l: Label)
    requires MatchInv(m, ver) && Enabled(m, l) && !l.Tamper?
    ensures var n := Next(m, ver, l);
            if l == WriteSig(true) then Age(n.sig) > Age(m.sig) else n.sig == m.sig
  {
    hide ParseSignedFeed, FetchAccepts, Adopt, LoadSigned;
  }

  /** From step d to step k the signature gets newer exactly if a signature rename succeeds. */
  lemma {:induction false} SigAges(states: seq<Mount>, labels: seq<Label>, ver: Verifier, d: nat, k: nat)
    requires Run(states, labels, ver) && Untampered(labels) && MatchedStart(states[0], ver) && d <= k < |states|
    ensures if SigRenamed(labels, d, k) then Age(states[k].sig) > Age(states[d].sig) else states[k].sig == states[d].sig
  {
    if d < k {
      SigAges(states, labels, ver, d, k - 1);
      MatchRun(states, labels, ver, k - 1);
      SigStep(states[k - 1], ver, labels[k - 1]);
      hide Next, MatchInv;
      if labels[k - 1] == WriteSig(true) {
        assert SigRenamed(labels, d, k);
      } else {
        assert SigRenamed(labels, d, k) <==> SigRenamed(labels, d, k - 1);
      }
    }
  }

  /** The signature the reader meets is newer than its snapshot exactly when some signature
      rename succeeded after that snapshot landed and before the signature was read. */
  lemma NewerExactly(states: seq<Mount>, labels: seq<Label>, ver: Verifier, d: nat, k: nat)
    requires Run(states, labels, ver) && Untampered(labels) && MatchedStart(states[0], ver)
    requires d <= k < |states| && states[k].reader.GotData? && InstalledAt(states, labels, d, states[k].reader.data)
    ensures states[k].sig.Some?
    ensures states[k].reader.data.install < states[k].sig.value.install <==> SigRenamed(labels, d, k)
  {
    PairRun(states, labels, ver, k);
    SigAtInstall(states, labels, ver, d, states[k].reader.data);
    SigAges(states, labels, ver, d, k);
    hide Next, SigRenamed;
  }

  /** A signature vouches for the snapshot of its own install only. */
  ghost predicate Distinguishes(states: seq<Mount>, ver: Verifier) {
    forall i, j :: 0 <= i < |states| && 0 <= j < |states| && states[i].data.Some? && states[j].sig.Some? &&
                   states[i].data.value.install != states[j].sig.value.install ==>
                     !ver(states[i].data.value.value, states[j].sig.value.value)
  }

  /** Exactly when a read is refused for its signature, in terms of installs: on an untampered
      mount that starts matched, with signatures that tell installs apart, if and only if the
      signature on the mount is of a newer install than the snapshot the reader holds, and that
      is so if and only if a signature rename succeeded after the snapshot landed. It takes no
      overlap: the rename may be of an install whose snapshot never followed. */
  lemma RefusedIffNewer(states: seq<Mount>, labels: seq<Label>, ver: Verifier, k: nat) returns (d: nat)
    requires Run(states, labels, ver) && Untampered(labels) && MatchedStart(states[0], ver)
             && Distinguishes(states, ver)
    requires k < |labels| && labels[k].ReadSig?
    ensures states[k].reader.GotData? && d <= k && InstalledAt(states, labels, d, states[k].reader.data)
            && states[k].sig.Some?
    ensures SignatureRefused(ver, states[k]) <==> states[k].reader.data.install < states[k].sig.value.install
    ensures SignatureRefused(ver, states[k]) <==> SigRenamed(labels, d, k)
  {
    assert Enabled(states[k], labels[k]);
    d := ReaderSnapshot(states, labels, ver, k);
    NewerExactly(states, labels, ver, d, k);
    SignatureNeverStale(states, labels, ver, k);
    hide Next, SigRenamed;
    assert states[d].data.Some?;
  }

  /** A signature vouches for one content. */
  ghost predicate OneContent(ver: Verifier) {
    forall c, c', s :: ver(c, s) && ver(c', s) ==> c == c'
  }

  /** w is the last successful signature rename of steps d to k. */
  ghost predicate LastRename(labels: seq<Label>, d: nat, k: nat, w: nat) {
    && d <= w < k && w < |labels| && labels[w] == WriteSig(true)
    && forall x :: w < x < k && x < |labels| ==> labels[x] != WriteSig(true)
  }

  lemma {:induction false} SigFrom(states: seq<Mount>, labels: seq<Label>, ver: Verifier, d: nat, k: nat)
    returns (w: nat)
    requires Run(states, labels, ver) && Untampered(labels) && MatchedStart(states[0], ver) && d <= k < |states|
    requires SigRenamed(labels, d, k)
    ensures LastRename(labels, d, k, w) && states[w].fetcher.Writing?
    ensures states[k].sig.Some? && states[k].sig.value.value == states[w].fetcher.sig
    ensures ver(states[w].fetcher.content, states[w].fetcher.sig)
  {
    hide Next, MatchInv, Enabled, Untampered;
    MatchRun(states, labels, ver, k - 1);
    assert Enabled(states[k - 1], labels[k - 1]) && states[k] == Next(states[k - 1], ver, labels[k - 1]);
    if labels[k - 1] == WriteSig(true) {
      w := k - 1;
      SigRename(states[w], ver);
    } else {
      Honest(labels, k - 1);
      DataKept(states[k - 1], ver, labels[k - 1]);
      var x: nat :| d <= x < k && x < |labels| && labels[x] == WriteSig(true);
      assert SigRenamed(labels, d, k - 1);
      w := SigFrom(states, labels, ver, d, k - 1);
    }
  }

  lemma Honest(labels: seq<Label>, k: nat)
    requires Untampered(labels) && k < |labels|
    ensures !labels[k].Tamper?
  {
  }

  lemma SigRename(m: Mount, ver: Verifier)
    requires MatchInv(m, ver) && Enabled(m, WriteSig(true))
    ensures var n := Next(m, ver, WriteSig(true));
            m.fetcher.Writing? && n.sig.Some? && n.sig.value.value == m.fetcher.sig
            && ver(m.fetcher.content, m.fetcher.sig)
  {
  }

  lemma OneLastRename(labels: seq<Label>, d: nat, k: nat, w: nat, x: nat)
    requires LastRename(labels, d, k, w) && LastRename(labels, d, k, x)
    ensures w == x
  {
  }

  /** Exactly when a read is refused for its signature: on an untampered mount that starts
      matched, with signatures that vouch for one content each, if and only if, since the
      snapshot the reader holds landed, the last signature rename to succeed was of an install
      of other content. A refused read changes nothing. */
  lemma RefusedExactly(states: seq<Mount>, labels: seq<Label>, ver: Verifier, k: nat) returns (d: nat)
    requires Run(states, labels, ver) && Untampered(labels) && MatchedStart(states[0], ver) && OneContent(ver)
    requires k < |labels| && labels[k].ReadSig?
    ensures states[k].reader.GotData? && d <= k && InstalledAt(states, labels, d, states[k].reader.data)
    ensures forall w: nat :: LastRename(labels, d, k, w) ==> states[w].fetcher.Writing?
    ensures SignatureRefused(ver, states[k]) <==>
              exists w: nat :: LastRename(labels, d, k, w) && states[w].fetcher.content != states[k].reader.data.value
    ensures SignatureRefused(ver, states[k]) ==> states[k + 1].inForce == states[k].inForce
  {
    assert Enabled(states[k], labels[k]);
    d := ReaderSnapshot(states, labels, ver, k);
    NewerExactly(states, labels, ver, d, k);
    SignatureNeverStale(states, labels, ver, k);
    if SignatureRefused(ver, states[k]) { RefusedKeeps(states[k], ver); }
    hide Next;
    if SigRenamed(labels, d, k) {
      var w := SigFrom(states, labels, ver, d, k);
      forall x: nat | LastRename(labels, d, k, x) ensures x == w {
        OneLastRename(labels, d, k, w, x);
      }
    } else {
      forall x: nat ensures !LastRename(labels, d, k, x) {
        NoneRenamed(labels, d, k, x);
      }
    }
  }

  lemma NoneRenamed(labels: seq<Label>, d: nat, k: nat, w: nat)
    requires !SigRenamed(labels, d, k)
    ensures !LastRename(labels, d, k, w)
  {
  }

  lemma RefusedKeeps(m: Mount, ver: Verifier)
    requires m.reader.GotData? && SignatureRefused(ver, m)
    ensures LoadSigned(ver, m.reader.data.value, m.sig) == Err(BadSignature)
    ensures Next(m, ver, ReadSig) == m.(reader := Waiting)
  {
    hide ParseSignedFeed;
  }

  // ---------------------------------------------------------------- an install that fails half-way

  /** The snapshot on the mount does not verify against the signature beside it. */
  predicate Mismatched(ver: Verifier, m: Mount) {
    m.data.Some? && m.sig.Some? && !ver(m.data.value.value, m.sig.value.value)
  }

  /** Every read so far is of the files the mount has held since state m. */
  predicate Stuck(ver: Verifier, m: Mount, n: Mount) {
    && n.data == m.data && n.sig == m.sig && n.inForce == m.inForce
    && (n.reader.GotData? ==> Some(n.reader.data) == m.data)
  }

  lemma StuckStep(ver: Verifier, m: Mount, n: Mount, l: Label)
    requires Mismatched(ver, m) && Stuck(ver, m, n) && Enabled(n, l) && !l.Tamper?
    requires l != WriteSig(true) && l != WriteData(true)
    ensures Stuck(ver, m, Next(n, ver, l))
    ensures l.ReadSig? ==> SignatureRefused(ver, n)
  {
    hide ParseSignedFeed, FetchAccepts;
  }

  lemma {:induction false} StuckRun(states: seq<Mount>, labels: seq<Label>, ver: Verifier, i: nat, j: nat)
    requires Run(states, labels, ver) && Untampered(labels) && i <= j < |states|
    requires Mismatched(ver, states[i]) && states[i].reader.Waiting? && NoRename(labels, i, j)
    ensures Stuck(ver, states[i], states[j])
  {
    if i < j {
      StuckRun(states, labels, ver, i, j - 1);
      hide Next, Stuck;
      StuckStep(ver, states[i], states[j - 1], labels[j - 1]);
    }
  }

  /** An install whose signature rename succeeds and whose snapshot rename fails leaves the mount
      mismatched if it was of other content than the snapshot there. From then on every read is
      refused, overlapping or not, and the feed in force stays, until another rename succeeds. */
  lemma HalfInstallRefusesEveryRead(states: seq<Mount>, labels: seq<Label>, ver: Verifier, i: nat, j: nat)
    requires Run(states, labels, ver) && Untampered(labels) && i < j < |labels|
    requires labels[i] == WriteData(false) && states[i].reader.Waiting? && states[i].data.Some?
    requires states[i].fetcher.SigWritten? && states[i].fetcher.content != states[i].data.value.value
    requires MatchedStart(states[0], ver) && OneContent(ver) && NoRename(labels, i + 1, j)
    ensures Mismatched(ver, states[i + 1])
    ensures states[j].inForce == states[i].inForce
    ensures labels[j].ReadSig? ==> SignatureRefused(ver, states[j])
  {
    HalfInstallMismatches(states, labels, ver, i);
    StuckRun(states, labels, ver, i + 1, j);
    assert Enabled(states[j], labels[j]);
    if labels[j].ReadSig? { StuckStep(ver, states[i + 1], states[j], labels[j]); }
    hide Next;
  }

  lemma HalfInstallMismatches(states: seq<Mount>, labels: seq<Label>, ver: Verifier, i: nat)
    requires Run(states, labels, ver) && Untampered(labels) && i < |labels| && labels[i] == WriteData(false)
    requires states[i].data.Some? && MatchedStart(states[0], ver) && OneContent(ver)
    requires states[i].fetcher.SigWritten? && states[i].fetcher.content != states[i].data.value.value
    ensures states[i + 1] == states[i].(fetcher := Idle)
    ensures Mismatched(ver, states[i + 1])
  {
    MatchRun(states, labels, ver, i);
    assert Enabled(states[i], labels[i]) && states[i + 1] == Next(states[i], ver, labels[i]);
    hide ParseSignedFeed, FetchAccepts, Adopt, LoadSigned;
  }

  // ---------------------------------------------------------------- the fetcher as one call

  datatype Outcome = NoOutcome | Installed(serial: int) | Unchanged(serial: int) | Failed(error: Error)

  /** The mount after one whole fetchOnce, as the steps above compose. */
  function AfterFetch(m: Mount, ver: Verifier, c: Content, s: Sig, sigOk: bool, dataOk: bool): Mount
    requires m.fetcher.Idle?
  {
    var m1 := Next(m, ver, Fetch(c, s));
    if m1.fetcher.Idle? then m1
    else
      var m2 := Next(m1, ver, WriteSig(sigOk));
      if m2.fetcher.Idle? then m2 else Next(m2, ver, WriteData(dataOk))
  }

  /** The errors a load gives for itself. */
  lemma LoadErrors(c: Content)
    requires ParseSignedFeed(c).Err?
    ensures ParseSignedFeed(c).error in {BadLine, SecondHeader, NoHeader, RowCount}
  {
    LoadsExactly(c);
    hide ParseMalwareList, Headers;
  }

  class FeedFetcher {
    const ver: Verifier
    var data: Option<Cell<Content>>
    var sig: Option<Cell<Sig>>
    var installs: nat
    var writes: nat
    var lastOutcome: Outcome
    var log: seq<Outcome>

    /** The two files as the state machine sees them, given a reader and a feed in force. */
    ghost function Files(reader: ReaderPC, inForce: Option<Feed>): Mount
      reads this
    {
      Mount(data, sig, installs, Idle, reader, inForce)
    }

    constructor (ver: Verifier, data: Option<Cell<Content>>, sig: Option<Cell<Sig>>)
      ensures this.ver == ver && this.data == data && this.sig == sig
      ensures installs == 0 && writes == 0 && lastOutcome == NoOutcome && log == []
    {
      this.ver, this.data, this.sig := ver, data, sig;
      installs, writes, lastOutcome, log := 0, 0, NoOutcome, [];
    }

    /** Signature first, snapshot second; either rename may fail. */
    method Install(c: Content, s: Sig, sigOk: bool, dataOk: bool) returns (ok: bool)
      modifies this`data, this`sig
      ensures sig == if sigOk then Some(Cell(s, installs)) else old(sig)
      ensures data == if sigOk && dataOk then Some(Cell(c, installs)) else old(data)
      ensures ok == (sigOk && dataOk)
    {
      if !sigOk {
        return false;
      }
      sig := Some(Cell(s, installs));
      if !dataOk {
        return false;
      }
      data := Some(Cell(c, installs));
      ok := true;
    }

    /** One pull. Nothing is written unless the bytes verify, parse, and are newer than the
        feed in force. */
    method FetchOnce(inForce: Option<Feed>, c: Content, s: Sig, sigOk: bool, dataOk: bool) returns (o: Outcome)
      modifies this
      ensures forall r :: Files(r, inForce) == AfterFetch(old(Files(r, inForce)), ver, c, s, sigOk, dataOk)
      ensures o.Installed? <==>
                && ver(c, s) && SignedFeedOk(c) && sigOk && dataOk
                && (Serial(inForce).None? || Declared(c) > Serial(inForce).value)
      ensures o.Unchanged? <==> ver(c, s) && SignedFeedOk(c) && Serial(inForce) == Some(Declared(c))
      ensures o.Installed? || o.Unchanged? ==> o.serial == Declared(c)
      ensures o == Outcome.Failed(BadSignature) <==> !ver(c, s)
      ensures o == Outcome.Failed(OlderSerial) <==>
                ver(c, s) && SignedFeedOk(c) && Serial(inForce).Some? && Declared(c) < Serial(inForce).value
      ensures o.Installed? ==> data.Some? && data.value.value == c && sig.Some? && sig.value.value == s
      ensures writes == old(writes) + if o.Installed? then 1 else 0
      ensures log == old(log) && lastOutcome == old(lastOutcome)
    {
      SignedLoadsExactly(c);
      if ParseSignedFeed(c).Err? { LoadErrors(c); }
      hide ParseSignedFeed, ParseMalwareList, SignedFeedOk;
      if !ver(c, s) {
        return Outcome.Failed(BadSignature);
      }
      var next := ParseSignedFeed(c);
      if next.Err? {
        return Outcome.Failed(next.error);
      }
      ParsedContent(c);
      var serial := next.value.header.value.serial;
      if inForce.Some? && inForce.value.header.Some? {
        var current := inForce.value.header.value.serial;
        if serial < current {
          return Outcome.Failed(OlderSerial);
        }
        if serial == current {
          return Unchanged(current);
        }
      }
      installs := installs + 1;
      var ok := Install(c, s, sigOk, dataOk);
      if !ok {
        return Outcome.Failed(Unreadable);
      }
      writes := writes + 1;
      o := Installed(serial);
    }

    /** An outcome is logged when it differs from the last one. */
    method Report(o: Outcome)
      requires OncePerChange(log, lastOutcome)
      modifies this`lastOutcome, this`log
      ensures lastOutcome == o
      ensures log == if o == old(lastOutcome) then old(log) else old(log) + [o]
      ensures OncePerChange(log, lastOutcome)
    {
      var same := o == lastOutcome;
      lastOutcome := o;
      if same {
        return;
      }
      log := log + [o];
    }
  }

  /** No two neighbouring log lines say the same, and the last line is the last outcome. */
  predicate OncePerChange(log: seq<Outcome>, last: Outcome) {
    && (forall k :: 0 < k < |log| ==> log[k - 1] != log[k])
    && (if log == [] then last == NoOutcome else log[|log| - 1] == last)
  }
}
