/** The whole protocol over honest runs: append, publish, archive (writers stopped), cut over to a new database that
    anchors itself to the archive, and so on for several generations. */
module AuditProtocol {
  import opened Records
  import opened AuditChain
  import opened ChainIntegrity
  import opened AuditWriters
  import opened AuditWitness
  import opened AuditArchive
  import opened AuditVerify

  datatype Generation = Generation(log: seq<Row>, manifest: Manifest)

  /** The archived generations, the serving database, the manifest written for its chain once its writers are stopped,
      and what the witness bucket holds. */
  datatype Portal = Portal(
    past: seq<Generation>,
    current: Writers,
    sealed: Option<Manifest>,
    heads: seq<Entry>,
    manifests: map<Key, seq<Body>>,
    archives: map<Key, seq<ArchiveVersion>>)

  function StoreOf(p: Portal): Store {
    Store(p.manifests, p.archives, map[], map[], HeadScan(p.heads, []), Readable)
  }

  /** The anchor `anchor_from_manifest` derives from a manifest. */
  function AnchorFor(m: Manifest): Anchor {
    Anchor(Some(m.archiveId), Some(m.archiveSha), Some(m.finalRowHash), Some(m.entries),
           Some(ManifestKey(m.chainId, m.archiveId)), Some(Of(Document(m))))
  }

  /** `current_head` as of row `k`, published at second `at`. */
  function HeadEntry(chain: ChainId, row: Row, at: int, origin: string): Entry
    requires row.rowHash.Some?
  {
    Entry(HeadKey(chain, at, row.id), Head(chain, row.id, row.rowHash.value, at, origin))
  }

  /** The ANCHOR row `audit_log_insert_anchor` inserts (migration 016). */
  function AnchorRow(m: Manifest, id: int, payload: string): Row {
    Row(id, Some(m.finalRowHash), Some(Sha256(Some(m.finalRowHash), payload)), payload, true, Some(AnchorFor(m)))
  }

  /** The manifest `create_archive_manifest` writes for a log and an archive object, naming a version of it or none. */
  function ManifestFor(log: seq<Row>, chain: ChainId, name: string, key: Key, version: Option<string>, stored: ArchiveVersion): Manifest
    requires log != [] && log[|log| - 1].rowHash.Some?
  {
    var last := log[|log| - 1];
    Manifest(name, key, version, stored.size, stored.contentSha, chain, last.id, last.rowHash.value, |log|, AnchorOf(log))
  }

  /** A trigger's step; a publication of a row of some generation; a version of an archive object uploaded; the manifest written for
      the serving chain; a new database anchored to it, its first head not yet published. */
  datatype Action =
    | Write(step: Step)
    | Publish(generation: nat, row: nat, at: int, origin: string)
    | Upload(key: Key, stored: ArchiveVersion)
    | Seal(name: string, key: Key, version: Option<string>)
    | CutOver(id: int, payload: string)

  function LogAt(p: Portal, i: nat): seq<Row>
    requires i <= |p.past|
  {
    if i < |p.past| then p.past[i].log else p.current.log
  }

  /** The last row's head is published, under some key of the chain. */
  ghost predicate FinalPublished(p: Portal, chain: ChainId, last: Row) {
    exists e :: e in p.heads && e.key.chain == chain && e.head.id == last.id && Some(e.head.rowHash) == last.rowHash
  }

  predicate MayPublish(p: Portal, i: nat, row: nat) {
    && i <= |p.past| && ChainIdOf(LogAt(p, i)).Some?
    && FirstHashed(LogAt(p, i)) <= row < |LogAt(p, i)| && LogAt(p, i)[row].rowHash.Some?
  }

  /** The writers are stopped, the archive object is there, the final head is published, and the manifest's key is free. */
  ghost predicate MaySeal(p: Portal, name: string, key: Key, version: Option<string>) {
    var log, stored := p.current.log, Chosen(VersionsAt(StoreOf(p), key), version);
    && p.sealed.None? && p.current.inFlight == [] && ChainIdOf(log).Some? && log[|log| - 1].rowHash.Some?
    && NameOk(name) && ManifestKey(ChainIdOf(log).value, name) !in p.manifests
    && UnderArchives(key) && stored.Some? && stored.value.size >= 0 && HexText(stored.value.contentSha)
    && FinalPublished(p, ChainIdOf(log).value, log[|log| - 1])
  }

  /** A new version gets an identifier of its own; where some manifest pins none, the key is never written again. */
  ghost predicate MayUpload(p: Portal, key: Key, stored: ArchiveVersion) {
    && (forall v :: v in VersionsAt(StoreOf(p), key) ==> v.version != stored.version)
    && (forall g :: g in Generations(p) && g.manifest.archiveKey == key ==> g.manifest.archiveVersion !in {None, Some("")})
  }

  /** `anchor_from_manifest` finds the manifest's anchor verified. */
  ghost predicate MayCutOver(p: Portal, id: int) {
    p.sealed.Some? && id >= 1 && HasLineage(StoreOf(p), None, false, AnchorFor(p.sealed.value))
  }

  ghost predicate Allowed(p: Portal, action: Action) {
    match action
    case Write(step) => p.sealed.None? && Enabled(p.current, step) && CleanSwitch(p.current, step) && PositiveId(step)
    case Publish(i, row, _, _) => MayPublish(p, i, row)
    case Upload(key, stored) => MayUpload(p, key, stored)
    case Seal(name, key, version) => MaySeal(p, name, key, version)
    case CutOver(id, _) => MayCutOver(p, id)
  }

  /** `id` comes from a sequence that starts at 1. */
  predicate PositiveId(step: Step) {
    step.ReadHead? || step.id >= 1
  }

  function AfterPublish(p: Portal, i: nat, row: nat, at: int, origin: string): Portal
    requires MayPublish(p, i, row)
  {
    p.(heads := p.heads + [HeadEntry(ChainIdOf(LogAt(p, i)).value, LogAt(p, i)[row], at, origin)])
  }

  /** Versions that are no longer the latest. */
  function Demoted(versions: seq<ArchiveVersion>): (older: seq<ArchiveVersion>)
    ensures |older| == |versions|
  {
    seq(|versions|, i requires 0 <= i < |versions| => versions[i].(latest := false))
  }

  /** The newest version is listed first. */
  function AfterUpload(p: Portal, key: Key, stored: ArchiveVersion): Portal {
    p.(archives := p.archives[key := [stored] + Demoted(VersionsAt(StoreOf(p), key))])
  }

  ghost function AfterSeal(p: Portal, name: string, key: Key, version: Option<string>): Portal
    requires MaySeal(p, name, key, version)
  {
    var chain, stored := ChainIdOf(p.current.log).value, Chosen(VersionsAt(StoreOf(p), key), version).value;
    var m := ManifestFor(p.current.log, chain, name, key, version, stored);
    p.(sealed := Some(m), manifests := p.manifests[ManifestKey(chain, name) := [Document(m)]])
  }

  ghost function AfterCutOver(p: Portal, id: int, payload: string): Portal
    requires MayCutOver(p, id)
  {
    p.(past := p.past + [Generation(p.current.log, p.sealed.value)],
       current := Writers([AnchorRow(p.sealed.value, id, payload)], []), sealed := None)
  }

  ghost function Act(p: Portal, action: Action): Portal
    requires Allowed(p, action)
  {
    match action
    case Write(step) => p.(current := Apply(p.current, step))
    case Publish(i, row, at, origin) => AfterPublish(p, i, row, at, origin)
    case Upload(key, stored) => AfterUpload(p, key, stored)
    case Seal(name, key, version) => AfterSeal(p, name, key, version)
    case CutOver(id, payload) => AfterCutOver(p, id, payload)
  }

  /** The first database: a log from before the hash chain, possibly empty. */
  ghost predicate Fresh(p: Portal) {
    && p.past == [] && p.sealed.None? && p.heads == [] && p.manifests == map[] && p.archives == map[]
    && Initial(p.current) && FirstHashed(p.current.log) == |p.current.log|
  }

  ghost predicate HonestRun(p0: Portal, actions: seq<Action>, p: Portal)
    decreases |actions|
  {
    if actions == [] then p0 == p
    else Allowed(p0, actions[0]) && HonestRun(Act(p0, actions[0]), actions[1..], p)
  }

  // ----- what every honest run keeps -----

  /** The generations with a manifest: the archived ones and, once sealed, the serving one. */
  function Generations(p: Portal): seq<Generation> {
    p.past + if p.sealed.Some? then [Generation(p.current.log, p.sealed.value)] else []
  }

  ghost predicate InLog(log: seq<Row>, e: Entry) {
    exists k :: FirstHashed(log) <= k < |log| && log[k].id == e.head.id && log[k].rowHash == Some(e.head.rowHash)
  }

  /** A log as the triggers write it, its row ids positive, its last row hashed, and its first hash the shallowest. */
  ghost predicate GoodLog(log: seq<Row>) {
    && Inv(Writers(log, [])) && HasChain(log) && StartIndex(log) == FirstHashed(log) < |log|
    && ChainIdOf(log) == log[FirstHashed(log)].rowHash
    && (forall k :: FirstHashed(log) <= k < |log| ==>
          && log[k].id >= 1 && log[k].rowHash == Some(Recompute(log[k]))
          && Depth(log[k].rowHash) >= Depth(ChainIdOf(log)))
  }

  /** The manifest states what its log is, and the bucket holds it and the archive. */
  ghost predicate ManifestKept(p: Portal, g: Generation) {
    var m, log := g.manifest, g.log;
    && GoodLog(log) && ValidManifest(m) && NameOk(m.archiveId)
    && ChainIdOf(log) == Some(m.chainId) && log[|log| - 1].id == m.finalRowId
    && log[|log| - 1].rowHash == Some(m.finalRowHash) && m.entries == |log| && m.source == AnchorOf(log)
    && BodiesAt(StoreOf(p), ManifestKey(m.chainId, m.archiveId)) == [Document(m)]
    && ArchiveThere(StoreOf(p), m, true)
    && exists e :: e in p.heads && e.key.chain == m.chainId && e.head.id == m.finalRowId
  }

  /** The log continues the manifest before it, or starts at genesis when there is none. */
  ghost predicate Continues(log: seq<Row>, before: Option<Manifest>) {
    if before.None? then forall row :: row in log ==> row.details.None?
    else log != [] && log[0].details == Some(AnchorFor(before.value)) && log[0].previous == Some(before.value.finalRowHash)
  }

  function Before(p: Portal, i: nat): Option<Manifest>
    requires i <= |Generations(p)|
  {
    if i == 0 then None else Some(Generations(p)[i - 1].manifest)
  }

  ghost predicate HeadKept(p: Portal, e: Entry) {
    && Agrees(e)
    && ((ChainIdOf(p.current.log) == Some(e.key.chain) && InLog(p.current.log, e))
        || exists i :: 0 <= i < |p.past| && p.past[i].manifest.chainId == e.key.chain && InLog(p.past[i].log, e))
  }

  /** The serving database's log is one its triggers write. */
  ghost predicate ServingKept(p: Portal) {
    && Inv(p.current) && Switched(p.current) && (p.sealed.Some? ==> p.current.inFlight == [])
    && (forall row :: row in p.current.log && row.rowHash.Some? ==> row.id >= 1)
  }

  /** Every manifest is kept, and every log continues the manifest before it. */
  ghost predicate GenerationsKept(p: Portal) {
    && |p.past| <= MAX_LINEAGE
    && (forall i :: 0 <= i < |Generations(p)| ==> ManifestKept(p, Generations(p)[i]))
    && (forall i :: 0 <= i < |Generations(p)| ==> Continues(Generations(p)[i].log, Before(p, i)))
    && Continues(p.current.log, Before(p, |p.past|))
    && forall k :: k in p.manifests ==> ExistsManifest(p, k)
  }

  /** What lies under the key is a generation's manifest. */
  ghost predicate ExistsManifest(p: Portal, k: Key)
    requires k in p.manifests
  {
    exists i :: 0 <= i < |Generations(p)| && p.manifests[k] == [Document(Generations(p)[i].manifest)]
  }

  /** Every published head is a row of its generation's log. */
  ghost predicate HeadsKept(p: Portal) {
    forall e :: e in p.heads ==> HeadKept(p, e)
  }

  ghost predicate Kept(p: Portal) {
    ServingKept(p) && GenerationsKept(p) && HeadsKept(p)
  }

  // ----- the serving log -----

  /** The first hashed row of the first generation links to genesis, so no hash of it is shallower. */
  lemma FirstGenerationDepth(log: seq<Row>, k: nat)
    requires Inv(Writers(log, [])) && HasChain(log) && log[0].details.None?
    requires FirstHashed(log) <= k < |log|
    ensures Depth(log[FirstHashed(log)].rowHash) == 1 <= Depth(log[k].rowHash)
  {
    assert WellWritten(log, FirstHashed(log));
    assert WellWritten(log, k);
  }

  /** A later generation is serialized from its ANCHOR row on, so its hashes get deeper row by row. */
  lemma LaterGenerationDepth(w: Writers, k: nat)
    requires Inv(w) && Switched(w) && HasChain(w.log) && w.log[0].details.Some?
    requires k < |w.log|
    ensures StartIndex(w.log) == FirstHashed(w.log) == 0
    ensures Depth(w.log[k].rowHash) >= Depth(w.log[0].rowHash)
  {
    var log := w.log;
    StartsAtFirstHashed(w);
    assert WellWritten(log, 0);
    assert FirstSerialized(log) == Some(log[0].id);
    forall i | 0 <= i < |log| ensures log[i].serialized {
      if i > 0 {
        assert Late(log, i);
      }
    }
    SwitchedReport(w);
    UnforkedIsChained(log, k);
    UnforkedIsChained(log, 0);
    ChainedDepth(log[0..k + 1], Expected0(log));
    ChainedDepth(log[0..1], Expected0(log));
  }

  lemma CurrentIsGood(w: Writers)
    requires Inv(w) && Switched(w) && HasChain(w.log)
    requires forall row :: row in w.log && row.rowHash.Some? ==> row.id >= 1
    ensures GoodLog(w.log)
  {
    var log := w.log;
    StartsAtFirstHashed(w);
    assert WellWritten(log, FirstHashed(log));
    assert Inv(Writers(log, []));
    forall k | FirstHashed(log) <= k < |log|
      ensures log[k].id >= 1 && log[k].rowHash == Some(Recompute(log[k]))
      ensures Depth(log[k].rowHash) >= Depth(log[FirstHashed(log)].rowHash)
    {
      assert WellWritten(log, k) && log[k] in log;
      if log[0].details.Some? {
        LaterGenerationDepth(w, k);
      } else {
        FirstGenerationDepth(log, k);
      }
    }
  }

  // ----- different generations have different chain ids -----

  function ChainAt(p: Portal, i: nat): Option<ChainId>
    requires i <= |p.past|
  {
    if i < |p.past| then Some(p.past[i].manifest.chainId) else ChainIdOf(p.current.log)
  }

  /** A log that continues a manifest starts deeper than the manifest's own chain. */
  lemma DeeperAcrossAnchor(before: seq<Row>, m: Manifest, log: seq<Row>)
    requires GoodLog(before) && before[|before| - 1].rowHash == Some(m.finalRowHash) && ChainIdOf(before) == Some(m.chainId)
    requires GoodLog(log) && Continues(log, Some(m))
    ensures Depth(Some(m.chainId)) < Depth(ChainIdOf(log))
  {
    hide Inv, HasChain;
    assert FirstHashed(log) == 0;
    assert log[0].rowHash == Some(Recompute(log[0]));
    assert Depth(before[|before| - 1].rowHash) >= Depth(ChainIdOf(before));
  }

  /** The parts of the invariant about one archived generation and its successor. */
  lemma GenerationKept(p: Portal, i: nat)
    requires Kept(p) && i < |p.past|
    ensures ManifestKept(p, p.past[i]) && Continues(LogAt(p, i + 1), Some(p.past[i].manifest))
    ensures i + 1 < |p.past| || HasChain(p.current.log) ==> GoodLog(LogAt(p, i + 1))
  {
    hide ManifestKept, Continues, HeadKept, GoodLog;
    assert Generations(p)[i] == p.past[i];
    if i + 1 < |p.past| {
      assert Generations(p)[i + 1] == p.past[i + 1];
      GoodOfManifest(p, p.past[i + 1]);
    } else if HasChain(p.current.log) {
      CurrentIsGood(p.current);
    }
  }

  lemma GoodOfManifest(p: Portal, g: Generation)
    requires ManifestKept(p, g)
    ensures GoodLog(g.log) && ChainIdOf(g.log) == Some(g.manifest.chainId)
    ensures g.log[|g.log| - 1].rowHash == Some(g.manifest.finalRowHash)
  {
    hide GoodLog;
  }

  lemma NextChainIsDeeper(p: Portal, i: nat)
    requires Kept(p) && i < |p.past| && (i + 1 < |p.past| || HasChain(p.current.log))
    ensures Depth(ChainAt(p, i)) < Depth(ChainAt(p, i + 1))
  {
    hide Kept, ManifestKept, GoodLog, Continues;
    GenerationKept(p, i);
    if i + 1 < |p.past| {
      GenerationKept(p, i + 1);
      GoodOfManifest(p, p.past[i + 1]);
    }
    GoodOfManifest(p, p.past[i]);
    DeeperAcrossAnchor(p.past[i].log, p.past[i].manifest, LogAt(p, i + 1));
  }

  /** Different generations have different chain ids. */
  lemma {:induction false} ChainsAscend(p: Portal, i: nat, j: nat)
    requires Kept(p) && i < j <= |p.past| && (j < |p.past| || HasChain(p.current.log))
    ensures Depth(ChainAt(p, i)) < Depth(ChainAt(p, j))
  {
    hide Kept;
    if i + 1 < j {
      ChainsAscend(p, i, j - 1);
    }
    NextChainIsDeeper(p, j - 1);
  }

  // ----- every manifest certifies the anchor made from it -----

  function HeadsOf(p: Portal): HeadScan {
    HeadScan(p.heads, [])
  }

  lemma InLogBounds(log: seq<Row>, e: Entry)
    requires GoodLog(log) && InLog(log, e)
    ensures e.head.id <= log[|log| - 1].id
    ensures e.head.id == log[|log| - 1].id ==> log[|log| - 1].rowHash == Some(e.head.rowHash)
  {
    var k :| FirstHashed(log) <= k < |log| && log[k].id == e.head.id && log[k].rowHash == Some(e.head.rowHash);
    assert k < |log| - 1 ==> log[k].id < log[|log| - 1].id;
  }

  /** A published head of generation `i`'s chain is a row of generation `i`'s log. */
  lemma HeadOfGeneration(p: Portal, i: nat, e: Entry)
    requires Kept(p) && i <= |p.past| && (i < |p.past| || HasChain(p.current.log))
    requires e in p.heads && ChainAt(p, i) == Some(e.key.chain)
    ensures InLog(LogAt(p, i), e)
  {
    hide ManifestKept, Continues, InLog;
    assert HeadKept(p, e);
    if ChainIdOf(p.current.log) == Some(e.key.chain) && InLog(p.current.log, e) {
      assert HasChain(p.current.log);
      if i < |p.past| {
        ChainsAscend(p, i, |p.past|);
      }
    } else {
      var j :| 0 <= j < |p.past| && p.past[j].manifest.chainId == e.key.chain && InLog(p.past[j].log, e);
      if j < i {
        ChainsAscend(p, j, i);
      } else if i < j {
        ChainsAscend(p, i, j);
      }
    }
  }

  lemma GenerationIs(p: Portal, i: nat)
    requires Kept(p) && i < |Generations(p)|
    ensures i <= |p.past| && ManifestKept(p, Generations(p)[i]) && Continues(Generations(p)[i].log, Before(p, i))
    ensures Generations(p)[i].log == LogAt(p, i) && ChainAt(p, i) == Some(Generations(p)[i].manifest.chainId)
    ensures i < |p.past| || HasChain(p.current.log)
  {
    hide Continues, HeadKept, GoodLog;
    assert ManifestKept(p, Generations(p)[i]);
    GoodOfManifest(p, Generations(p)[i]);
    GoodHasChain(Generations(p)[i].log);
  }

  lemma GoodHasChain(log: seq<Row>)
    requires GoodLog(log)
    ensures HasChain(log)
  {
  }

  /** Rule 4 holds of every manifest an honest run wrote, whatever was published since. */
  lemma FinalHeadStands(p: Portal, i: nat)
    requires Kept(p) && i < |Generations(p)|
    ensures FinalHeadPublished(HeadsOf(p), Generations(p)[i].manifest)
  {
    hide Kept, Continues, GoodLog, InLog;
    GenerationIs(p, i);
    var m := Generations(p)[i].manifest;
    GoodOfManifest(p, Generations(p)[i]);
    forall e | e in p.heads && e.key.chain == m.chainId
      ensures e.head.id <= m.finalRowId && (e.head.id == m.finalRowId ==> e.head.rowHash == m.finalRowHash)
    {
      HeadOfGeneration(p, i, e);
      InLogBounds(LogAt(p, i), e);
    }
  }

  lemma ManifestCertifies(p: Portal, i: nat, heads: Option<HeadScan>, rehash: bool)
    requires Kept(p) && i < |Generations(p)| && heads in {None, Some(HeadsOf(p))}
    ensures Certifies(StoreOf(p), heads, rehash, AnchorFor(Generations(p)[i].manifest), Generations(p)[i].manifest)
  {
    hide Kept, Continues, GoodLog, InLog, FinalHeadPublished, ValidManifest;
    GenerationIs(p, i);
    FinalHeadStands(p, i);
  }

  /** The manifests of generations `i`, `i` - 1, ..., 0. */
  function Descending(p: Portal, i: nat): (ms: seq<Manifest>)
    requires i < |Generations(p)|
    ensures |ms| == i + 1
  {
    [Generations(p)[i].manifest] + if i == 0 then [] else Descending(p, i - 1)
  }

  /** The anchor made from any manifest of an honest run has a lineage: the manifests back to the first generation. */
  lemma {:induction false} LineageStands(p: Portal, i: nat, heads: Option<HeadScan>, rehash: bool)
    requires Kept(p) && i < |Generations(p)| && heads in {None, Some(HeadsOf(p))}
    ensures Lineage(StoreOf(p), heads, rehash, AnchorFor(Generations(p)[i].manifest), Descending(p, i))
  {
    hide Kept, GoodLog, InLog, Certifies;
    ManifestCertifies(p, i, heads, rehash);
    SourceIs(p, i);
    if i > 0 {
      LineageStands(p, i - 1, heads, rehash);
      assert Descending(p, i)[1..] == Descending(p, i - 1);
    }
  }

  /** A manifest names the anchor its own chain started from. */
  lemma SourceIs(p: Portal, i: nat)
    requires Kept(p) && i < |Generations(p)|
    ensures Generations(p)[i].manifest.source ==
            if i == 0 then None else Some(AnchorFor(Generations(p)[i - 1].manifest))
  {
    hide Kept, GoodLog, InLog;
    GenerationIs(p, i);
    GoodOfManifest(p, Generations(p)[i]);
    GoodHasChain(LogAt(p, i));
    AnchorOfContinuation(LogAt(p, i), Before(p, i));
  }

  lemma AnchorOfContinuation(log: seq<Row>, before: Option<Manifest>)
    requires log != [] && Continues(log, before)
    ensures AnchorOf(log) == if before.None? then None else Some(AnchorFor(before.value))
  {
    if before.None? {
      assert log[0] in log;
    }
  }

  lemma KeyIsOwn(p: Portal, k: Key)
    requires Kept(p) && k in p.manifests
    ensures ExistsManifest(p, k)
  {
    hide ManifestKept, Continues, ServingKept, HeadsKept, ExistsManifest;
  }

  lemma CertifiesMeans(store: Store, heads: Option<HeadScan>, rehash: bool, a: Anchor, m: Manifest)
    requires Certifies(store, heads, rehash, a, m)
    ensures a == AnchorFor(m) && ManifestKey(m.chainId, m.archiveId) in store.manifests
    ensures var bodies := store.manifests[ManifestKey(m.chainId, m.archiveId)]; bodies != [] && bodies[0] == Document(m)
  {
    hide FinalHeadPublished, ValidManifest, ArchiveThere;
    var bodies := store.manifests[ManifestKey(m.chainId, m.archiveId)];
    assert bodies[0] in bodies;
  }

  /** Whatever certifies an anchor is the manifest of a generation, and the anchor is the one made from it. */
  lemma CertifiedIsOwn(p: Portal, heads: Option<HeadScan>, rehash: bool, a: Anchor, m: Manifest) returns (i: nat)
    requires Kept(p) && Certifies(StoreOf(p), heads, rehash, a, m)
    ensures i < |Generations(p)| && m == Generations(p)[i].manifest && a == AnchorFor(m)
  {
    CertifiesMeans(StoreOf(p), heads, rehash, a, m);
    hide Kept, Certifies, AnchorFor;
    KeyIsOwn(p, ManifestKey(m.chainId, m.archiveId));
    i :| 0 <= i < |Generations(p)| && p.manifests[ManifestKey(m.chainId, m.archiveId)] == [Document(Generations(p)[i].manifest)];
  }

  /** Which anchors verify against an honest portal's bucket: those made from one of its first sixteen manifests, as they
      stand. An anchor with any other archive, digest, head, count or key does not. */
  lemma AnchorsThatVerify(p: Portal, heads: Option<HeadScan>, rehash: bool, a: Anchor)
    requires Kept(p) && heads in {None, Some(HeadsOf(p))}
    ensures HasLineage(StoreOf(p), heads, rehash, a) <==>
            exists i, m :: && 0 <= i < |Generations(p)| && i < 16 && m == Generations(p)[i].manifest
                           && a == Anchor(Some(m.archiveId), Some(m.archiveSha), Some(m.finalRowHash), Some(m.entries),
                                          Some(ManifestKey(m.chainId, m.archiveId)), Some(Of(Document(m))))
  {
    hide Kept, Certifies;
    if HasLineage(StoreOf(p), heads, rehash, a) {
      var ms :| Lineage(StoreOf(p), heads, rehash, a, ms) && |ms| <= MAX_LINEAGE;
      var i := CertifiedIsOwn(p, heads, rehash, a, ms[0]);
      LineageStands(p, i, heads, rehash);
      LineageIsUnique(StoreOf(p), heads, rehash, a, ms, Descending(p, i));
    }
    forall i | 0 <= i < |Generations(p)| && i < 16 && a == AnchorFor(Generations(p)[i].manifest)
      ensures HasLineage(StoreOf(p), heads, rehash, a)
    {
      LineageStands(p, i, heads, rehash);
    }
  }

  /** What such a manifest states: its log's chain, by its first hash, its number of rows, and the id and hash of its last. */
  lemma ManifestStates(p: Portal, i: nat) returns (k: nat)
    requires Kept(p) && i < |Generations(p)|
    ensures var log, m := Generations(p)[i].log, Generations(p)[i].manifest;
            && log != [] && m.entries == |log| && m.finalRowId == log[|log| - 1].id && Some(m.finalRowHash) == log[|log| - 1].rowHash
            && k < |log| && log[k].rowHash == Some(m.chainId) && forall j :: 0 <= j < k ==> log[j].rowHash.None?
  {
    hide Kept, ServingKept, HeadsKept, Continues, Inv;
    GenerationIs(p, i);
    k := FirstHashed(Generations(p)[i].log);
  }

  // ----- every step keeps the invariant -----

  lemma InLogAppend(log: seq<Row>, row: Row, e: Entry)
    requires InLog(log, e)
    ensures InLog(log + [row], e) && ChainIdOf(log + [row]) == ChainIdOf(log)
  {
    FirstsAppend(log, row);
    var k :| FirstHashed(log) <= k < |log| && log[k].id == e.head.id && log[k].rowHash == Some(e.head.rowHash);
    assert (log + [row])[k] == log[k];
    assert (log + [row])[FirstHashed(log)] == log[FirstHashed(log)];
  }

  lemma ContinuesAppend(log: seq<Row>, row: Row, before: Option<Manifest>)
    requires Continues(log, before) && row.details.None?
    ensures Continues(log + [row], before)
  {
  }

  lemma WriteKeeps(p: Portal, step: Step)
    requires Kept(p) && Allowed(p, Write(step))
    ensures Kept(Act(p, Write(step)))
  {
    hide GenerationsKept, HeadsKept, Inv, Switched;
    StepKeeps(p.current, step);
    CleanStepKeeps(p.current, step);
    WriteKeepsGenerations(p, step);
    WriteKeepsHeads(p, step);
  }

  lemma WriteKeepsGenerations(p: Portal, step: Step)
    requires Kept(p) && Allowed(p, Write(step))
    ensures GenerationsKept(Act(p, Write(step)))
  {
    hide ManifestKept, Continues, ServingKept, HeadsKept, CleanSwitch;
    var p' := Act(p, Write(step));
    assert Generations(p') == Generations(p);
    forall i | 0 <= i < |Generations(p)|
      ensures ManifestKept(p', Generations(p')[i]) && Continues(Generations(p')[i].log, Before(p', i))
    {
      ManifestStays(p, p', Generations(p)[i]);
      assert Before(p', i) == Before(p, i);
    }
    assert Before(p', |p.past|) == Before(p, |p.past|);
    if !step.ReadHead? {
      ContinuesAppend(p.current.log, p'.current.log[|p.current.log|], Before(p, |p.past|));
    }
  }

  lemma WriteKeepsHeads(p: Portal, step: Step)
    requires Kept(p) && Allowed(p, Write(step))
    ensures HeadsKept(Act(p, Write(step)))
  {
    hide GenerationsKept, InLog, Inv, Switched;
    var p' := Act(p, Write(step));
    if !step.ReadHead? {
      var row := p'.current.log[|p.current.log|];
      forall e | e in p.heads ensures HeadKept(p', e) {
        assert HeadKept(p, e);
        if ChainIdOf(p.current.log) == Some(e.key.chain) && InLog(p.current.log, e) {
          InLogAppend(p.current.log, row, e);
        }
      }
    }
  }

  /** A bucket that lost nothing, and in which the archive object is still found, keeps a manifest. */
  lemma ManifestStays(p: Portal, p': Portal, g: Generation)
    requires ManifestKept(p, g)
    requires forall k :: k in p.manifests ==> k in p'.manifests && p'.manifests[k] == p.manifests[k]
    requires ArchiveThere(StoreOf(p), g.manifest, true) ==> ArchiveThere(StoreOf(p'), g.manifest, true)
    requires forall e :: e in p.heads ==> e in p'.heads
    ensures ManifestKept(p', g)
  {
    hide GoodLog, ValidManifest;
  }

  lemma RowHeadAgrees(log: seq<Row>, k: nat, at: int, origin: string)
    requires GoodLog(log) && FirstHashed(log) <= k < |log|
    ensures ChainIdOf(log).Some? && log[k].rowHash.Some?
    ensures var e := HeadEntry(ChainIdOf(log).value, log[k], at, origin); Agrees(e) && InLog(log, e)
  {
    hide Inv, HasChain;
  }

  lemma GoodGeneration(p: Portal, i: nat)
    requires Kept(p) && i <= |p.past| && ChainIdOf(LogAt(p, i)).Some?
    ensures GoodLog(LogAt(p, i)) && (i < |p.past| ==> ChainIdOf(LogAt(p, i)) == Some(p.past[i].manifest.chainId))
  {
    hide ManifestKept, Continues, HeadsKept, GoodLog;
    if i < |p.past| {
      assert Generations(p)[i] == p.past[i];
      GoodOfManifest(p, p.past[i]);
    } else {
      CurrentIsGood(p.current);
    }
  }

  lemma PublishKeeps(p: Portal, i: nat, row: nat, at: int, origin: string)
    requires Kept(p) && MayPublish(p, i, row)
    ensures Kept(AfterPublish(p, i, row, at, origin))
  {
    hide GenerationsKept, InLog, Inv, Switched;
    var p' := AfterPublish(p, i, row, at, origin);
    NewHeadIsKept(p, i, row, at, origin);
    BucketGrows(p, p');
    hide HeadKept, HeadEntry;
    forall e | e in p'.heads ensures HeadKept(p', e) {
      SameHeadKept(p, p', e);
    }
  }

  lemma NewHeadIsKept(p: Portal, i: nat, row: nat, at: int, origin: string)
    requires Kept(p) && MayPublish(p, i, row)
    ensures HeadKept(p, HeadEntry(ChainIdOf(LogAt(p, i)).value, LogAt(p, i)[row], at, origin))
  {
    GoodGeneration(p, i);
    hide Kept, GoodLog, InLog;
    RowHeadAgrees(LogAt(p, i), row, at, origin);
  }

  lemma SameHeadKept(p: Portal, p': Portal, e: Entry)
    requires p'.past == p.past && p'.current == p.current
    ensures HeadKept(p', e) <==> HeadKept(p, e)
  {
  }

  /** A bucket that only gains objects keeps what the generations need. */
  lemma BucketGrows(p: Portal, p': Portal)
    requires GenerationsKept(p) && p'.past == p.past && p'.current == p.current && p'.sealed == p.sealed
    requires p'.manifests == p.manifests
    requires forall g :: g in Generations(p) && ArchiveThere(StoreOf(p), g.manifest, true) ==> ArchiveThere(StoreOf(p'), g.manifest, true)
    requires forall e :: e in p.heads ==> e in p'.heads
    ensures GenerationsKept(p')
  {
    hide ManifestKept, Continues;
    assert Generations(p') == Generations(p);
    forall i | 0 <= i < |Generations(p)|
      ensures ManifestKept(p', Generations(p')[i]) && Continues(Generations(p')[i].log, Before(p', i))
    {
      ManifestStays(p, p', Generations(p)[i]);
      assert Before(p', i) == Before(p, i);
    }
    assert Before(p', |p.past|) == Before(p, |p.past|);
  }

  lemma {:induction false} DemotedIsChosen(versions: seq<ArchiveVersion>, pinned: string)
    requires pinned != ""
    ensures var was, now := Chosen(versions, Some(pinned)), Chosen(Demoted(versions), Some(pinned));
            (was.None? <==> now.None?) && (was.Some? ==> now == Some(was.value.(latest := false)))
  {
    if versions != [] {
      assert Demoted(versions)[1..] == Demoted(versions[1..]);
      DemotedIsChosen(versions[1..], pinned);
    }
  }

  /** Whatever is uploaded later, a manifest's archive object is found. */
  lemma ArchiveStays(p: Portal, key: Key, stored: ArchiveVersion, g: Generation)
    requires MayUpload(p, key, stored) && g in Generations(p) && ArchiveThere(StoreOf(p), g.manifest, true)
    ensures ArchiveThere(StoreOf(AfterUpload(p, key, stored)), g.manifest, true)
  {
    var m, versions := g.manifest, VersionsAt(StoreOf(p), key);
    if m.archiveKey == key {
      DemotedIsChosen(versions, m.archiveVersion.value);
      ChosenMeans(versions, m.archiveVersion);
      assert ([stored] + Demoted(versions))[1..] == Demoted(versions);
    }
  }

  lemma UploadKeeps(p: Portal, key: Key, stored: ArchiveVersion)
    requires Kept(p) && MayUpload(p, key, stored)
    ensures Kept(AfterUpload(p, key, stored))
  {
    hide GenerationsKept, InLog, Inv, Switched, ArchiveThere;
    var p' := AfterUpload(p, key, stored);
    forall g | g in Generations(p) && ArchiveThere(StoreOf(p), g.manifest, true)
      ensures ArchiveThere(StoreOf(p'), g.manifest, true)
    {
      ArchiveStays(p, key, stored, g);
    }
    BucketGrows(p, p');
    assert forall e :: e in p.heads ==> HeadKept(p, e);
  }

  /** The manifest a source anchor was made from makes it name every field. */
  lemma AnchorNamesEveryField(m: Manifest)
    requires ValidManifest(m)
    ensures NamesEveryField(AnchorFor(m))
  {
  }

  lemma NewManifestIsValid(p: Portal, name: string, key: Key, version: Option<string>)
    requires Kept(p) && MaySeal(p, name, key, version)
    ensures ValidManifest(AfterSeal(p, name, key, version).sealed.value) && GoodLog(p.current.log)
  {
    var log := p.current.log;
    SealableIsGood(p);
    SourceIsWhole(p);
    SealedFields(p, name, key, version);
    hide Kept, GoodLog, MaySeal, AfterSeal, AnchorOf, NamesEveryField, NameMatches, NameOk, UnderArchives, HexText;
  }

  lemma SealableIsGood(p: Portal)
    requires Kept(p) && HasChain(p.current.log)
    ensures GoodLog(p.current.log) && p.current.log != []
    ensures var last := p.current.log[|p.current.log| - 1]; last.id >= 1 && last.rowHash.Some? && Hex64(last.rowHash.value)
  {
    hide GenerationsKept, HeadsKept, GoodLog, Inv, Switched;
    CurrentIsGood(p.current);
    LastIsGood(p.current.log);
  }

  /** The serving log's own anchor leaves no field out. */
  lemma SourceIsWhole(p: Portal)
    requires Kept(p) && HasChain(p.current.log)
    ensures AnchorOf(p.current.log).Some? ==> NamesEveryField(AnchorOf(p.current.log).value)
  {
    hide GoodLog, Inv, Switched, HeadsKept, NamesEveryField, NameOk, NameMatches, AnchorOf, Continues;
    AnchorOfContinuation(p.current.log, Before(p, |p.past|));
    if p.past != [] {
      assert ManifestKept(p, Generations(p)[|p.past| - 1]);
      AnchorNamesEveryField(p.past[|p.past| - 1].manifest);
    }
  }

  lemma SealedFields(p: Portal, name: string, key: Key, version: Option<string>)
    requires MaySeal(p, name, key, version)
    ensures HasChain(p.current.log)
    ensures var m, log := AfterSeal(p, name, key, version).sealed.value, p.current.log; var last := log[|log| - 1];
            && m.archiveId == name && NameMatches(name) && m.archiveKey == key && UnderArchives(key) && m.archiveSize >= 0
            && HexText(m.archiveSha) && m.finalRowId == last.id && Some(m.finalRowHash) == last.rowHash && m.entries >= 0
            && m.source == AnchorOf(log)
  {
    hide NameOk, UnderArchives, HexText, Chosen, AnchorOf;
  }

  lemma LastIsGood(log: seq<Row>)
    requires GoodLog(log)
    ensures FirstHashed(log) < |log|
    ensures log[|log| - 1].id >= 1 && log[|log| - 1].rowHash == Some(Recompute(log[|log| - 1]))
  {
  }

  lemma SealKeeps(p: Portal, name: string, key: Key, version: Option<string>)
    requires Kept(p) && MaySeal(p, name, key, version)
    ensures Kept(AfterSeal(p, name, key, version))
  {
    hide GenerationsKept, InLog, Inv, Switched, ManifestKept, GoodLog;
    SealKeepsGenerations(p, name, key, version);
    assert forall e :: e in p.heads ==> HeadKept(p, e);
  }

  lemma SealKeepsGenerations(p: Portal, name: string, key: Key, version: Option<string>)
    requires Kept(p) && MaySeal(p, name, key, version)
    ensures GenerationsKept(AfterSeal(p, name, key, version))
  {
    var p' := AfterSeal(p, name, key, version);
    SealKeepsKeys(p, name, key, version);
    SealShape(p, name, key, version);
    CurrentContinues(p);
    hide Kept, Continues, ManifestKept, ExistsManifest, MaySeal, AfterSeal, GenerationsKept;
    forall i | 0 <= i < |Generations(p')|
      ensures ManifestKept(p', Generations(p')[i]) && Continues(Generations(p')[i].log, Before(p', i))
    {
      SealKeepsEach(p, name, key, version, i);
    }
    assert Before(p', |p.past|) == Before(p, |p.past|);
    GenerationsAreKept(p');
  }

  lemma GenerationsAreKept(p: Portal)
    requires |p.past| <= MAX_LINEAGE && Continues(p.current.log, Before(p, |p.past|))
    requires forall i :: 0 <= i < |Generations(p)| ==> ManifestKept(p, Generations(p)[i]) && Continues(Generations(p)[i].log, Before(p, i))
    requires forall k :: k in p.manifests ==> ExistsManifest(p, k)
    ensures GenerationsKept(p)
  {
    hide Continues, ManifestKept, ExistsManifest;
  }

  lemma SealKeepsEach(p: Portal, name: string, key: Key, version: Option<string>, i: nat)
    requires Kept(p) && MaySeal(p, name, key, version) && i <= |p.past|
    ensures var p' := AfterSeal(p, name, key, version);
            && |Generations(p')| == |p.past| + 1
            && ManifestKept(p', Generations(p')[i]) && Continues(Generations(p')[i].log, Before(p', i))
  {
    var p' := AfterSeal(p, name, key, version);
    SealedIsKept(p, name, key, version);
    SealShape(p, name, key, version);
    CurrentContinues(p);
    hide Continues, ManifestKept, MaySeal, AfterSeal;
    if i < |p.past| {
      PastStays(p, p', i);
    }
    hide Kept;
  }

  /** An archived generation stays as it is while the bucket's manifests grow. */
  lemma PastStays(p: Portal, p': Portal, i: nat)
    requires Kept(p) && i < |p.past| && p.past == p'.past && p.heads == p'.heads && p.archives == p'.archives
    requires forall k :: k in p.manifests ==> k in p'.manifests && p'.manifests[k] == p.manifests[k]
    ensures ManifestKept(p', p'.past[i]) && Continues(p'.past[i].log, Before(p', i))
  {
    GenerationIs(p, i);
    SameArchives(p, p', p.past[i].manifest);
    hide Kept, Continues, ManifestKept, ArchiveThere;
    ManifestStays(p, p', p.past[i]);
  }

  lemma SameArchives(p: Portal, p': Portal, m: Manifest)
    requires p'.archives == p.archives
    ensures ArchiveThere(StoreOf(p'), m, true) == ArchiveThere(StoreOf(p), m, true)
  {
  }

  lemma SealShape(p: Portal, name: string, key: Key, version: Option<string>)
    requires MaySeal(p, name, key, version)
    ensures var p' := AfterSeal(p, name, key, version);
            && p'.past == p.past && p'.current == p.current && p'.heads == p.heads && p'.archives == p.archives && p'.sealed.Some?
            && Generations(p) == p.past && Generations(p') == p.past + [Generation(p.current.log, p'.sealed.value)]
            && forall k :: k in p.manifests ==> k in p'.manifests && p'.manifests[k] == p.manifests[k]
  {
  }

  lemma SealKeepsKeys(p: Portal, name: string, key: Key, version: Option<string>)
    requires Kept(p) && MaySeal(p, name, key, version)
    ensures var p' := AfterSeal(p, name, key, version); forall k :: k in p'.manifests ==> ExistsManifest(p', k)
  {
    hide ManifestKept, Continues, ServingKept, HeadsKept, FinalPublished;
    var p' := AfterSeal(p, name, key, version);
    assert Generations(p') == Generations(p) + [Generation(p.current.log, p'.sealed.value)];
    forall k | k in p'.manifests ensures ExistsManifest(p', k) {
      if p'.manifests[k] == [Document(p'.sealed.value)] {
        assert Generations(p')[|p.past|].manifest == p'.sealed.value;
      } else {
        assert ExistsManifest(p, k);
        var i :| 0 <= i < |Generations(p)| && p.manifests[k] == [Document(Generations(p)[i].manifest)];
        assert Generations(p')[i] == Generations(p)[i];
      }
    }
  }

  lemma SealedIsKept(p: Portal, name: string, key: Key, version: Option<string>)
    requires Kept(p) && MaySeal(p, name, key, version)
    ensures var p' := AfterSeal(p, name, key, version); ManifestKept(p', Generation(p.current.log, p'.sealed.value))
  {
    NewManifestIsValid(p, name, key, version);
    LastIsGood(p.current.log);
    SealedStates(p, name, key, version);
    hide Kept, GoodLog, ValidManifest, NameOk, ArchiveThere, AfterSeal, MaySeal;
  }

  /** What the manifest written states, and that it and its archive are there. */
  lemma SealedStates(p: Portal, name: string, key: Key, version: Option<string>)
    requires MaySeal(p, name, key, version)
    ensures var p', log := AfterSeal(p, name, key, version), p.current.log; var m, last := p'.sealed.value, log[|log| - 1];
            && NameOk(m.archiveId) && ChainIdOf(log) == Some(m.chainId) && last.id == m.finalRowId && last.rowHash == Some(m.finalRowHash)
            && m.entries == |log| && m.source == AnchorOf(log)
            && BodiesAt(StoreOf(p'), ManifestKey(m.chainId, m.archiveId)) == [Document(m)] && ArchiveThere(StoreOf(p'), m, true)
            && exists e :: e in p'.heads && e.key.chain == m.chainId && e.head.id == m.finalRowId
  {
    hide NameOk, UnderArchives, HexText, Chosen, AnchorOf;
  }

  // ----- cutting over -----

  /** A cutover is refused by `verify_anchor` exactly when it would be the seventeenth archived chain. */
  lemma CutOverPossible(p: Portal)
    requires Kept(p) && p.sealed.Some?
    ensures HasLineage(StoreOf(p), None, false, AnchorFor(p.sealed.value)) <==> |p.past| < MAX_LINEAGE
  {
    hide Kept, Certifies;
    var n := |p.past|;
    assert Generations(p)[n].manifest == p.sealed.value;
    LineageStands(p, n, None, false);
    forall ms | Lineage(StoreOf(p), None, false, AnchorFor(p.sealed.value), ms) ensures |ms| == n + 1 {
      LineageIsUnique(StoreOf(p), None, false, AnchorFor(p.sealed.value), ms, Descending(p, n));
    }
  }

  lemma CutOverKeeps(p: Portal, id: int, payload: string)
    requires Kept(p) && MayCutOver(p, id)
    ensures Kept(AfterCutOver(p, id, payload))
  {
    hide GenerationsKept, HeadsKept, Inv, Switched, ManifestKept, GoodLog, HasLineage;
    var p' := AfterCutOver(p, id, payload);
    SealedFinalHash(p);
    assert p'.current.log[0] == AnchorRow(p.sealed.value, id, payload);
    assert Initial(p'.current);
    InitialInv(p'.current);
    InitialSwitched(p'.current);
    CutOverKeepsGenerations(p, id, payload);
    CutOverKeepsHeads(p, id, payload);
  }

  lemma SealedFinalHash(p: Portal)
    requires Kept(p) && p.sealed.Some?
    ensures Hex64(p.sealed.value.finalRowHash) && ChainIdOf(p.current.log) == Some(p.sealed.value.chainId)
  {
    hide HeadsKept, ServingKept, GoodLog, Continues, NameOk, NameMatches, NamesEveryField, ArchiveThere, ExistsManifest;
    assert ManifestKept(p, Generations(p)[|p.past|]);
  }

  lemma CutOverKeepsGenerations(p: Portal, id: int, payload: string)
    requires Kept(p) && MayCutOver(p, id)
    ensures GenerationsKept(AfterCutOver(p, id, payload))
  {
    hide HeadsKept, ServingKept, ManifestKept, HasLineage, Continues;
    var p' := AfterCutOver(p, id, payload);
    CutOverPossible(p);
    NewLogContinues(p.sealed.value, id, payload);
    assert Generations(p') == Generations(p);
    forall i | 0 <= i < |Generations(p)|
      ensures ManifestKept(p', Generations(p')[i]) && Continues(Generations(p')[i].log, Before(p', i))
    {
      ManifestStays(p, p', Generations(p)[i]);
      assert Before(p', i) == Before(p, i);
    }
  }

  lemma NewLogContinues(m: Manifest, id: int, payload: string)
    ensures Continues([AnchorRow(m, id, payload)], Some(m))
  {
  }

  lemma CutOverKeepsHeads(p: Portal, id: int, payload: string)
    requires Kept(p) && MayCutOver(p, id)
    ensures HeadsKept(AfterCutOver(p, id, payload))
  {
    hide GenerationsKept, HasLineage, InLog, Inv, Switched;
    var p' := AfterCutOver(p, id, payload);
    SealedFinalHash(p);
    forall e | e in p.heads ensures HeadKept(p', e) {
      assert HeadKept(p, e);
      assert p'.past[|p.past|].manifest.chainId == p.sealed.value.chainId;
      if i: nat :| i < |p.past| && p.past[i].manifest.chainId == e.key.chain && InLog(p.past[i].log, e) {
        assert p'.past[i] == p.past[i];
      }
    }
  }

  // ----- honest runs verify -----

  lemma FreshIsKept(p: Portal)
    requires Fresh(p)
    ensures Kept(p)
  {
    InitialInv(p.current);
    InitialSwitched(p.current);
    forall row | row in p.current.log ensures row.rowHash.None? && row.details.None? {
      var k :| 0 <= k < |p.current.log| && p.current.log[k] == row;
    }
  }

  lemma {:induction false} HonestRunKeeps(p0: Portal, actions: seq<Action>, p: Portal)
    requires Kept(p0) && HonestRun(p0, actions, p)
    ensures Kept(p)
    decreases |actions|
  {
    hide Kept;
    if actions != [] {
      match actions[0] {
        case Write(step) => WriteKeeps(p0, step);
        case Publish(i, row, at, origin) => PublishKeeps(p0, i, row, at, origin);
        case Upload(key, stored) => UploadKeeps(p0, key, stored);
        case Seal(name, key, version) => SealKeeps(p0, name, key, version);
        case CutOver(id, payload) => CutOverKeeps(p0, id, payload);
      }
      HonestRunKeeps(Act(p0, actions[0]), actions[1..], p);
    }
  }

  lemma {:induction false} StoredHashAt(log: seq<Row>, k: nat)
    requires Sorted(log) && k < |log|
    ensures StoredHash(log, log[k].id) == log[k].rowHash
  {
    if k > 0 {
      assert log[0].id < log[k].id;
      StoredHashAt(log[1..], k - 1);
    }
  }

  /** Something of the serving chain is published, or nothing at all. */
  ghost predicate ServingPublished(p: Portal) {
    p.heads == [] || exists e :: e in p.heads && ChainIdOf(p.current.log) == Some(e.key.chain)
  }

  lemma FirstGenerationIsPublished(p: Portal)
    requires Kept(p) && p.past == []
    ensures ServingPublished(p)
  {
    hide ServingKept, GenerationsKept, InLog;
    if p.heads != [] {
      assert HeadKept(p, p.heads[0]);
    }
  }

  lemma PublishedMeans(p: Portal)
    ensures ServingPublished(p) <==> p.heads == [] || CurrentHeads(p.current.log, HeadsOf(p)) != []
  {
    var current := CurrentHeads(p.current.log, HeadsOf(p));
    if e :| e in p.heads && ChainIdOf(p.current.log) == Some(e.key.chain) {
      assert e in current;
    }
    if current != [] {
      assert current[0] in current;
    }
  }

  /** No published head contradicts the serving log; the only mismatch is that no head is of the serving chain, exactly
      while there is none. */
  lemma HonestHeadsMatch(p: Portal)
    requires Kept(p) && HasChain(p.current.log)
    ensures forall e :: e in CurrentHeads(p.current.log, HeadsOf(p)) ==> HeadMatches(p.current.log, e)
    ensures AllMismatches(p.current.log, HeadsOf(p)) ==
            if ServingPublished(p) then [] else [Mismatch(NoneOfThisChain, ChainIdOf(p.current.log), None)]
  {
    hide GenerationsKept, ManifestKept, InLog, ServingPublished;
    var log := p.current.log;
    CurrentIsGood(p.current);
    GoodStart(log);
    var current := CurrentHeads(log, HeadsOf(p));
    forall e | e in current ensures HeadMatches(log, e) {
      HeadOfGeneration(p, |p.past|, e);
      HeldRowMatches(log, e);
    }
    NoMismatch(log, current);
    PublishedMeans(p);
  }

  lemma HeldRowMatches(log: seq<Row>, e: Entry)
    requires Sorted(log) && InLog(log, e)
    ensures HeadMatches(log, e)
  {
    var k :| FirstHashed(log) <= k < |log| && log[k].id == e.head.id && log[k].rowHash == Some(e.head.rowHash);
    StoredHashAt(log, k);
  }

  lemma GoodStart(log: seq<Row>)
    requires GoodLog(log)
    ensures ChainIdOf(log).Some? && FirstHashed(log) < |log|
  {
  }

  /** The manifests of the archived generations, newest first. */
  function EveryManifest(p: Portal): (ms: seq<Manifest>)
    ensures |ms| == |p.past|
  {
    if p.past == [] then [] else Descending(p, |p.past| - 1)
  }

  lemma {:induction false} DescendingHolds(p: Portal, i: nat, j: nat)
    requires j <= i < |Generations(p)|
    ensures Generations(p)[j].manifest in Descending(p, i)
  {
    if j < i {
      DescendingHolds(p, i - 1, j);
    }
  }

  lemma LastHeadIsFinal(p: Portal, i: nat)
    requires Kept(p) && i < |p.past|
    ensures var m := p.past[i].manifest; var group := InChain(p.heads, m.chainId);
            group != [] && LastOf(group).head.id == m.finalRowId && LastOf(group).head.rowHash == m.finalRowHash
  {
    hide Kept, LastOf;
    var m := p.past[i].manifest;
    assert Generations(p)[i] == p.past[i];
    FinalHeadStands(p, i);
    var final :| final in p.heads && final.key.chain == m.chainId && final.head.id == m.finalRowId;
    assert final in InChain(p.heads, m.chainId);
    var last := LastOf(InChain(p.heads, m.chainId));
    assert last in p.heads && last.head.id >= final.head.id;
  }

  /** Every earlier chain is published up to its final row, which the lineage names: it is continued. */
  lemma PastChainIsContinued(p: Portal, i: nat)
    requires Kept(p) && i < |p.past|
    ensures InChain(p.heads, p.past[i].manifest.chainId) != []
    ensures VerdictOn(HeadsOf(p), p.past[i].manifest.chainId, Entries(EveryManifest(p)), None) == Continued
  {
    hide Kept, LastOf, InChain, Descending;
    var m, ms := p.past[i].manifest, EveryManifest(p);
    assert Generations(p)[i] == p.past[i];
    LastHeadIsFinal(p, i);
    DescendingHolds(p, |p.past| - 1, i);
    var k :| 0 <= k < |ms| && ms[k] == m;
    assert Entries(ms)[k] == EntryOf(m);
  }

  lemma EveryOtherChainIsPast(p: Portal, c: ChainId)
    requires Kept(p) && c in Others(p.heads, ChainIdOf(p.current.log))
    ensures exists i :: 0 <= i < |p.past| && p.past[i].manifest.chainId == c
  {
    hide ServingKept, GenerationsKept, InLog;
    var e :| e in p.heads && e.key.chain == c;
    assert HeadKept(p, e);
  }

  /** Every chain but the serving one is continued; the witness contradicts the log exactly while nothing of the serving
      chain is published. */
  lemma HonestWitnessAgrees(p: Portal)
    requires Kept(p) && HasChain(p.current.log)
    ensures WitnessContradicts(p.current.log, HeadsOf(p), Entries(EveryManifest(p)), None) <==> !ServingPublished(p)
    ensures forall v :: v != Continued ==> ChainsDecided(p.current.log, HeadsOf(p), Entries(EveryManifest(p)), None, v) == {}
    ensures !SomeChain(p.current.log, HeadsOf(p), Entries(EveryManifest(p)), None, Pending)
  {
    hide Kept, AllMismatches, EveryManifest, ServingPublished;
    HonestHeadsMatch(p);
    forall c | c in Others(p.heads, ChainIdOf(p.current.log)) && InChain(p.heads, c) != []
      ensures VerdictOn(HeadsOf(p), c, Entries(EveryManifest(p)), None) == Continued
    {
      EveryOtherChainIsPast(p, c);
      var i :| 0 <= i < |p.past| && p.past[i].manifest.chainId == c;
      PastChainIsContinued(p, i);
    }
  }

  lemma CurrentContinues(p: Portal)
    requires Kept(p)
    ensures Continues(p.current.log, Before(p, |p.past|)) && |p.past| <= MAX_LINEAGE
  {
    hide Continues, ManifestKept, ServingKept, HeadsKept;
  }

  /** The serving log's anchor has the archived manifests as its lineage. */
  lemma HonestLineage(p: Portal, rehash: bool)
    requires Kept(p) && HasChain(p.current.log)
    ensures p.past == [] ==> AnchorOf(p.current.log).None?
    ensures p.past != [] ==>
              && AnchorOf(p.current.log).Some? && |p.past| <= MAX_LINEAGE
              && Lineage(StoreOf(p), Some(HeadsOf(p)), rehash, AnchorOf(p.current.log).value, EveryManifest(p))
  {
    hide Kept, Continues, Lineage, AnchorOf;
    CurrentContinues(p);
    AnchorOfContinuation(p.current.log, Before(p, |p.past|));
    if p.past != [] {
      LineageStands(p, |p.past| - 1, Some(HeadsOf(p)), rehash);
    }
  }

  lemma HonestAnchorVerifies(p: Portal, rehash: bool)
    requires Kept(p) && HasChain(p.current.log) && p.past != []
    ensures AnchorVerifies(AnchorOf(p.current.log), Some(Verifier(StoreOf(p), true, Some(HeadsOf(p)), rehash)))
  {
    hide Kept, Lineage, AnchorOf, EveryManifest;
    HonestLineage(p, rehash);
  }

  /** Honest runs, whole. After any honest run of appends, publications, uploads, archives and cutovers, any full report on
      the serving log, with the bucket read, finds no content mismatch and no true break; the anchor verifies, with the
      manifests of all earlier generations as its lineage; every earlier chain is continued; no head differs. The report is
      `valid` (or, of a first generation, `intact_with_forks`) if and only if some head of the serving chain is published,
      or nothing is; between a cutover and the first publication of the new chain it is `broken`, for that one mismatch. */
  lemma HonestRunsVerify(p0: Portal, actions: seq<Action>, p: Portal, rehash: bool, r: Report)
    requires Fresh(p0) && HonestRun(p0, actions, p) && HasChain(p.current.log)
    requires r.Report? && HonestReport(p, rehash, r)
    ensures Intact(p.current.log) && (p.past == [] ==> ServingPublished(p))
    ensures ServingPublished(p) <==> r.status == Valid || (p.past == [] && r.status == IntactWithForks)
    ensures !ServingPublished(p) ==> r.status == Broken
    ensures r.mismatches == (if ServingPublished(p) then 0 else 1) && r.invalid == r.pending == 0
    ensures r.lineage == Entries(EveryManifest(p)) && (p.past != [] ==> r.anchorStatus == Some(Verified))
    ensures forall i :: 0 <= i < |p.past| ==>
              && InChain(p.heads, p.past[i].manifest.chainId) != []
              && VerdictOn(HeadsOf(p), p.past[i].manifest.chainId, r.lineage, None) == Continued
  {
    hide Kept, Intact, StatusOf, VerdictOn, InChain, EveryManifest, SliceOf, HonestReport, ServingPublished;
    FreshIsKept(p0);
    HonestRunKeeps(p0, actions, p);
    ServingReport(p);
    HonestAnchorReport(p, rehash, r);
    HonestStatus(p, rehash, r);
    if p.past == [] {
      FirstGenerationIsPublished(p);
    }
    forall i | 0 <= i < |p.past|
      ensures InChain(p.heads, p.past[i].manifest.chainId) != []
      ensures VerdictOn(HeadsOf(p), p.past[i].manifest.chainId, r.lineage, None) == Continued
    {
      PastChainIsContinued(p, i);
    }
  }

  /** What a full report on the serving log says, every read of the bucket answered and sharing one head scan. */
  ghost predicate HonestReport(p: Portal, rehash: bool, r: Report)
    requires r.Report?
  {
    ReportOn(p.current.log, StartCursor(p.current.log), None, Some(HeadsOf(p)),
             Some(Verifier(StoreOf(p), true, Some(HeadsOf(p)), rehash)), r)
  }

  lemma HonestAnchorReport(p: Portal, rehash: bool, r: Report)
    requires Kept(p) && HasChain(p.current.log) && r.Report? && HonestReport(p, rehash, r)
    ensures r.lineage == Entries(EveryManifest(p))
    ensures r.anchorStatus == if p.past == [] then None else Some(Verified)
  {
    hide Kept, StatusOf, SliceOf, AnchorOf, Lineage, WitnessCounts, AnchorUnverifiable;
    HonestLineage(p, rehash);
    if p.past != [] {
      HonestAnchorVerifies(p, rehash);
      var store, heads, a := StoreOf(p), Some(HeadsOf(p)), r.anchor.value;
      var ms :| |ms| <= MAX_LINEAGE && r.lineage == Entries(ms) && Lineage(store, heads, rehash, a, ms);
      LineageIsUnique(store, heads, rehash, a, ms, EveryManifest(p));
    }
  }

  lemma HonestStatus(p: Portal, rehash: bool, r: Report)
    requires Kept(p) && HasChain(p.current.log) && r.Report? && HonestReport(p, rehash, r)
    ensures if ServingPublished(p) then r.status == Valid || (p.past == [] && r.status == IntactWithForks)
            else r.status == Broken
    ensures r.mismatches == (if ServingPublished(p) then 0 else 1) && r.invalid == r.pending == 0
  {
    hide Kept, SliceOf, WitnessContradicts, SomeChain, ChainsDecided, EveryManifest, AnchorVerifies, AnchorUnverifiable, IsLineageOf, ServingPublished, AllMismatches;
    HonestAnchorReport(p, rehash, r);
    HonestWitnessAgrees(p);
    HonestHeadsMatch(p);
    ServingReport(p);
  }

  lemma SealedIsPublished(p: Portal)
    requires Kept(p) && p.sealed.Some?
    ensures p.heads != []
  {
    hide HeadsKept, ServingKept, GoodLog, Continues;
    assert ManifestKept(p, Generations(p)[|p.past|]);
  }

  lemma ChainsStay(p: Portal, p': Portal, g: Generation, j: nat)
    requires p'.past == p.past + [g] && ChainIdOf(p.current.log) == Some(g.manifest.chainId) && j <= |p.past|
    ensures ChainAt(p', j) == ChainAt(p, j)
  {
    hide ChainIdOf;
  }

  lemma NewLogIs(p: Portal, id: int, payload: string)
    requires MayCutOver(p, id)
    ensures var p' := AfterCutOver(p, id, payload);
            && p'.past == p.past + [Generation(p.current.log, p.sealed.value)] && p'.heads == p.heads
            && p'.current.log == [AnchorRow(p.sealed.value, id, payload)]
  {
    hide HasLineage, AnchorRow;
  }

  lemma CutOverChains(p: Portal, id: int, payload: string)
    requires Kept(p) && MayCutOver(p, id)
    ensures var p' := AfterCutOver(p, id, payload);
            && |p'.past| == |p.past| + 1 && p'.heads == p.heads && HasChain(p'.current.log)
            && forall j :: 0 <= j <= |p.past| ==> ChainAt(p', j) == ChainAt(p, j)
  {
    SealedFinalHash(p);
    NewLogIs(p, id, payload);
    NewLogHasChain(p.sealed.value, id, payload);
    hide Kept, HasChain, ChainIdOf, AnchorRow, ChainAt, AfterCutOver;
    forall j | 0 <= j <= |p.past|
      ensures ChainAt(AfterCutOver(p, id, payload), j) == ChainAt(p, j)
    {
      ChainsStay(p, AfterCutOver(p, id, payload), Generation(p.current.log, p.sealed.value), j);
    }
  }

  /** Right after a cutover's commit, before its first publication, no head is of the serving chain. */
  lemma CutOverIsUnpublished(p: Portal, id: int, payload: string)
    requires Kept(p) && MayCutOver(p, id)
    ensures var p' := AfterCutOver(p, id, payload); Kept(p') && HasChain(p'.current.log) && !ServingPublished(p')
  {
    CutOverKeeps(p, id, payload);
    SealedIsPublished(p);
    CutOverChains(p, id, payload);
    hide Kept, Act, Allowed, HasChain;
    var p', n := AfterCutOver(p, id, payload), |p.past| + 1;
    forall e | e in p.heads
      ensures ChainAt(p', n) != Some(e.key.chain)
    {
      var j := ChainOfHead(p, e);
      assert ChainAt(p', j) == ChainAt(p, j);
      ChainsAscend(p', j, n);
    }
  }

  /** The generation whose chain a published head belongs to. */
  lemma ChainOfHead(p: Portal, e: Entry) returns (j: nat)
    requires Kept(p) && e in p.heads
    ensures j <= |p.past| && ChainAt(p, j) == Some(e.key.chain)
  {
    hide ServingKept, GenerationsKept, InLog;
    assert HeadKept(p, e);
    if ChainIdOf(p.current.log) == Some(e.key.chain) && InLog(p.current.log, e) {
      j := |p.past|;
    } else {
      var i :| 0 <= i < |p.past| && p.past[i].manifest.chainId == e.key.chain && InLog(p.past[i].log, e);
      j := i;
    }
  }

  lemma RunsThenCutsOver(p0: Portal, actions: seq<Action>, p: Portal, id: int, payload: string)
    requires HonestRun(p0, actions, p) && MayCutOver(p, id)
    ensures HonestRun(p0, actions + [CutOver(id, payload)], AfterCutOver(p, id, payload))
  {
    hide MayCutOver, AfterCutOver;
    RunsOn(p0, actions, p, CutOver(id, payload));
  }

  /** The alarm of every cutover: a full report made between the anchor's commit and the first publication of the new chain
      is `broken`, though every step was honest and the anchor verifies. */
  lemma CutOverAlarms(p0: Portal, actions: seq<Action>, p: Portal, id: int, payload: string, rehash: bool, r: Report)
    requires Fresh(p0) && HonestRun(p0, actions, p) && MayCutOver(p, id)
    requires r.Report? && HonestReport(AfterCutOver(p, id, payload), rehash, r)
    ensures r.status == Broken && r.mismatches == 1 && r.anchorStatus == Some(Verified)
  {
    hide Kept, MayCutOver, AfterCutOver, HonestRun, HonestReport, Fresh, ServingPublished, HasChain, ChainAt;
    FreshIsKept(p0);
    HonestRunKeeps(p0, actions, p);
    CutOverIsUnpublished(p, id, payload);
    CutOverChains(p, id, payload);
    RunsThenCutsOver(p0, actions, p, id, payload);
    HonestRunsVerify(p0, actions + [CutOver(id, payload)], AfterCutOver(p, id, payload), rehash, r);
  }

  /** The first publication of the serving chain ends it. */
  lemma PublicationClears(p: Portal, row: nat, at: int, origin: string)
    requires Kept(p) && MayPublish(p, |p.past|, row)
    ensures ServingPublished(AfterPublish(p, |p.past|, row, at, origin))
  {
    hide Kept;
    var p' := AfterPublish(p, |p.past|, row, at, origin);
    assert p'.heads[|p'.heads| - 1] in p'.heads;
  }

  lemma ServingReport(p: Portal)
    requires Kept(p) && HasChain(p.current.log)
    ensures Intact(p.current.log) && (p.past != [] ==> Unforked(p.current.log))
    ensures var log := p.current.log; var slice := SliceOf(log, StartCursor(log).afterId, StartCursor(log).expected, None);
            slice.altered == [] && slice.breaks == [] && (p.past != [] ==> slice.forks == [])
  {
    var log := p.current.log;
    SwitchedReport(p.current);
    StartsAtIndex(log);
    if p.past != [] {
      SerializedThroughout(p);
    }
  }

  lemma SerializedThroughout(p: Portal)
    requires Kept(p) && p.past != [] && HasChain(p.current.log)
    ensures forall k :: FirstHashed(p.current.log) <= k < |p.current.log| ==> p.current.log[k].serialized
  {
    hide HeadsKept, ManifestKept;
    var log := p.current.log;
    LaterGenerationDepth(p.current, 0);
    assert WellWritten(log, 0);
    forall k | 0 <= k < |log| ensures log[k].serialized {
      assert k > 0 ==> Late(log, k);
    }
  }

  // ----- without the bucket -----

  lemma FinalIsDeeper(m: Manifest, log: seq<Row>)
    requires GoodLog(log) && Continues(log, Some(m))
    ensures Depth(Some(m.finalRowHash)) < Depth(log[|log| - 1].rowHash)
  {
    hide Inv, HasChain;
    assert FirstHashed(log) == 0;
    assert log[0].rowHash == Some(Recompute(log[0]));
  }

  /** Each archived chain ends deeper in hashes than the one before, so no two end alike. */
  lemma {:induction false} FinalsAscend(p: Portal, i: nat, j: nat)
    requires Kept(p) && i < j < |p.past|
    ensures Depth(Some(p.past[i].manifest.finalRowHash)) < Depth(Some(p.past[j].manifest.finalRowHash))
  {
    hide Kept, ManifestKept, GoodLog, Continues;
    if i + 1 < j {
      FinalsAscend(p, i, j - 1);
    }
    GenerationKept(p, j - 1);
    GenerationKept(p, j);
    GoodOfManifest(p, p.past[j]);
    FinalIsDeeper(p.past[j - 1].manifest, p.past[j].log);
  }

  /** The chains of the first `n` generations. */
  ghost function PastChains(p: Portal, n: nat): set<ChainId>
    requires n <= |p.past|
  {
    set i | 0 <= i < n :: p.past[i].manifest.chainId
  }

  lemma {:induction false} PastChainsAreDistinct(p: Portal, n: nat)
    requires Kept(p) && n <= |p.past|
    ensures |PastChains(p, n)| == n
  {
    hide Kept;
    if n > 0 {
      PastChainsAreDistinct(p, n - 1);
      var last := p.past[n - 1].manifest.chainId;
      assert PastChains(p, n) == PastChains(p, n - 1) + {last};
      forall i | 0 <= i < n - 1
        ensures p.past[i].manifest.chainId != last
      {
        ChainsAscend(p, i, n - 1);
      }
    }
  }

  lemma OthersArePast(p: Portal)
    requires Kept(p) && HasChain(p.current.log)
    ensures Others(p.heads, ChainIdOf(p.current.log)) == PastChains(p, |p.past|)
  {
    hide Kept, HasChain, InChain, LastOf;
    forall c | c in Others(p.heads, ChainIdOf(p.current.log))
      ensures c in PastChains(p, |p.past|)
    {
      EveryOtherChainIsPast(p, c);
    }
    forall i | 0 <= i < |p.past|
      ensures p.past[i].manifest.chainId in Others(p.heads, ChainIdOf(p.current.log))
    {
      ChainsAscend(p, i, |p.past|);
      LastHeadIsFinal(p, i);
      var e := LastOf(InChain(p.heads, p.past[i].manifest.chainId));
      assert e in p.heads && e.key.chain == p.past[i].manifest.chainId;
    }
  }

  /** Without a lineage, the newest archived chain waits for the anchor that names its last row, and earlier ones are
      refused. */
  lemma UncheckedVerdict(p: Portal, i: nat)
    requires Kept(p) && i < |p.past|
    ensures InChain(p.heads, p.past[i].manifest.chainId) != []
    ensures VerdictOn(HeadsOf(p), p.past[i].manifest.chainId, [], Some(p.past[|p.past| - 1].manifest.finalRowHash))
         == if i == |p.past| - 1 then Pending else Refused
  {
    hide Kept, InChain, LastOf;
    LastHeadIsFinal(p, i);
    if i < |p.past| - 1 {
      FinalsAscend(p, i, |p.past| - 1);
    }
  }

  lemma UncheckedChains(p: Portal)
    requires Kept(p) && HasChain(p.current.log) && p.past != []
    ensures var n := |p.past|; var pending := Some(p.past[n - 1].manifest.finalRowHash);
            && ChainsDecided(p.current.log, HeadsOf(p), [], pending, Pending) == {p.past[n - 1].manifest.chainId}
            && ChainsDecided(p.current.log, HeadsOf(p), [], pending, Refused) == PastChains(p, n - 1)
  {
    hide Kept, HasChain, VerdictOn, InChain, Others;
    var n, log := |p.past|, p.current.log;
    var pending := Some(p.past[n - 1].manifest.finalRowHash);
    OthersArePast(p);
    forall i | 0 <= i < n
      ensures InChain(p.heads, p.past[i].manifest.chainId) != []
      ensures VerdictOn(HeadsOf(p), p.past[i].manifest.chainId, [], pending) == if i == n - 1 then Pending else Refused
    {
      UncheckedVerdict(p, i);
    }
    var waiting, refused := ChainsDecided(log, HeadsOf(p), [], pending, Pending), ChainsDecided(log, HeadsOf(p), [], pending, Refused);
    forall c | c in waiting ensures c == p.past[n - 1].manifest.chainId {
      var i :| 0 <= i < n && c == p.past[i].manifest.chainId;
    }
    forall c | c in refused ensures c in PastChains(p, n - 1) {
      var i :| 0 <= i < n && c == p.past[i].manifest.chainId;
    }
  }

  /** A portal that anchors to an archive, checked with the published heads but without the bucket (`--witness-file`). With
      one archived chain that chain only waits, and the report is not verified; from the second on the earlier chains are
      taken for a replaced log, and the report of an honest run is `broken`. */
  lemma UncheckedRunsReport(p0: Portal, actions: seq<Action>, p: Portal, verifier: Option<Verifier>, r: Report)
    requires Fresh(p0) && HonestRun(p0, actions, p) && HasChain(p.current.log) && p.past != []
    requires r.Report? && ReportOn(p.current.log, StartCursor(p.current.log), None, Some(HeadsOf(p)), verifier, r)
    requires r.anchorStatus == Some(Unverified)
    ensures r.pending == 1 && r.invalid == 0 && r.mismatches == |p.past| - 1 + if ServingPublished(p) then 0 else 1
    ensures r.status == if |p.past| == 1 && ServingPublished(p) then NotVerified else Broken
  {
    hide Kept, HasChain, Intact, Unforked, ServingPublished, HonestRun, Fresh, ReportOn;
    FreshIsKept(p0);
    HonestRunKeeps(p0, actions, p);
    ServingIsSorted(p);
    ServingReport(p);
    UncheckedCounts(p, verifier, r);
    FullStatusMeans(p.current.log, Some(HeadsOf(p)), verifier, r);
    UncheckedStatus(p, verifier, r);
  }

  lemma UncheckedStatus(p: Portal, verifier: Option<Verifier>, r: Report)
    requires r.Report? && ReportOn(p.current.log, StartCursor(p.current.log), None, Some(HeadsOf(p)), verifier, r)
    ensures r.status == NotVerified <==> r.status != Broken && (r.anchorStatus == Some(Unverified) || r.pending > 0)
  {
    hide ReportOf, SliceOf, StartCursor;
    var start := StartCursor(p.current.log);
    StatusMeans(p.current.log, SliceOf(p.current.log, start.afterId, start.expected, None), Some(HeadsOf(p)), verifier, r);
  }

  lemma UncheckedCounts(p: Portal, verifier: Option<Verifier>, r: Report)
    requires Kept(p) && HasChain(p.current.log) && p.past != []
    requires r.Report? && ReportOn(p.current.log, StartCursor(p.current.log), None, Some(HeadsOf(p)), verifier, r)
    requires r.anchorStatus == Some(Unverified)
    ensures r.pending == 1 && r.invalid == 0 && r.mismatches == |p.past| - 1 + if ServingPublished(p) then 0 else 1
  {
    hide Kept, HasChain, ServingPublished, AllMismatches, ChainsDecided, StartCursor, SliceOf, StatusOf, AnchorVerifies, AnchorUnverifiable;
    HonestHeadsMatch(p);
    CurrentContinues(p);
    AnchorOfContinuation(p.current.log, Before(p, |p.past|));
    UncheckedChains(p);
    PastChainsAreDistinct(p, |p.past| - 1);
  }

  lemma ServingIsSorted(p: Portal)
    requires Kept(p)
    ensures Sorted(p.current.log)
  {
  }

  // ----- such runs exist -----

  lemma NewLogHasChain(m: Manifest, id: int, payload: string)
    ensures HasChain([AnchorRow(m, id, payload)]) && AnchorRow(m, id, payload).rowHash.Some?
  {
  }

  lemma {:induction false} RunsOn(p0: Portal, actions: seq<Action>, p: Portal, next: Action)
    requires HonestRun(p0, actions, p) && Allowed(p, next)
    ensures HonestRun(p0, actions + [next], Act(p, next))
    decreases |actions|
  {
    hide Act, Allowed;
    var all := actions + [next];
    if actions == [] {
      assert all[1..] == [] && HonestRun(Act(p, next), [], Act(p, next));
    } else {
      RunsOn(Act(p0, actions[0]), actions[1..], p, next);
      assert all[1..] == actions[1..] + [next];
    }
  }

  lemma FirstWrite(p: Portal, payload: string)
    requires p == Portal([], Writers([], []), None, [], map[], map[])
    ensures var write := Write(AppendSerialized(1, payload));
            Fresh(p) && Allowed(p, write) && Act(p, write) == p.(current := Writers([NewRow(1, Genesis, payload, true)], []))
  {
  }

  /** A first row is written. */
  lemma RunToWrite(payload: string) returns (p0: Portal, actions: seq<Action>, p: Portal)
    ensures Fresh(p0) && HonestRun(p0, actions, p) && Kept(p)
    ensures p == Portal([], Writers([NewRow(1, Genesis, payload, true)], []), None, [], map[], map[])
  {
    p0 := Portal([], Writers([], []), None, [], map[], map[]);
    FirstWrite(p0, payload);
    FreshIsKept(p0);
    WriteKeeps(p0, AppendSerialized(1, payload));
    assert HonestRun(p0, [], p0);
    hide Kept, Act, Allowed, Fresh, HonestRun;
    RunsOn(p0, [], p0, Write(AppendSerialized(1, payload)));
    actions, p := [] + [Write(AppendSerialized(1, payload))], Act(p0, Write(AppendSerialized(1, payload)));
  }

  /** The dump is uploaded and the head published. */
  lemma RunToPublish(payload: string, stored: ArchiveVersion) returns (p0: Portal, actions: seq<Action>, p: Portal)
    ensures Fresh(p0) && HonestRun(p0, actions, p) && Kept(p) && p.past == [] && p.sealed.None? && p.manifests == map[]
    ensures p.current == Writers([NewRow(1, Genesis, payload, true)], []) && p.archives == map[OtherKey("archives/a") := [stored]]
    ensures p.heads == [HeadEntry(Sha256(Some(Genesis), payload), p.current.log[0], 0, "")]
  {
    hide Kept, Fresh, HonestRun;
    var written, p1;
    p0, written, p1 := RunToWrite(payload);
    var key := OtherKey("archives/a");
    var p2 := AfterUpload(p1, key, stored);
    assert VersionsAt(StoreOf(p1), key) == [] && [stored] + Demoted([]) == [stored];
    UploadKeeps(p1, key, stored);
    RunsOn(p0, written, p1, Upload(key, stored));
    assert FirstHashed(p2.current.log) == 0;
    assert MayPublish(p2, 0, 0);
    PublishKeeps(p2, 0, 0, 0, "");
    RunsOn(p0, written + [Upload(key, stored)], p2, Publish(0, 0, 0, ""));
    actions, p := written + [Upload(key, stored)] + [Publish(0, 0, 0, "")], AfterPublish(p2, 0, 0, 0, "");
  }

  lemma FirstSeal(p: Portal, payload: string, stored: ArchiveVersion)
    requires stored.latest && stored.size >= 0 && HexText(stored.contentSha)
    requires p.sealed.None? && p.manifests == map[] && p.archives == map[OtherKey("archives/a") := [stored]]
    requires p.current == Writers([NewRow(1, Genesis, payload, true)], [])
    requires p.heads == [HeadEntry(Sha256(Some(Genesis), payload), p.current.log[0], 0, "")]
    ensures MaySeal(p, "a", OtherKey("archives/a"), None)
  {
    assert FirstHashed(p.current.log) == 0;
    assert NameOk("a") && UnderArchives(OtherKey("archives/a"));
    assert VersionsAt(StoreOf(p), OtherKey("archives/a")) == [stored];
    assert Chosen([stored], None) == Some(stored);
    assert p.heads[0] in p.heads;
  }

  /** A row is written, a dump uploaded, the head published, the manifest written, and a new database anchored: an honest
      run to the commit of a cutover, where a report is `broken`. */
  lemma ArchivedRunExists(payload: string, stored: ArchiveVersion) returns (p0: Portal, actions: seq<Action>, p: Portal)
    requires stored.latest && stored.size >= 0 && HexText(stored.contentSha)
    ensures Fresh(p0) && HonestRun(p0, actions, p) && |p.past| == 1 && HasChain(p.current.log) && !ServingPublished(p)
  {
    hide Kept, Fresh, HonestRun, ServingPublished, HasChain, MaySeal, HeadEntry;
    var done, p3;
    var key := OtherKey("archives/a");
    p0, done, p3 := RunToPublish(payload, stored);
    FirstSeal(p3, payload, stored);
    SealKeeps(p3, "a", key, None);
    RunsOn(p0, done, p3, Seal("a", key, None));
    var p4 := AfterSeal(p3, "a", key, None);
    CutOverPossible(p4);
    hide AfterSeal, HasLineage;
    CutOverIsUnpublished(p4, 1, payload);
    RunsThenCutsOver(p0, done + [Seal("a", key, None)], p4, 1, payload);
    actions, p := done + [Seal("a", key, None)] + [CutOver(1, payload)], AfterCutOver(p4, 1, payload);
  }
}
