/** `app/services/audit_archive.py`: checking an anchor against its archive manifest, and that manifest's own source
    anchor against its manifest, back to the first generation. */
module AuditArchive {
  import opened Records
  import opened AuditWitness

  const MAX_LINEAGE := 16

  /** How reading under a key goes: answered, no access (the verifier could not look), or any other failure. */
  datatype Access = Readable | NoAccess | Fails(finding: string)

  datatype ArchiveVersion = ArchiveVersion(version: string, size: int, latest: bool, contentSha: string)

  /** What the witness bucket holds under `archives/`, how listing and reading under each key goes, how downloading an
      archive to hash it again goes, and the head scan a check without one makes for itself. */
  datatype Store = Store(
    manifests: map<Key, seq<Body>>,
    archives: map<Key, seq<ArchiveVersion>>,
    access: map<Key, Access>,
    content: map<Key, Access>,
    ownScan: HeadScan,
    ownScanAccess: Access)

  function AccessTo(store: Store, key: Key): Access {
    if key in store.access then store.access[key] else Readable
  }

  function ContentAccess(store: Store, key: Key): Access {
    if key in store.content then store.content[key] else Readable
  }

  function BodiesAt(store: Store, key: Key): seq<Body> {
    if key in store.manifests then store.manifests[key] else []
  }

  function VersionsAt(store: Store, key: Key): seq<ArchiveVersion> {
    if key in store.archives then store.archives[key] else []
  }

  // ----- the manifest object -----

  predicate IsNameChar(c: char) {
    'A' <= c <= 'Z' || 'a' <= c <= 'z' || '0' <= c <= '9' || c == '.' || c == '_' || c == '-'
  }

  /** `[A-Za-z0-9][A-Za-z0-9._-]{0,35}`, the name in a manifest key. */
  predicate NameOk(name: string) {
    && 1 <= |name| <= 36 && name[0] !in "._-"
    && forall i :: 0 <= i < |name| ==> IsNameChar(name[i])
  }

  /** `NAME_RE` matches: `$` also matches before one final newline. */
  predicate NameMatches(name: string) {
    NameOk(name) || (name != "" && name[|name| - 1] == '\n' && NameOk(name[..|name| - 1]))
  }

  /** `MANIFEST_KEY` matches the key. */
  predicate KeyMatches(key: Key) {
    key.ManifestKey? && NameOk(key.name)
  }

  predicate UnderArchives(key: Key) {
    match key
    case OtherKey(text) => |text| <= 1024 && "archives/" <= text
    case _ => true
  }

  predicate HexText(t: string) {
    Hex64(Text(t))
  }

  /** The field checks of `parse_manifest`; a source anchor names every field. */
  predicate ValidManifest(m: Manifest) {
    && NameMatches(m.archiveId) && UnderArchives(m.archiveKey) && m.archiveSize >= 0 && HexText(m.archiveSha)
    && m.finalRowId > 0 && Hex64(m.finalRowHash) && m.entries >= 0
    && (m.source.Some? ==> NamesEveryField(m.source.value))
  }

  predicate NamesEveryField(a: Anchor) {
    && a.archiveId.Some? && a.archiveId.value != "" && a.archiveSha.Some? && a.archiveSha.value != ""
    && Truthy(a.archivedHead) && a.archivedEntries.Some? && a.manifestKey.Some? && a.manifestSha.Some?
  }

  /** Which names there are: 1 to 36 letters, digits, dots, underscores and hyphens, the first a letter or a digit. */
  lemma NameOkMeans(name: string)
    ensures NameOk(name) <==>
            && 1 <= |name| <= 36 && ('A' <= name[0] <= 'Z' || 'a' <= name[0] <= 'z' || '0' <= name[0] <= '9')
            && forall i :: 0 < i < |name| ==>
                 'A' <= name[i] <= 'Z' || 'a' <= name[i] <= 'z' || '0' <= name[i] <= '9' || name[i] in {'.', '_', '-'}
  {
  }

  lemma NameMatchesMeans(name: string)
    ensures NameMatches(name) <==> NameOk(name) || exists line :: name == line + "\n" && NameOk(line)
  {
    hide NameOk;
    if NameMatches(name) && !NameOk(name) {
      assert name == name[..|name| - 1] + "\n";
    }
    if line :| name == line + "\n" && NameOk(line) {
      assert name[..|name| - 1] == line && name[|name| - 1] == '\n';
    }
  }

  /** Which manifests are accepted, field by field; a source anchor leaves no field out or empty. */
  lemma ValidManifestMeans(m: Manifest)
    ensures ValidManifest(m) <==>
            && (NameOk(m.archiveId) || exists line :: m.archiveId == line + "\n" && NameOk(line))
            && m.archiveSize >= 0 && m.finalRowId >= 1 && m.entries >= 0
            && Hex64(Text(m.archiveSha)) && Hex64(m.finalRowHash)
            && (m.archiveKey.OtherKey? ==> |m.archiveKey.text| <= 1024 && "archives/" <= m.archiveKey.text)
            && (m.source.Some? ==>
                  var a := m.source.value;
                  && a.archiveId !in {None, Some("")} && a.archiveSha !in {None, Some("")} && a.archivedHead !in {None, Some(Text(""))}
                  && a.archivedEntries != None && a.manifestKey != None && a.manifestSha != None)
  {
    NameMatchesMeans(m.archiveId);
    hide NameOk, NameMatches;
  }

  // ----- the rules, declaratively -----

  /** The version a manifest pins, or the latest one when it pins none. */
  predicate Named(v: ArchiveVersion, pinned: Option<string>) {
    if pinned.Some? && pinned.value != "" then v.version == pinned.value else v.latest
  }

  /** The first of them. */
  function Chosen(versions: seq<ArchiveVersion>, pinned: Option<string>): Option<ArchiveVersion> {
    if versions == [] then None else if Named(versions[0], pinned) then Some(versions[0]) else Chosen(versions[1..], pinned)
  }

  /** Rule 2: the anchor's claims are the manifest's. */
  predicate ClaimsAgree(a: Anchor, m: Manifest) {
    && a.archiveSha == Some(m.archiveSha) && a.archivedHead == Some(m.finalRowHash)
    && a.archiveId == Some(m.archiveId) && a.archivedEntries == Some(m.entries)
  }

  /** Rule 3: the archive object is there, with the stated size (and, re-hashed, the stated content). */
  predicate ArchiveThere(store: Store, m: Manifest, rehash: bool) {
    && AccessTo(store, m.archiveKey).Readable?
    && var chosen := Chosen(VersionsAt(store, m.archiveKey), m.archiveVersion);
    && chosen.Some? && chosen.value.size == m.archiveSize
    && (rehash ==> ContentAccess(store, m.archiveKey).Readable? && chosen.value.contentSha == m.archiveSha)
  }

  /** Rule 4: the final head is published, nothing of that chain differs from it or comes after it, and nothing invalid
      lies under its prefix. */
  ghost predicate FinalHeadPublished(scan: HeadScan, m: Manifest) {
    && (forall b :: b in scan.invalid ==> b.under != Some(m.chainId))
    && (exists e :: e in scan.valid && e.key.chain == m.chainId && e.head.id == m.finalRowId)
    && (forall e :: e in scan.valid && e.key.chain == m.chainId ==> e.head.id <= m.finalRowId)
    && (forall e :: e in scan.valid && e.key.chain == m.chainId && e.head.id == m.finalRowId ==>
                      e.head.rowHash == m.finalRowHash)
  }

  /** The scan a check reads: the verifier's own, or one it makes, when the bucket lets it. */
  function ScanFor(store: Store, heads: Option<HeadScan>): Option<HeadScan> {
    if heads.Some? then heads else if store.ownScanAccess.Readable? then Some(store.ownScan) else None
  }

  /** Rules 0 to 4: the manifest certifies the anchor. */
  ghost predicate Certifies(store: Store, heads: Option<HeadScan>, rehash: bool, a: Anchor, m: Manifest) {
    && a.manifestKey == Some(ManifestKey(m.chainId, m.archiveId)) && NameOk(m.archiveId)
    && a.manifestSha == Some(Of(Document(m)))
    && AccessTo(store, a.manifestKey.value).Readable?
    && BodiesAt(store, a.manifestKey.value) != []
    && (forall b :: b in BodiesAt(store, a.manifestKey.value) ==> b == Document(m))
    && ValidManifest(m) && ClaimsAgree(a, m) && ArchiveThere(store, m, rehash)
    && ScanFor(store, heads).Some? && FinalHeadPublished(ScanFor(store, heads).value, m)
  }

  /** Rule 5: each manifest certifies the anchor the one before it names, and the last names none. */
  ghost predicate Lineage(store: Store, heads: Option<HeadScan>, rehash: bool, a: Anchor, ms: seq<Manifest>)
    decreases |ms|
  {
    && ms != [] && Certifies(store, heads, rehash, a, ms[0])
    && if ms[0].source.None? then |ms| == 1 else Lineage(store, heads, rehash, ms[0].source.value, ms[1..])
  }

  /** Which version rule 3 is about: the first with the pinned identifier, or, with none pinned, the first latest one. */
  lemma ArchiveThereMeans(store: Store, m: Manifest, rehash: bool)
    ensures var vs := VersionsAt(store, m.archiveKey);
            ArchiveThere(store, m, rehash) <==>
            && AccessTo(store, m.archiveKey).Readable? && (rehash ==> ContentAccess(store, m.archiveKey).Readable?)
            && exists i :: && 0 <= i < |vs| && vs[i].size == m.archiveSize && (rehash ==> vs[i].contentSha == m.archiveSha)
                           && if m.archiveVersion in {None, Some("")} then vs[i].latest && forall j :: 0 <= j < i ==> !vs[j].latest
                              else Some(vs[i].version) == m.archiveVersion && forall j :: 0 <= j < i ==> Some(vs[j].version) != m.archiveVersion
  {
    ChosenMeans(VersionsAt(store, m.archiveKey), m.archiveVersion);
  }

  lemma {:induction false} ChosenMeans(vs: seq<ArchiveVersion>, pinned: Option<string>)
    ensures Chosen(vs, pinned).None? <==> forall i :: 0 <= i < |vs| ==> !Named(vs[i], pinned)
    ensures forall i :: 0 <= i < |vs| && Named(vs[i], pinned) && (forall j :: 0 <= j < i ==> !Named(vs[j], pinned)) ==> Chosen(vs, pinned) == Some(vs[i])
    ensures Chosen(vs, pinned).Some? ==> exists i :: 0 <= i < |vs| && Chosen(vs, pinned) == Some(vs[i]) && Named(vs[i], pinned) && forall j :: 0 <= j < i ==> !Named(vs[j], pinned)
  {
    if vs != [] && !Named(vs[0], pinned) {
      var rest := vs[1..];
      ChosenMeans(rest, pinned);
      assert forall i :: 0 < i < |vs| ==> vs[i] == rest[i - 1];
      if Chosen(rest, pinned).Some? {
        var i :| 0 <= i < |rest| && Chosen(rest, pinned) == Some(rest[i]) && Named(rest[i], pinned) && forall j :: 0 <= j < i ==> !Named(rest[j], pinned);
        assert vs[i + 1] == rest[i];
        assert forall j :: 0 <= j < i + 1 ==> !Named(vs[j], pinned);
      }
      forall i | 0 <= i < |vs| && Named(vs[i], pinned) && (forall j :: 0 <= j < i ==> !Named(vs[j], pinned))
        ensures Chosen(vs, pinned) == Some(vs[i])
      {
        assert forall j :: 0 <= j < i - 1 ==> rest[j] == vs[j + 1];
        assert Named(rest[i - 1], pinned);
      }
    }
  }

  function EntryOf(m: Manifest): LineageEntry {
    LineageEntry(m.chainId, m.finalRowId, m.finalRowHash)
  }

  function Entries(ms: seq<Manifest>): seq<LineageEntry> {
    seq(|ms|, i requires 0 <= i < |ms| => EntryOf(ms[i]))
  }

  /** An anchor has at most one lineage. */
  lemma {:induction false} LineageIsUnique(store: Store, heads: Option<HeadScan>, rehash: bool, a: Anchor, ms: seq<Manifest>,
                                           ns: seq<Manifest>)
    requires Lineage(store, heads, rehash, a, ms) && Lineage(store, heads, rehash, a, ns)
    ensures ms == ns
    decreases |ms|
  {
    assert ms[0] == ns[0];
    if ms[0].source.Some? {
      LineageIsUnique(store, heads, rehash, ms[0].source.value, ms[1..], ns[1..]);
      assert ms == [ms[0]] + ms[1..] && ns == [ns[0]] + ns[1..];
    }
  }

  // ----- when a check cannot look -----

  /** The anchor names this manifest, and reading it succeeds. */
  predicate ReadsAs(store: Store, a: Anchor, m: Manifest) {
    && a.manifestKey == Some(ManifestKey(m.chainId, m.archiveId)) && a.manifestSha == Some(Of(Document(m)))
    && NameOk(m.archiveId) && ValidManifest(m) && AccessTo(store, a.manifestKey.value).Readable? && BodiesAt(store, a.manifestKey.value) != []
    && forall b :: b in BodiesAt(store, a.manifestKey.value) ==> b == Document(m)
  }

  predicate NamesKey(a: Anchor) {
    a.manifestKey.Some? && a.manifestSha.Some? && KeyMatches(a.manifestKey.value)
  }

  /** A read made for one generation is refused: of the manifest, of the archive's listing, of the published heads, or,
      when every other rule holds, of the archive to hash it again. */
  ghost predicate DeniedHere(store: Store, heads: Option<HeadScan>, rehash: bool, a: Anchor) {
    || (NamesKey(a) && AccessTo(store, a.manifestKey.value).NoAccess?)
    || exists m :: ReadsAs(store, a, m) && DeniedFor(store, heads, rehash, a, m)
  }

  ghost predicate DeniedFor(store: Store, heads: Option<HeadScan>, rehash: bool, a: Anchor, m: Manifest) {
    || AccessTo(store, m.archiveKey).NoAccess?
    || (AccessTo(store, m.archiveKey).Readable? && heads.None? && store.ownScanAccess.NoAccess?)
    || (rehash && Certifies(store, heads, false, a, m) && ContentAccess(store, m.archiveKey).NoAccess?)
  }

  /** A read is refused within `limit` generations, every generation before it being certified. */
  ghost predicate DeniedWithin(store: Store, heads: Option<HeadScan>, rehash: bool, a: Anchor, limit: nat) {
    && limit > 0
    && (DeniedHere(store, heads, rehash, a)
        || exists m :: Certifies(store, heads, rehash, a, m) && m.source.Some?
                       && DeniedWithin(store, heads, rehash, m.source.value, limit - 1))
  }

  // ----- the check, as the code makes it -----

  datatype Issue =
    | NamesNoManifest | BadManifestKey | NoManifest | ManifestDiffers | BadManifest | NamesAnother
    | ShaDiffers | HeadDiffers | IdDiffers | EntriesDiffer
    | ArchiveMissing | ArchiveSizeDiffers | RehashDiffers
    | InvalidObjects | NeverPublished | FinalHeadDiffers | PublishedLater
    | TooLong | ReadFailed(finding: string)

  /** How a part of the check ended: normally, in `_NoAccess`, or in an exception that becomes an issue. */
  datatype Ending = Completed | Denied | Threw(issue: Issue)

  function EndingOf(access: Access): Ending {
    match access
    case Readable => Completed
    case NoAccess => Denied
    case Fails(finding) => Threw(ReadFailed(finding))
  }

  /** The first part of `_check_manifest`: reading and parsing the manifest the anchor names. */
  method ReadManifest(store: Store, a: Anchor) returns (ending: Ending, issues: seq<Issue>, manifest: Option<Manifest>)
    ensures manifest.Some? ==> ending.Completed? && issues == [] && ReadsAs(store, a, manifest.value)
    ensures manifest.None? ==> !ending.Completed? || issues != []
    ensures manifest.None? ==> forall m :: !ReadsAs(store, a, m)
    ensures ending.Denied? <==> NamesKey(a) && AccessTo(store, a.manifestKey.value).NoAccess?
    ensures a.manifestKey.None? || a.manifestSha.None? <==> issues == [NamesNoManifest]
    ensures a.manifestKey.Some? && a.manifestSha.Some? && !KeyMatches(a.manifestKey.value) <==> issues == [BadManifestKey]
    ensures NamesKey(a) && AccessTo(store, a.manifestKey.value).Readable? ==>
              var bodies := BodiesAt(store, a.manifestKey.value);
              var oversized, pinned := (exists b :: b in bodies && b.Oversized?), (forall b :: b in bodies ==> Of(b) == a.manifestSha.value);
              && (issues == [NoManifest] <==> bodies == []) && (issues == [ManifestDiffers] <==> !oversized && !pinned)
              && (ending == Threw(BadManifest) <==>
                    oversized || (pinned && bodies != [] && !(bodies[0].Document? && ValidManifest(bodies[0].manifest))))
              && (issues == [NamesAnother] <==>
                    && bodies != [] && !oversized && pinned && bodies[0].Document? && ValidManifest(bodies[0].manifest)
                    && a.manifestKey.value != ManifestKey(bodies[0].manifest.chainId, bodies[0].manifest.archiveId))
  {
    manifest := None;
    if a.manifestKey.None? || a.manifestSha.None? {
      return Completed, [NamesNoManifest], None;
    }
    var key, pinned := a.manifestKey.value, a.manifestSha.value;
    if !KeyMatches(key) {
      return Completed, [BadManifestKey], None;
    }
    if !AccessTo(store, key).Readable? {
      return EndingOf(AccessTo(store, key)), [], None;
    }
    var bodies := BodiesAt(store, key);
    if bodies == [] {
      return Completed, [NoManifest], None;
    }
    if exists b :: b in bodies && b.Oversized? {
      return Threw(BadManifest), [], None;
    }
    if exists b :: b in bodies && Of(b) != pinned {
      return Completed, [ManifestDiffers], None;
    }
    assert Of(bodies[0]) == pinned;
    if !bodies[0].Document? || !ValidManifest(bodies[0].manifest) {
      return Threw(BadManifest), [], None;
    }
    var m := bodies[0].manifest;
    if m.chainId != key.chain || m.archiveId != key.name {
      return Completed, [NamesAnother], None;
    }
    return Completed, [], Some(m);
  }

  /** `_compare`. */
  function Compare(a: Anchor, m: Manifest): (issues: seq<Issue>)
    ensures issues == [] <==> ClaimsAgree(a, m)
    ensures ShaDiffers in issues <==> a.archiveSha != Some(m.archiveSha)
    ensures HeadDiffers in issues <==> a.archivedHead != Some(m.finalRowHash)
    ensures IdDiffers in issues <==> a.archiveId != Some(m.archiveId)
    ensures EntriesDiffer in issues <==> a.archivedEntries != Some(m.entries)
    ensures RehashDiffers !in issues
  {
    (if a.archiveSha != Some(m.archiveSha) then [ShaDiffers] else [])
    + (if a.archivedHead != Some(m.finalRowHash) then [HeadDiffers] else [])
    + (if a.archiveId != Some(m.archiveId) then [IdDiffers] else [])
    + (if a.archivedEntries != Some(m.entries) then [EntriesDiffer] else [])
  }

  /** `_check_archive`, once the listing is readable. */
  function CheckArchive(store: Store, m: Manifest): (issues: seq<Issue>)
    ensures issues == [] && AccessTo(store, m.archiveKey).Readable? <==> ArchiveThere(store, m, false)
    ensures issues == [] || issues == [ArchiveSizeDiffers]
            || (issues == [ArchiveMissing] && forall v :: v in VersionsAt(store, m.archiveKey) ==> !Named(v, m.archiveVersion))
  {
    ChosenMeans(VersionsAt(store, m.archiveKey), m.archiveVersion);
    var chosen := Chosen(VersionsAt(store, m.archiveKey), m.archiveVersion);
    if chosen.None? then [ArchiveMissing]
    else if chosen.value.size != m.archiveSize then [ArchiveSizeDiffers] else []
  }

  /** `_check_final_head`, over one head scan. */
  method CheckFinalHead(scan: HeadScan, m: Manifest) returns (issues: seq<Issue>)
    ensures issues == [] <==> FinalHeadPublished(scan, m)
    ensures RehashDiffers !in issues
    ensures InvalidObjects in issues <==> exists b :: b in scan.invalid && b.under == Some(m.chainId)
    ensures NeverPublished in issues <==> forall e :: e in scan.valid && IsFinal(e, m) ==> e.head.rowHash != m.finalRowHash
    ensures FinalHeadDiffers in issues <==> exists e :: e in scan.valid && IsFinal(e, m) && e.head.rowHash != m.finalRowHash
    ensures PublishedLater in issues <==> exists e :: e in scan.valid && e.key.chain == m.chainId && e.head.id > m.finalRowId
  {
    var invalid, published, differing, later := false, false, false, false;
    for i := 0 to |scan.invalid|
      invariant invalid <==> exists j :: 0 <= j < i && scan.invalid[j].under == Some(m.chainId)
    {
      invalid := invalid || scan.invalid[i].under == Some(m.chainId);
    }
    for i := 0 to |scan.valid|
      invariant published <==> exists j :: 0 <= j < i && IsFinal(scan.valid[j], m) && scan.valid[j].head.rowHash == m.finalRowHash
      invariant differing <==> exists j :: 0 <= j < i && IsFinal(scan.valid[j], m) && scan.valid[j].head.rowHash != m.finalRowHash
      invariant later <==> exists j :: 0 <= j < i && scan.valid[j].key.chain == m.chainId && scan.valid[j].head.id > m.finalRowId
    {
      var e := scan.valid[i];
      published := published || (IsFinal(e, m) && e.head.rowHash == m.finalRowHash);
      differing := differing || (IsFinal(e, m) && e.head.rowHash != m.finalRowHash);
      later := later || (e.key.chain == m.chainId && e.head.id > m.finalRowId);
    }
    assert invalid <==> exists b :: b in scan.invalid && b.under == Some(m.chainId);
    assert published <==> exists e :: e in scan.valid && IsFinal(e, m) && e.head.rowHash == m.finalRowHash;
    assert differing <==> exists e :: e in scan.valid && IsFinal(e, m) && e.head.rowHash != m.finalRowHash;
    assert later <==> exists e :: e in scan.valid && e.key.chain == m.chainId && e.head.id > m.finalRowId;
    issues := Findings(invalid, published, differing, later);
  }

  function Findings(invalid: bool, published: bool, differing: bool, later: bool): (issues: seq<Issue>)
    ensures RehashDiffers !in issues && (issues == [] <==> !invalid && published && !differing && !later)
    ensures (InvalidObjects in issues <==> invalid) && (NeverPublished in issues <==> !published)
    ensures (FinalHeadDiffers in issues <==> differing) && (PublishedLater in issues <==> later)
  {
    (if invalid then [InvalidObjects] else []) + (if published then [] else [NeverPublished])
    + (if differing then [FinalHeadDiffers] else []) + (if later then [PublishedLater] else [])
  }

  predicate IsFinal(e: Entry, m: Manifest) {
    e.key.chain == m.chainId && e.head.id == m.finalRowId
  }

  /** `_check_manifest`: every issue found before an exception is kept. */
  method CheckManifest(store: Store, heads: Option<HeadScan>, rehash: bool, a: Anchor)
    returns (ending: Ending, issues: seq<Issue>, manifest: Option<Manifest>)
    ensures ending.Completed? && issues == [] ==> manifest.Some? && Certifies(store, heads, rehash, a, manifest.value)
    ensures !ending.Completed? || issues != [] ==> forall m :: !Certifies(store, heads, rehash, a, m)
    ensures ending.Denied? <==> DeniedHere(store, heads, rehash, a)
  {
    ending, issues, manifest := ReadManifest(store, a);
    if manifest.None? {
      forall m
        ensures !Certifies(store, heads, rehash, a, m)
      {
        if Certifies(store, heads, rehash, a, m) {
          CertifiedReads(store, heads, rehash, a, m);
        }
      }
      return;
    }
    var m := manifest.value;
    OneManifest(store, heads, rehash, a, m);
    ending, issues := CheckRead(store, heads, rehash, a, m);
  }

  /** The manifest that was read is the only one that can certify the anchor or be refused. */
  lemma OneManifest(store: Store, heads: Option<HeadScan>, rehash: bool, a: Anchor, m: Manifest)
    requires ReadsAs(store, a, m)
    ensures forall n :: Certifies(store, heads, rehash, a, n) ==> n == m
    ensures DeniedHere(store, heads, rehash, a) <==> DeniedFor(store, heads, rehash, a, m)
  {
    hide Certifies, DeniedFor;
    forall n | Certifies(store, heads, rehash, a, n)
      ensures n == m
    {
      CertifiedReads(store, heads, rehash, a, n);
    }
  }

  lemma CertifiedReads(store: Store, heads: Option<HeadScan>, rehash: bool, a: Anchor, m: Manifest)
    requires Certifies(store, heads, rehash, a, m)
    ensures ReadsAs(store, a, m)
  {
  }

  /** The rest of `_check_manifest`, for the manifest that was read. */
  method CheckRead(store: Store, heads: Option<HeadScan>, rehash: bool, a: Anchor, m: Manifest)
    returns (ending: Ending, issues: seq<Issue>)
    requires ReadsAs(store, a, m)
    ensures ending.Completed? && issues == [] <==> Certifies(store, heads, rehash, a, m)
    ensures ending.Denied? <==> DeniedFor(store, heads, rehash, a, m)
    ensures RehashDiffers in issues ==> rehash && Certifies(store, heads, false, a, m) && issues == [RehashDiffers]
    ensures rehash && ending.Completed? && Certifies(store, heads, false, a, m) && !Certifies(store, heads, true, a, m) ==> issues == [RehashDiffers]
  {
    issues := Compare(a, m);
    ending := EndingOf(AccessTo(store, m.archiveKey));
    if !ending.Completed? {
      return;
    }
    issues := issues + CheckArchive(store, m);
    var scan := ScanFor(store, heads);
    if scan.None? {
      ending := EndingOf(store.ownScanAccess);
      return;
    }
    var more := CheckFinalHead(scan.value, m);
    issues := issues + more;
    assert issues == [] <==> Certifies(store, heads, false, a, m);
    if rehash && issues == [] {
      ending := EndingOf(ContentAccess(store, m.archiveKey));
      if ending.Completed? && Chosen(VersionsAt(store, m.archiveKey), m.archiveVersion).value.contentSha != m.archiveSha {
        issues := [RehashDiffers];
      }
    }
  }

  /** The anchor has no lineage of at most `limit` manifests. */
  ghost predicate NoLineage(store: Store, heads: Option<HeadScan>, rehash: bool, a: Anchor, limit: int) {
    forall ms :: Lineage(store, heads, rehash, a, ms) ==> |ms| > limit
  }

  lemma LineageStep(store: Store, heads: Option<HeadScan>, rehash: bool, a: Anchor, m: Manifest)
    requires Certifies(store, heads, rehash, a, m)
    ensures m.source.None? ==> Lineage(store, heads, rehash, a, [m])
    ensures m.source.Some? ==> forall rest :: Lineage(store, heads, rehash, m.source.value, rest) ==>
                                                Lineage(store, heads, rehash, a, [m] + rest)
    ensures m.source.Some? ==> forall limit :: NoLineage(store, heads, rehash, m.source.value, limit) ==>
                                                 NoLineage(store, heads, rehash, a, limit + 1)
  {
    if m.source.Some? {
      forall rest | Lineage(store, heads, rehash, m.source.value, rest)
        ensures Lineage(store, heads, rehash, a, [m] + rest)
      {
        assert ([m] + rest)[1..] == rest;
      }
      forall limit, ms | NoLineage(store, heads, rehash, m.source.value, limit) && Lineage(store, heads, rehash, a, ms)
        ensures |ms| > limit + 1
      {
        assert ms[0] == m;
        assert Lineage(store, heads, rehash, m.source.value, ms[1..]);
      }
    }
  }

  lemma NonEmpty(store: Store, heads: Option<HeadScan>, rehash: bool, a: Anchor)
    ensures NoLineage(store, heads, rehash, a, 0)
  {
  }

  lemma Uncertified(store: Store, heads: Option<HeadScan>, rehash: bool, a: Anchor)
    requires forall m :: !Certifies(store, heads, rehash, a, m)
    ensures forall limit :: NoLineage(store, heads, rehash, a, limit)
  {
  }

  /** Past a certified generation, a read is refused only for the anchor its manifest names. */
  lemma DeniedStep(store: Store, heads: Option<HeadScan>, rehash: bool, a: Anchor, m: Manifest, limit: nat)
    requires limit > 0 && Certifies(store, heads, rehash, a, m)
    ensures DeniedWithin(store, heads, rehash, a, limit)
            <==> m.source.Some? && DeniedWithin(store, heads, rehash, m.source.value, limit - 1)
  {
    CertifiedReads(store, heads, rehash, a, m);
    OneManifest(store, heads, rehash, a, m);
    CertifiedIsNotDenied(store, heads, rehash, a, m);
    hide Certifies, DeniedHere;
  }

  lemma CertifiedIsNotDenied(store: Store, heads: Option<HeadScan>, rehash: bool, a: Anchor, m: Manifest)
    requires Certifies(store, heads, rehash, a, m)
    ensures !DeniedFor(store, heads, rehash, a, m)
  {
    hide FinalHeadPublished, ValidManifest;
  }

  datatype Status = Verified | Failed | Unverified

  /** The `result` dictionary of `verify_anchor`. */
  class AnchorCheck {
    var status: Status
    var issues: seq<Issue>
    var lineage: seq<LineageEntry>

    constructor ()
      ensures status == Unverified && issues == [] && lineage == []
    {
      status, issues, lineage := Unverified, [], [];
    }

    /** `_check_generation`. It ends normally without an issue exactly when the anchor has a lineage within the
        generations left, and then it has appended exactly that lineage, in order. */
    method CheckGeneration(store: Store, heads: Option<HeadScan>, rehash: bool, a: Anchor, depth: nat)
      returns (ending: Ending, ghost ms: seq<Manifest>)
      requires depth < MAX_LINEAGE && issues == []
      modifies this
      ensures ending.Completed? && issues == [] ==>
                && Lineage(store, heads, rehash, a, ms) && |ms| <= MAX_LINEAGE - depth
                && lineage == old(lineage) + Entries(ms)
      ensures !(ending.Completed? && issues == []) ==> NoLineage(store, heads, rehash, a, MAX_LINEAGE - depth)
      ensures ending.Denied? <==> DeniedWithin(store, heads, rehash, a, MAX_LINEAGE - depth)
      ensures status == old(status)
      decreases MAX_LINEAGE - depth
    {
      hide Certifies, Lineage, NoLineage, DeniedHere;
      var manifest;
      ms := [];
      ending, issues, manifest := CheckManifest(store, heads, rehash, a);
      if !ending.Completed? || manifest.None? || issues != [] {
        Uncertified(store, heads, rehash, a);
        return;
      }
      var m := manifest.value;
      LineageStep(store, heads, rehash, a, m);
      DeniedStep(store, heads, rehash, a, m, MAX_LINEAGE - depth);
      lineage := lineage + [EntryOf(m)];
      ms := [m];
      if m.source.Some? {
        if depth + 1 >= MAX_LINEAGE {
          issues := issues + [TooLong];
          NonEmpty(store, heads, rehash, m.source.value);
          return;
        }
        ghost var rest;
        ending, rest := CheckGeneration(store, heads, rehash, m.source.value, depth + 1);
        ms := [m] + rest;
        assert Entries(ms) == [EntryOf(m)] + Entries(rest);
        assert MAX_LINEAGE - (depth + 1) + 1 == MAX_LINEAGE - depth;
      } else {
        assert Entries(ms) == [EntryOf(m)];
      }
    }

    /** `verify_anchor`. */
    method VerifyAnchor(store: Store, bucket: bool, heads: Option<HeadScan>, rehash: bool, a: Anchor)
      returns (ghost ms: seq<Manifest>)
      requires status == Unverified && issues == [] && lineage == []
      modifies this
      ensures status == Verified <==> bucket && HasLineage(store, heads, rehash, a)
      ensures status == Verified ==> Lineage(store, heads, rehash, a, ms) && |ms| <= MAX_LINEAGE && lineage == Entries(ms)
      ensures status == Verified ==> issues == []
      ensures status == Unverified <==> !bucket || DeniedWithin(store, heads, rehash, a, MAX_LINEAGE)
      ensures status == Failed ==> issues != []
      ensures status != Verified ==> lineage == []
    {
      ms := [];
      if !bucket {
        return;
      }
      hide Lineage, Entries, DeniedWithin, Certifies;
      var ending;
      ending, ms := CheckGeneration(store, heads, rehash, a, 0);
      if ending.Denied? {
        lineage := [];
        return;
      }
      if ending.Threw? {
        issues := issues + [ending.issue];
      }
      status := if issues != [] then Failed else Verified;
      if issues != [] {
        lineage := [];
      }
    }
  }

  /** Manifests back to the first generation, at most 16 of them, each certifying the anchor that names it. */
  ghost predicate HasLineage(store: Store, heads: Option<HeadScan>, rehash: bool, a: Anchor) {
    exists ms :: Lineage(store, heads, rehash, a, ms) && |ms| <= MAX_LINEAGE
  }
}
