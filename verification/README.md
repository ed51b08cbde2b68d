# Verification of the portal's tamper-evidence core

A Dafny model of the code that makes the portal's audit trail tamper-evident, and of the self-contained algorithms beside
it, with proofs of what they promise. `dafny verify dfyconfig.toml` checks all of it.

## The audit chain

`audit_log` is a sequence of rows with increasing ids and nullable hashes; a row's payload is the one string its hash is
taken over, so two rows are the same to the chain when their payload texts are. SHA-256 (FIPS 180-4) is a free
constructor of the previous hash and the payload: equal digests have equal inputs, and no chain of digests is circular.
An object's digest in the bucket is idealised in the same way, and a chain id is represented by the hash it truncates.

- `Records`: hashes, rows, heads, anchors, manifests.
- `AuditChain`: `find_chain_start`, the chunked and resumable loop of `verify_chain`, `_earliest_ids`, `classify_links`.
- `ChainIntegrity`: what a clean scan proves of an arbitrary log (tamper evidence, well-founded ancestry), and how slices
  compose.
- `AuditWriters`: the triggers of migrations 014 and 016 under every interleaving.
- `HeadKeys`: the text of head keys, character by character.
- `AuditWitness`: the write-once bucket (`If-None-Match: *`, section 13.1.2 of RFC 9110), `publish_head`, `scan_heads`,
  `check_heads`, `resolve_foreign_chains`.
- `AuditArchive`: `verify_anchor` over several generations of manifests.
- `AuditVerify`: `verify_chain` as a whole.
- `AuditProtocol`: honest runs of append, publish, archive and cutover over any number of generations.

## The other algorithms

- `DecisionLog`: `_check_session`; `DecisionImports`: the importer whose writes it checks.
- `DumpReader`: the pg_dump custom format, as a parser, as imperative readers and as a printer.
- `JsonLimits`: the scan that bounds a JSON body; `ChunkedFiles`: split, manifest, reassembly.
- `LogQueue`: the log-shipping queue between its threads; `MigrationLocks`: taking locks beside a running portal;
  `RoleGrants`: the statements of `app_role_grants`.

Code that works step by step is a method with loops, or a class with the fields the source updates, proved against a
function or predicate that says outright what it computes; the main results are lemmas about those. Threads and other
sessions are any number of their own atomic steps taken between the atomic steps of the method at hand.

## Where the code does not do what it says

- Two kinds of chunked files that `split` accepts cannot be read back: one whose name ends in a dot, because its part names
  hold two dots in a row, and one whose name is so long that its manifest is over the size limit `parse_manifest` checks
  (`ChunkedFiles.TrailingDotIsRefused`, `ChunkedFiles.LongNameIsRefused`; the exact condition is
  `ChunkedFiles.SplitThenParse`).
- `audit-anchor` commits the anchor and publishes the new chain's first head afterwards (`cli/admin_cmd.py:166-177`). A
  report made in between, or until that publication succeeds, is `broken`, although every step was honest
  (`AuditProtocol.CutOverAlarms`; the exact condition is in `AuditProtocol.HonestRunsVerify`).
- Checked with the published heads but without the bucket, an honest portal that has archived two chains or more is
  `broken`: the anchor it cannot check names only the newest of them (`AuditProtocol.UncheckedRunsReport`).
- Two kinds of the importer's own writes are reported by the decision-log verifier: a repository conflict imported without
  a path or with a submitter, and a conflict that replaces a session restored without versions
  (`DecisionImports.PathlessConflictIsReported`, `DecisionImports.RestoredConflictIsReported`; the exact condition is
  `DecisionImports.RunUnreportedIffTraceable`).
- The repository's `README.md:332` says that the evidence store replaces conflicting entries like the evidence repository;
  the importer rejects them instead, and the model follows the importer (`app/services/evidence_import_decision_logs.py:1096-1112`).
- A chunk size of 0 reads nothing and reports the scan complete unless the row limit is 0 too (`AuditVerify.VerifyChain`).
- A published head does not fix rows on dead fork branches (`ChainIntegrity.ForkBranchesAreNotFixed`), and an anchor check
  whose reads are refused after an issue was recorded stays unverified, so issues do not imply failed
  (`app/services/audit_archive.py:488-491`); the model keeps both.

## Model

| member | source | states |
|---|---|---|
| `AuditProtocol.HonestRunsVerify` | app/services/audit_archive.py:290-396 | After any honest run of appends, publications, uploads, archives with writers stopped and cutovers, a full report on the serving log finds no altered row, no true break and no differing head; the anchor verifies, its lineage is exactly the manifests of all earlier generations, and every earlier chain is continued. The report is valid (of a first generation, perhaps intact_with_forks) if and only if some head of the serving chain is published, or none at all; otherwise it is broken, for that one mismatch |
| `AuditProtocol.CutOverAlarms` | cli/admin_cmd.py:160-177 | The exception every cutover meets: a full report between the anchor's commit and the first publication of the new chain is broken, with one mismatch, though the anchor verifies |
| `AuditProtocol.PublicationClears` | cli/admin_cmd.py:175-177 | The first publication of the serving chain ends it |
| `AuditProtocol.UncheckedRunsReport` | app/services/audit_witness.py:621-637 | An honest portal checked with the published heads but without the bucket: with one archived chain the report is not verified, that chain waiting; from the second on each earlier chain is one more mismatch and the report is broken |
| `AuditProtocol.AnchorsThatVerify` | app/services/audit_archive.py:528-580 | Against an honest portal's bucket, at any time, exactly the anchors made from its first sixteen manifests verify: an anchor with any other archive id, digest, head, count or manifest does not |
| `AuditProtocol.ManifestStates` | app/services/audit_archive.py:331-355 | Every manifest of an honest run states its log's chain by its first hash, its number of rows, and the id and hash of its last row |
| `AuditProtocol.UploadKeeps` | app/services/audit_archive.py:583-589 | Later versions uploaded under an archive's key leave every manifest that pins a version verifying, re-hash included |
| `AuditProtocol.ArchivedRunExists` | app/services/audit_archive.py:358-396 | Such runs exist, up to the commit of a cutover: write, upload, publish, write the manifest, anchor a new database |
| `AuditProtocol.CutOverPossible` | app/services/audit_archive.py:508-525 | A cutover is accepted exactly when fewer than 16 chains have been archived before |
| `AuditProtocol.HonestRunKeeps` | app/services/audit_archive.py:290-396 | Every step keeps the protocol invariant: the log is one its triggers write, every manifest states its chain and is in the bucket with its archive and final head, each chain continues the manifest before it, every published head is a row of its generation |
| `AuditProtocol.ChainsAscend` | app/services/audit_archive.py:358-396 | Different generations never share a chain id: each chain starts deeper in hashes than the one before |
| `AuditProtocol.LineageStands` | app/services/audit_archive.py:462-567 | The anchor made from any manifest of an honest run has the manifests back to the first generation as its lineage, whatever was published since |
| `AuditProtocol.HonestHeadsMatch` | app/services/audit_witness.py:580-618 | Every head of the serving chain an honest run published matches its log; the only mismatch is that none is of the serving chain, exactly while there is none |
| `AuditProtocol.PastChainIsContinued` | app/services/audit_witness.py:621-637 | Every archived chain of an honest run is decided continued |
| `AuditProtocol.SealKeeps` | app/services/audit_archive.py:331-355 | Writing the manifest of a chain, its archive object uploaded and its final head published, keeps the invariant |
| `AuditProtocol.PublishKeeps` | app/services/audit_witness.py:331-378 | A publication of any row of any generation keeps the invariant |
| `AuditVerify.ReportsFixPayloads` | app/services/audit_chain.py:234-418 | Tamper evidence, end to end: a head published from a log whose full report is not broken and lists no fork, read by a full report on a later log of the same chain that says the same, is a row of it, and the payloads from the chain start through that row are exactly the first log's, in order; if they differ, the second report is broken or lists a fork |
| `AuditVerify.ReportsFixAncestry` | app/services/audit_chain.py:234-418 | The same with forks: reports that are not broken fix the payloads along the whole ancestor path of the head's row |
| `AuditVerify.StatusMeans` | app/services/audit_chain.py:385-392 | Which status any report gives: broken if and only if an altered row, a true break, a mismatch or an invalid object is counted or the anchor failed; else not verified if and only if the anchor is unverified or a chain waits for it; else valid if and only if no row is a fork |
| `AuditVerify.FullStatusMeans` | app/services/audit_chain.py:280-392 | Read to the end, the log decides: broken if and only if it is not intact, or the witness or the anchor says so; valid only if it is unforked |
| `ChainIntegrity.PublishedPrefixIsFixed` | app/services/audit_chain.py:296-328 | Two logs of one chain id that verify without forks and both hold a published hash have the same payloads, in order, from the chain start through that row |
| `ChainIntegrity.AncestryIsFixed` | app/services/audit_chain.py:209-231 | Tamper evidence with forks: two intact logs of one chain that both hold a hash have the same payloads along its whole ancestor path |
| `ChainIntegrity.AncestryIsWellFounded` | app/services/audit_chain.py:209-231 | In a log without content mismatch and true break, following previous_hash from any row strictly decreases the id and ends at genesis or the anchored head |
| `ChainIntegrity.ForkBranchesAreNotFixed` | app/services/audit_chain.py:209-231 | A dead fork branch is not fixed by a later head: logs that differ only in a forked row are all intact and share their last row |
| `ChainIntegrity.IntactMeans` | app/services/audit_chain.py:296-333 | No content mismatch and no true break, read row by row: every row carries the hash of its own content and links to its predecessor, or, written before the first serialized row, to a root or an earlier row (if and only if) |
| `ChainIntegrity.UnforkedMeans` | app/services/audit_chain.py:296-333 | No fork either: every row links to its predecessor (if and only if) |
| `ChainIntegrity.FindingsMean` | app/services/audit_chain.py:296-331 | On any log, for any slice: exactly which of the rows read are reported altered, which as forks and which as true breaks, by what is stored in the rows themselves |
| `ChainIntegrity.LastHashFixesAll` | app/services/audit_chain.py:58-73 | The last hash of a chained sequence fixes its length and all its payloads |
| `ChainIntegrity.SlicesCompose` | app/services/audit_chain.py:280-331 | On an unchanged log with well-formed hashes, slices of any positive sizes, each resumed from the returned cursor, find together exactly what one call with the summed limit finds, in the same order |
| `ChainIntegrity.SlicesCoverTheLog` | app/services/audit_chain.py:404-418 | Slices that cover the log find what one unbounded call finds |
| `AuditWriters.TrueBreaksAreStaleAppends` | migrations/versions/014_add_audit_log_hash_chain.py:38-59 | Any interleaving of unserialized and serialized writers leaves content that verifies, and a true break is reported if and only if some step of the run was an unserialized append, after the first serialized row, over a head that was no longer the newest |
| `AuditWriters.CleanRunsAreIntact` | migrations/versions/016_audit_log_v2.py:176-193 | No false alarm from concurrent writers: unserialized writers, then serialized ones with none in flight at the switch, are reported without mismatch and true break; a fully serialized log without forks |
| `AuditWriters.StepKeeps` | migrations/versions/016_audit_log_v2.py:176-193 | Every trigger step keeps the invariant: rows hash their own content and descend from genesis or the anchor |
| `AuditChain.ScanLog` | app/services/audit_chain.py:290-331 | The chunk loop, for any chunk size and row limit, computes the findings of exactly the rows it should read, in order, and says when the log was read to its end |
| `AuditChain.ScanRows` | app/services/audit_chain.py:309-326 | The loop over one chunk: expected hash, last id, count, altered rows and mislinked rows of exactly those rows |
| `AuditChain.ScanMore` | app/services/audit_chain.py:290-331 | Scanning some rows and then more is scanning them all |
| `AuditChain.StartsAtIndex` | app/services/audit_chain.py:129-167 | Rows read from the start are the log from its ANCHOR row or first hashed row on |
| `AuditChain.ClassifyLinks` | app/services/audit_chain.py:209-231 | A mislinked row is a fork exactly when it is not after the first serialized row and its previous hash is a root or the hash of an earlier row; every other one is a true break, in order |
| `AuditChain.EarliestIds` | app/services/audit_chain.py:189-199 | Whatever the batch size, the smallest id of each hash that occurs |
| `AuditChain.MinIdBefore` | app/services/audit_chain.py:189-231 | Comparing with the smallest id decides whether any earlier row holds the hash |
| `AuditVerify.VerifyChain` | app/services/audit_chain.py:234-418 | Which of the four reports is returned, for any chunk size and row limit, and that a full one states the rows read, when the anchor is verified, failed or unverified, the exact witness counts and the status rule |
| `AuditVerify.CleanReportAccountsForHeads` | app/services/audit_witness.py:580-637 | With one shared head scan, a valid or intact_with_forks report accounts for every published head: it is a row of this log with the same id and hash, or of a lineage chain, not after its final row and equal to it there |
| `AuditVerify.CheckWitness` | app/services/audit_witness.py:580-637 | Checked and other-chain heads add up to the valid ones; mismatches are those of heads and one for each refused chain; waiting continuations are the pending chains |
| `AuditVerify.CheckAnchor` | app/services/audit_chain.py:340-349 | Verified exactly when the anchor has a lineage in the bucket, and then that lineage is reported; unverified exactly when nobody could look; failed otherwise |
| `AuditWitness.Bucket.PublishHead` | app/services/audit_witness.py:331-378 | Over any bucket contents: no existing object changes; a success leaves exactly the head, moved by as many seconds as there were conflicts, under the key of its chain, that second and its row id, where a scan reads it back as that valid head; the conflicts are the keys of the seconds before |
| `AuditWitness.Bucket.PutOnce` | app/services/audit_witness.py:300-313 | Write-once: what the bucket holds afterwards in every case, errors included; published exactly at a free key, already exactly for an identical object that can be read back |
| `AuditWitness.ScanHeads` | app/services/audit_witness.py:471-502 | Every object version becomes exactly one entry, valid or invalid |
| `AuditWitness.EveryVersionIsReported` | app/services/audit_witness.py:471-502 | A version is a valid head agreeing with its key, field by field, or is reported as invalid under its chain's prefix |
| `AuditWitness.ValidMeans` | app/services/audit_witness.py:431-469 | The valid entries are exactly the heads some version holds: under a key of the head form, within 4 KiB, of the key's chain and row, with a positive id and a 64-digit hash |
| `AuditWitness.MismatchesMean` | app/services/audit_witness.py:592-602 | Exactly the heads the log does not hold are mismatches, as missing or as different by what the log holds for the row |
| `AuditWitness.WitnessReport.constructor` | app/services/audit_witness.py:580-618 | The report check_heads builds: counts that add up, the mismatches of the current chain, one summary per other chain |
| `AuditWitness.WitnessReport.ResolveForeignChains` | app/services/audit_witness.py:621-637 | Each foreign chain lands in exactly one of continued, unverified and mismatches, as the lineage decides |
| `AuditWitness.NoMismatch` | app/services/audit_witness.py:588-602 | No mismatch is found exactly when every head of the chain is a row of the log with the same hash |
| `AuditWitness.HeadsAddUp` | app/services/audit_witness.py:580-618 | Heads of other chains and of the current one are all the heads |
| `AuditWitness.CheckOthers` | app/services/audit_witness.py:603-618 | One summary per other chain, each chain once, and the number of their heads |
| `HeadKeys.KeyPartsInvertsObjectKey` | app/services/audit_witness.py:286-289 | key_parts gives back the chain id and row id of every head object key |
| `HeadKeys.KeyPartsMeans` | app/services/audit_witness.py:425-428 | Which texts are keys of the head form, character by character, and the chain id and row id read of them |
| `HeadKeys.ObjectKeyIsInjective` | app/services/audit_witness.py:286-289 | Different heads have different keys |
| `HeadKeys.ObjectKeySpells` | app/services/audit_witness.py:286-289 | The key spelled out: the digits of its directories are the publication's year, month and day, those of its time the six fields, those of its name the row id |
| `HeadKeys.RetryKeysAreFresh` | app/services/audit_witness.py:357-368 | Each retry, a second later each, tries a key not tried before, of the same chain and row |
| `HeadKeys.NextSecondIsNext` | app/services/audit_witness.py:357-368 | The second added for a retry is the calendar's next: no valid time lies between |
| `HeadKeys.ValidStampMeans` | app/services/audit_witness.py:286-289 | Which publication times there are, months and leap years included |
| `AuditArchive.AnchorCheck.VerifyAnchor` | app/services/audit_archive.py:462-505 | Verified exactly when manifests m0..mk with k < 16 exist where m0 certifies the anchor, each next one the source anchor before it and mk has none; the reported lineage is exactly these in order. Unverified exactly without a bucket or when a read is refused after certified generations only; failed otherwise, with issues |
| `AuditArchive.AnchorCheck.CheckGeneration` | app/services/audit_archive.py:508-525 | One generation and the rest of the lineage, within the generations left |
| `AuditArchive.CheckManifest` | app/services/audit_archive.py:528-567 | It completes without an issue exactly when a manifest certifies the anchor, and ends in no access exactly when a read of this generation is refused |
| `AuditArchive.ReadManifest` | app/services/audit_archive.py:528-553 | A manifest is returned only when it is the valid document under the key and digest the anchor names; otherwise no manifest certifies the anchor |
| `AuditArchive.CheckFinalHead` | app/services/audit_archive.py:419-449 | No issue exactly when the final head is published, nothing published differs from it or follows it, and nothing invalid lies under its prefix |
| `AuditArchive.Compare` | app/services/audit_archive.py:570-580 | No issue exactly when every claim of the anchor is the manifest's |
| `AuditArchive.ValidManifestMeans` | app/services/audit_archive.py:175-208 | Which manifests are accepted, field by field |
| `AuditArchive.NameOkMeans` | app/services/audit_archive.py:85-88 | Which names a manifest key can hold |
| `AuditArchive.ArchiveThereMeans` | app/services/audit_archive.py:583-598 | A manifest's archive is found exactly when the key can be listed and the first version with the pinned identifier, or without one the first latest version, has the stated size (and, re-hashed, content) |
| `AuditArchive.LineageIsUnique` | app/services/audit_archive.py:508-525 | An anchor has at most one lineage |
| `DecisionLog.CheckSession` | app/services/decision_log_verify.py:128-185 | Each issue is reported exactly once, and exactly when the version deserves it by its declared meaning; and how many versions have no digest |
| `DecisionLog.ScanStored` | app/services/decision_log_verify.py:162-178 | The streaming check, with its dictionary of awaited prefix lengths, reports a checked version exactly when the digest of its first entries as stored differs, and leaves awaited exactly the longer ones |
| `DecisionLog.FlagTooLong` | app/services/decision_log_verify.py:179-181 | The versions still awaited are reported, each once |
| `DecisionLog.UnreportedIffGrows` | app/services/decision_log_verify.py:147-184 | With all digests recorded, no prefix, count or head issue since the last genuine conflict if and only if those versions are nested prefixes of the stored entries, the last one all of them |
| `DecisionLog.CheckHistory` | app/services/decision_log_verify.py:70-95 | A version's audit history: which of the six issues it raises, each by its meaning |
| `DecisionLog.ConflictStep` | app/services/decision_log_verify.py:107-125 | A step is a genuine repository conflict, or raises exactly its issue |
| `DecisionLog.GenuineMeans` | app/services/decision_log_verify.py:107-125 | Which steps are genuine repository conflicts, by the version's reason, the successor's origin, and one recorded time |
| `DecisionLog.FirstDigestMeans` | app/services/decision_log_verify.py:75-77 | The digest compared is the first one the audit log recorded, earlier events having recorded none |
| `DecisionLog.HistoryFixesSession` | app/services/decision_log_verify.py:70-185 | Tamper evidence: two unreported sessions with one audit history and no unrecorded digest hold the same stored entries, and their versions the same statuses, counts, digests and superseded contents |
| `DecisionImports.RunUnreportedIffTraceable` | app/services/evidence_import_decision_logs.py:1060-1138 | A run of any imports, from a new or a restored session, is reported by the verifier if and only if some repository conflict in it named no path, named a submitter, or (on PostgreSQL) found no current version to supersede |
| `DecisionImports.CreatedRunIsUnreported` | app/services/evidence_import_decision_logs.py:1060-1138 | No run of a session the portal created is reported when every repository import names its file and no submitter |
| `DecisionImports.PathlessConflictIsReported` | app/services/evidence_import_decision_logs.py:908-953 | A repository import without a path that replaces a member's entries is reported |
| `DecisionImports.RestoredConflictIsReported` | app/services/evidence_import_decision_logs.py:847-860 | A git sync that replaces the entries of a restored session is reported |
| `DecisionImports.SuppliedEntriesStay` | app/services/evidence_import_decision_logs.py:956-970 | No import changes or removes an entry the repository or the store supplied; only a repository conflict changes or removes any entry; once a source has supplied entries, only a source appends |
| `DecisionImports.RunKeepsSuppliedEntries` | app/services/evidence_import_decision_logs.py:1060-1138 | Over any run of imports, what a source supplied stays the beginning of the stored entries |
| `DecisionImports.ImportKeeps` | app/services/evidence_import_decision_logs.py:1060-1138 | One import keeps the shape of the history and adds an untraceable step exactly for an untraceable conflict |
| `DecisionImports.UnreportedIffClean` | app/services/decision_log_verify.py:128-185 | On such a history the verifier reports nothing exactly when no conflict step is flawed |
| `DecisionImports.RunIsTamperEvident` | app/services/decision_log_verify.py:128-185 | After any traceable run of imports, whatever the stored entries and versions are changed to is reported or leaves a digest unrecorded, unless entries, counts, digests and superseded contents are still the run's |
| `DecisionImports.WhatUploadsStore` | app/services/evidence_import_decision_logs.py:1112-1128 | What a member's or an administrator's upload leaves stored, read off the entries: it is stored exactly when it is new, extends what is stored with no back-dated entry, no source has supplied entries, and a member owns the session and it has no conflict |
| `DecisionImports.WhatSourcesStore` | app/services/evidence_import_decision_logs.py:1096-1128 | What a store's or the repository's file leaves stored: a store's exactly when it is new and extends what is stored; the repository's also when it only keeps the entries a source supplied |
| `DecisionImports.WhatIsRecorded` | app/services/evidence_import_decision_logs.py:871-953 | The session row after any import: owner, entries credited to a source, content, conflict and path, by what happened to the entries |
| `DecisionImports.WhatIsCreated` | app/services/evidence_import_decision_logs.py:1018-1085 | Which imports are refused, and the row and entries of a new session |
| `DecisionImports.WhatIsVersioned` | app/services/evidence_import_decision_logs.py:871-953 | The version and audit event an import writes, and that others write none |
| `DecisionImports.ImportIsIdempotent` | app/services/evidence_import_decision_logs.py:1089-1094 | Importing the same content again changes nothing |
| `DecisionImports.NothingIsLost` | app/services/evidence_import_decision_logs.py:847-860 | Over any run, whatever entries a session ever held are still stored or kept in full by a superseded version |
| `DumpReader.DumpRoundTrip` | app/services/audit_archive_dump.py:115-206 | For any printed header, entries and blocks: loading yields the chunks of the first data block of the first data entry of that name, joined, as they are or put through the decompressor as the header says; without the table, the entry or the block it fails |
| `DumpReader.LoadTable` | app/services/audit_archive_dump.py:237-260 | The data copied, with reads of any sizes, is the table's data; the hash and the size are the whole file's; a truncated or malformed dump is an error |
| `DumpReader.HeaderInvertsPut` | app/services/audit_archive_dump.py:92-113 | The header read is the one written, with the same table of contents |
| `DumpReader.EntryInvertsPut` | app/services/audit_archive_dump.py:126-147 | The reader gets back what it keeps of an entry, and stops right behind it |
| `DumpReader.EntryLayout` | app/services/audit_archive_dump.py:126-147 | The same with every field of an entry in its place |
| `DumpReader.FormatLayout` | app/services/audit_archive_dump.py:94-102 | The first eleven bytes: exactly PGDMP, version 1.12 to 1.16 and the custom format are accepted |
| `DumpReader.CompressionLayout` | app/services/audit_archive_dump.py:103-108 | How compression is read in each version |
| `DumpReader.IntInvertsPut` | app/services/audit_archive_dump.py:115-118 | An integer of any size in bytes, sign included, reads back |
| `DumpReader.IntLayout` | app/services/audit_archive_dump.py:115-118 | Four-byte integers, byte by byte: a sign, then the lowest byte first |
| `DumpReader.StrInvertsPut` | app/services/audit_archive_dump.py:120-124 | A string, or the null string, reads back |
| `DumpReader.SeekFindsFirst` | app/services/audit_archive_dump.py:165-180 | Large-object blocks, other kinds and other identifiers are skipped whole; the first matching data block is found, and its absence is an error |
| `DumpReader.CustomArchive.Open` | app/services/audit_archive_dump.py:92-113 | The constructor reads exactly the header its bytes spell, or fails |
| `DumpReader.CustomArchive.SeekTable` | app/services/audit_archive_dump.py:165-180 | The loop over blocks stops at the data the block grammar says |
| `DumpReader.DecompressedStream.Read` | app/services/audit_archive_dump.py:193-206 | Each read returns the next bytes of the block's decompressed data, as many as asked or as are left, and the rest stays to be read |
| `DumpReader.FlattenJoins` | app/services/audit_archive_dump.py:193-206 | Chunks are joined whole and in order |
| `DumpReader.HashingReader.Finish` | app/services/audit_archive_dump.py:84-86 | After finish the bytes hashed are the whole file and size is its length |
| `JsonLimits.DocumentPassesIff` | app/request_limits.py:91-131 | A printed JSON document, whatever its white space, escapes and brackets in strings, passes if and only if its nesting is at most max_depth and its arrays, objects and commas are at most max_values |
| `JsonLimits.PassesIffWithin` | app/request_limits.py:91-131 | Any text passes if and only if, outside its strings, every bracket is within the depth limit and neither openers and commas nor closers outnumber the count limit |
| `JsonLimits.CheckJsonLimits` | app/request_limits.py:91-131 | The scan, whose position moves on in every round, gives the verdict of its brackets and commas in order |
| `JsonLimits.MatchString` | app/request_limits.py:75-77 | The string expression matches up to the first unescaped quote, or not at all |
| `JsonLimits.BodyRest` | app/request_limits.py:75-77 | A well-formed string literal is matched exactly to its closing quote |
| `JsonLimits.SyntaxMeans` | app/request_limits.py:68-90 | The documents the limits are about: arrays between square brackets, objects of named values between braces, commas between two |
| `JsonLimits.StringBodyMeans` | app/request_limits.py:75-77 | String literals, escape by escape |
| `LogQueue.CloudWatchLogsHandler.Drain` | app/logging_config.py:138-160 | With other threads running between its steps: the batch is the next run of accepted records, within both limits, and holds all that were waiting unless a limit was reached, so it is empty only if none were; it is sorted stably by time; every record accepted is in one batch or waiting, and every byte is accounted for |
| `LogQueue.CloudWatchLogsHandler.WhatHolds` | app/logging_config.py:64-160 | At any time, between any steps of any threads: each accepted record is in exactly one batch or waiting, in order; each offered one is accepted, dropped or inside the lock; the count is the waiting bytes but for one record not yet counted; count, queue and batches are within their limits |
| `LogQueue.CloudWatchLogsHandler.Put` | app/logging_config.py:121-125 | A record is put at the end, or dropped from a full queue; the invariant holds before it is counted |
| `LogQueue.CloudWatchLogsHandler.Enter` | app/logging_config.py:104-120 | A record that does not fit the bytes is dropped and counted; offered records are accepted, dropped or inside the lock |
| `LogQueue.CloudWatchLogsHandler.DrainCount` | app/logging_config.py:157-158 | The batch leaves the count and the waiting records, and joins the batches |
| `LogQueue.CloudWatchLogsHandler.Flush` | app/logging_config.py:169-187 | Batches are shipped in order; the first that cannot be sent is lost, counted as a failure and ends the flush; a flush that ends by itself has drained everything accepted before it |
| `LogQueue.ByTimeIsStableSort` | app/logging_config.py:159-160 | The sort orders by timestamp and keeps every record and the order of equal timestamps |
| `MigrationLocks.NoDeadlock` | migrations/env.py:150-187 | In every state of any number of blocking writers and a migration taking its locks, no chain of waits returns to a transaction or is longer than three, and each ends at one that does not wait or whose lock is free |
| `MigrationLocks.EveryoneProceeds` | migrations/env.py:150-187 | Once the migration holds nothing, from any state the portal's transactions can go on until none waits |
| `MigrationLocks.StepKeeps` | app/services/audit_chain.py:90-100 | Every writer step keeps the lock rules and takes nothing from the migration |
| `MigrationLocks.StepMeans` | app/services/audit_chain.py:90-100 | What each step of a transaction gains, waits for and releases, and that it changes nothing of the others |
| `MigrationLocks.Database.TryLocks` | migrations/env.py:150-172 | With writers running between its requests: every lock is held, or none that was not held before and the lock named is in the portal's hands or a table is gone |
| `MigrationLocks.Database.TakeLocks` | migrations/env.py:175-187 | After any number of attempts, all locks are held, or no new one and the last attempt found the named one in use |
| `MigrationLocks.LockPlan` | migrations/env.py:122-147 | The plan is strictly in writer order and holds exactly the existing tables some pending revision declares; the chain lock exactly when one writes audited rows; an unknown revision means every table and the chain |
| `MigrationLocks.AuditLogIsLast` | migrations/env.py:114-119 | audit_log is last in a plan |
| `MigrationLocks.WriterOrderMeans` | migrations/env.py:114-119 | The order of a plan: listed tables by their first place in the list, all before the others, which go by name, and audit_log after everything |
| `MigrationLocks.BeforeIsAnOrder` | migrations/env.py:114-119 | The writer order is a strict total order of table names |
| `ChunkedFiles.SplitThenParse` | app/services/chunked_files.py:126-239 | The round trip: what split wrote is parsed as its own manifest if and only if the manifest is within its size limit, computed from the arguments of the call, and the name does not end in a dot or there is no part; otherwise it is refused |
| `ChunkedFiles.LongNameIsRefused` | app/services/chunked_files.py:135-137 | The round trip fails for a name of 40,000 letters and 32 parts of one byte: split accepts it, its manifest is over the limit |
| `ChunkedFiles.WrittenLengthIs` | app/services/chunked_files.py:229-239 | The manifest split writes has exactly the computed number of bytes |
| `ChunkedFiles.ManifestReadBack` | app/services/chunked_files.py:144-177 | The document split writes describes exactly its own manifest, unless the name ends in a dot and there is a part: then it describes none |
| `ChunkedFiles.TrailingDotIsRefused` | app/services/chunked_files.py:106-111 | The round trip fails for a name ending in a dot: split accepts it, parse_manifest rejects its manifest |
| `ChunkedFiles.ParseManifest` | app/services/chunked_files.py:126-177 | It returns the manifest the document describes by the declared rules, and fails exactly when the file is too large or describes none |
| `ChunkedFiles.SplitFile` | app/services/chunked_files.py:210-239 | It succeeds exactly within its limits; the parts are the consecutive slices of the data, numbered from one, all full but the last |
| `ChunkedFiles.PartCount` | app/services/chunked_files.py:221-227 | There are as many parts as the limit check computed |
| `ChunkedFiles.PartsReassemble` | app/services/chunked_files.py:180-207 | Reading the parts back reassembles the data |
| `ChunkedFiles.ReassembledIsTheData` | app/services/chunked_files.py:180-207 | Whatever read_part answers, a file that reassembles is the data, unless some part's answer is a second preimage of that slice's digest of the same length |
| `ChunkedFiles.Reassemble` | app/services/chunked_files.py:180-207 | It succeeds exactly when every part and the whole match, and never asks for more than the size plus the number of parts |
| `ChunkedFiles.ShortNamesFit` | app/services/chunked_files.py:228-239 | The manifest of a splittable file is within its size limit when the name takes at most 31,000 bytes in JSON |
| `ChunkedFiles.PartNameIsBasename` | app/services/chunked_files.py:101-111 | A part name is a plain file name exactly when the name does not end in a dot |
| `ChunkedFiles.PartNamesDiffer` | app/services/chunked_files.py:101-103 | Parts of a file never overwrite each other: different indices give different names |
| `ChunkedFiles.ManifestTextLength` | app/services/chunked_files.py:229-239 | The computed length is that of the manifest's JSON text, character by character, escapes included |
| `ChunkedFiles.SplittableMeans` | app/services/chunked_files.py:210-220 | What split accepts: a plain file name, and data within its limits |
| `ChunkedFiles.DescribedIsPlain` | app/services/chunked_files.py:106-177 | No accepted manifest, whatever the document, names a file outside its directory or a malformed digest, part or size |
| `RoleGrants.FinalPrivilegesAreExact` | cli/db_cmd.py:429-465 | After all statements the role holds, on the database, the schema and every listed relation, exactly the documented privileges, whatever it held before |
| `RoleGrants.EveryPrefixIsSafe` | cli/db_cmd.py:429-465 | After every prefix of the statements it holds nothing outside its initial and documented privileges, keeps the documented ones it had, and other objects are left alone |
| `RoleGrants.WhatTheRoleHolds` | cli/db_cmd.py:441-465 | For any table, by its name: read always, insert, update and delete only outside the named lists, nothing else |
| `RoleGrants.AppRoleGrants` | cli/db_cmd.py:441-465 | The loop builds, for any relations and version, the statement list the other results are about |

## Left out

- AuditVerify.VerifyChain: negative chunk sizes, which the database refuses, are absent.
- AuditWitness.Bucket.PublishHead: disabling and arming are parameters, bucket configuration and the publication record are absent.
- AuditProtocol.HonestRunsVerify: the report reads the whole bucket and shares one head scan; the arming record and archives whose chain does not verify are not excluded, so the runs are more than the portal makes.
- AuditProtocol.HonestRunKeeps: a publication is a head entry of a row of its generation; retries under later keys are in `AuditWitness.Bucket.PublishHead`.
- AuditProtocol.SealKeeps: an archive name with a final newline, which the name check lets through but no manifest key can hold, is not used; a further version of an archive comes with its own identifier.
- AuditVerify.ReportsFixPayloads: equality is of payload texts, so a null previous hash is told apart from one whose text begins the payload; collisions of SHA-256 and of the 16-character chain id are idealised away.
- AuditWitness.WitnessReport.constructor: the order of foreign chains is left open.
- AuditWitness.CheckOthers: the order of the summaries is left open.
- HeadKeys.KeyPartsMeans: digits are the ten ASCII digits.
- DecisionLog.CheckSession: SHA-256 over canonical lines is idealised as collision-free; versions come in the order received.
- DecisionImports.RunUnreportedIffTraceable: transcripts are parsed entries, metadata other than the path is absent, tool calls stored in an earlier form are not equated, dry runs and the creation race are absent, and one clock stands for transaction time and wall clock.
- DumpReader.DumpRoundTrip: strings are bytes (UTF-8 decoding and column parsing are absent); zlib (RFC 1950) is any decompressor whose output only grows with its input, and its errors are absent.
- DumpReader.LoadTable: column names and types are not parsed, and errors of the decompressor are absent.
- DumpReader.StrInvertsPut: a string is its bytes; undecodable ones are not replaced.
- DumpReader.DecompressedStream.Read: errors of the decompressor are absent.
- JsonLimits.DocumentPassesIff: white space and scalars are any text without brackets, commas and quotes, which includes those of RFC 8259; limits are natural numbers.
- LogQueue.CloudWatchLogsHandler.Flush: the loop is followed for as many calls of the service as are given outcomes; the message is its UTF-8 bytes, and a character cut at the size limit is not dropped from it.
- LogQueue.CloudWatchLogsHandler.Enter: records of the shipping code's own loggers, and records that cannot be formatted, are never offered and are absent.
- MigrationLocks.NoDeadlock: row locks, which are taken only under the chain lock, and lock durations are absent.
- MigrationLocks.Database.TakeLocks: the budget is a number of attempts, not a time.
- ChunkedFiles.ParseManifest: a manifest is its length and the JSON value it decodes to; decoding itself is absent.
- RoleGrants.FinalPrivilegesAreExact: direct privileges only, not those of columns, of PUBLIC or of other roles.
- The 1,000-item and 100-item caps on details, message wording, progress callbacks, `first_break` and head summaries are not modelled.
- boto3, pagination, multipart upload, credentials and SQL text are replaced by maps, sequences and explicit no-access outcomes.
- Flask routes, decorators, admin pages, rate limits, repository verification of decision logs and governance documents would add only easy members.
