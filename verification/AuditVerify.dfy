/** `verify_chain` of `app/services/audit_chain.py` as a whole: the scan, the published heads and the anchor in one
    report, and what a clean report says about every published head. */
module AuditVerify {
  import opened Records
  import opened AuditChain
  import opened ChainIntegrity
  import opened AuditWitness
  import opened AuditArchive

  datatype ChainStatus = Valid | IntactWithForks | NotVerified | Broken

  /** `anchor_verifier`: what `verify_anchor` is called with. */
  datatype Verifier = Verifier(store: Store, bucket: bool, heads: Option<HeadScan>, rehash: bool)

  datatype Cursor = Cursor(afterId: int, expected: Option<Hash>)

  datatype Report =
    | CursorRefused
    | EmptyLog
    | NoHashes
    | Report(status: ChainStatus, slice: Slice, anchor: Option<Anchor>, anchorStatus: Option<Status>,
             lineage: seq<LineageEntry>, checked: nat, otherChain: nat,
             mismatches: nat, invalid: nat, pending: nat)

  function AnchorOf(log: seq<Row>): Option<Anchor> {
    if FindChainStart(log).Some? then FindChainStart(log).value.anchor else None
  }

  /** The head an unverified anchor names: a chain ending there is a continuation not yet verified. */
  function PendingHead(anchor: Option<Anchor>, status: Option<Status>): Option<Hash> {
    if anchor.Some? && status == Some(Unverified) then anchor.value.archivedHead else None
  }

  ghost function VerdictOn(scan: HeadScan, c: ChainId, lineage: seq<LineageEntry>, pending: Option<Hash>): Verdict
    requires InChain(scan.valid, c) != []
  {
    Decide(SummaryOf(scan.valid, c), lineage, pending)
  }

  ghost predicate SomeChain(log: seq<Row>, scan: HeadScan, lineage: seq<LineageEntry>, pending: Option<Hash>, v: Verdict) {
    exists c :: c in Others(scan.valid, ChainIdOf(log)) && InChain(scan.valid, c) != [] &&
                VerdictOn(scan, c, lineage, pending) == v
  }

  /** The chains, other than the log's own, that are decided so. */
  ghost function ChainsDecided(log: seq<Row>, scan: HeadScan, lineage: seq<LineageEntry>, pending: Option<Hash>, v: Verdict): set<ChainId> {
    set c | c in Others(scan.valid, ChainIdOf(log)) && InChain(scan.valid, c) != [] && VerdictOn(scan, c, lineage, pending) == v
  }

  /** The witness contradicts the log: a head of this chain does not match, no head is of this chain, an object is
      invalid, or a published chain is continued by no lineage. */
  ghost predicate WitnessContradicts(log: seq<Row>, scan: HeadScan, lineage: seq<LineageEntry>, pending: Option<Hash>) {
    AllMismatches(log, scan) != [] || scan.invalid != [] || SomeChain(log, scan, lineage, pending, Refused)
  }

  ghost function StatusOf(log: seq<Row>, slice: Slice, heads: Option<HeadScan>, anchorStatus: Option<Status>,
                          lineage: seq<LineageEntry>, pending: Option<Hash>): ChainStatus {
    if slice.altered != [] || slice.breaks != [] || anchorStatus == Some(Failed)
       || (heads.Some? && WitnessContradicts(log, heads.value, lineage, pending)) then Broken
    else if anchorStatus == Some(Unverified) || (heads.Some? && SomeChain(log, heads.value, lineage, pending, Pending)) then
      NotVerified
    else if slice.forks != [] then IntactWithForks
    else Valid
  }

  ghost predicate AnchorVerifies(anchor: Option<Anchor>, verifier: Option<Verifier>) {
    anchor.Some? && verifier.Some? && verifier.value.bucket &&
    HasLineage(verifier.value.store, verifier.value.heads, verifier.value.rehash, anchor.value)
  }

  /** Nobody could look: there is no verifier, no bucket, or a read was refused. */
  ghost predicate AnchorUnverifiable(anchor: Option<Anchor>, verifier: Option<Verifier>) {
    anchor.Some? && (verifier.None? || !verifier.value.bucket ||
                     DeniedWithin(verifier.value.store, verifier.value.heads, verifier.value.rehash, anchor.value, MAX_LINEAGE))
  }

  ghost predicate IsLineageOf(anchor: Option<Anchor>, verifier: Option<Verifier>, lineage: seq<LineageEntry>) {
    exists ms :: anchor.Some? && verifier.Some? && |ms| <= MAX_LINEAGE && lineage == Entries(ms) &&
                 Lineage(verifier.value.store, verifier.value.heads, verifier.value.rehash, anchor.value, ms)
  }

  /** The anchor's part of the report. */
  method CheckAnchor(anchor: Option<Anchor>, verifier: Option<Verifier>)
    returns (status: Option<Status>, lineage: seq<LineageEntry>)
    ensures status.None? <==> anchor.None?
    ensures status == Some(Verified) <==> AnchorVerifies(anchor, verifier)
    ensures status == Some(Unverified) <==> AnchorUnverifiable(anchor, verifier)
    ensures if status == Some(Verified) then IsLineageOf(anchor, verifier, lineage) else lineage == []
  {
    if anchor.None? {
      return None, [];
    }
    if verifier.None? {
      return Some(Unverified), [];
    }
    var v := verifier.value;
    var check := new AnchorCheck();
    ghost var ms := check.VerifyAnchor(v.store, v.bucket, v.heads, v.rehash, anchor.value);
    status, lineage := Some(check.status), check.lineage;
  }

  lemma OthersHaveHeads(scan: HeadScan, ours: Option<ChainId>, c: ChainId)
    requires c in Others(scan.valid, ours)
    ensures InChain(scan.valid, c) != []
  {
    var e :| e in scan.valid && e.key.chain == c;
    assert e in InChain(scan.valid, c);
  }

  /** Chains decided one way are as many as the summaries decided so, each summary being of a different chain. */
  lemma {:induction false} DecidedAreDistinct(v: Verdict, foreign: seq<Foreign>, lineage: seq<LineageEntry>, pending: Option<Hash>)
    requires |Elements(Names(foreign))| == |foreign|
    ensures |Elements(Names(Decided(v, foreign, lineage, pending)))| == |Decided(v, foreign, lineage, pending)|
    decreases |foreign|
  {
    if foreign != [] {
      var most, last := foreign[..|foreign| - 1], foreign[|foreign| - 1];
      var found := Decided(v, most, lineage, pending);
      assert foreign == most + [last];
      assert Decided(v, foreign, lineage, pending) == if Decide(last, lineage, pending) == v then found + [last] else found;
      hide Elements, Names, Decide;
      NamesNext(most, last);
      AtMostNames(most);
      DecidedAreDistinct(v, most, lineage, pending);
      NamesNext(found, last);
      NamesWithin(found, most);
    }
  }

  lemma AtMostNames(foreign: seq<Foreign>)
    ensures |Elements(Names(foreign))| <= |foreign|
  {
    DistinctElements(Names(foreign));
  }

  lemma NamesNext(foreign: seq<Foreign>, f: Foreign)
    ensures Elements(Names(foreign + [f])) == Elements(Names(foreign)) + {f.chain}
  {
    assert Names(foreign + [f]) == Names(foreign) + [f.chain];
  }

  lemma NamesWithin(some: seq<Foreign>, all: seq<Foreign>)
    requires forall f :: f in some ==> f in all
    ensures Elements(Names(some)) <= Elements(Names(all))
  {
    forall c | c in Names(some) ensures c in Names(all) {
      var i :| 0 <= i < |some| && Names(some)[i] == c;
      assert some[i] in all;
      var j :| 0 <= j < |all| && all[j] == some[i];
      assert Names(all)[j] == c;
    }
  }

  lemma DecidedMeans(foreign: seq<Foreign>, log: seq<Row>, scan: HeadScan, lineage: seq<LineageEntry>, pending: Option<Hash>,
                     v: Verdict)
    requires SummarisesOthers(foreign, log, scan)
    ensures |Decided(v, foreign, lineage, pending)| == |ChainsDecided(log, scan, lineage, pending, v)|
    ensures ChainsDecided(log, scan, lineage, pending, v) == {} <==> !SomeChain(log, scan, lineage, pending, v)
  {
    hide InChain, LastOf, Decided;
    var found, chains := Decided(v, foreign, lineage, pending), ChainsDecided(log, scan, lineage, pending, v);
    DecidedAreDistinct(v, foreign, lineage, pending);
    forall c
      ensures c in chains <==> c in Elements(Names(found))
    {
      if c in Names(found) {
        var j :| 0 <= j < |found| && Names(found)[j] == c;
        assert found[j] in foreign;
        var i :| 0 <= i < |foreign| && foreign[i] == found[j];
        assert Names(foreign)[i] == c;
        assert c in Elements(Names(foreign));
      }
      if c in chains {
        assert c in Elements(Names(foreign));
        var i :| 0 <= i < |foreign| && Names(foreign)[i] == c;
        assert foreign[i] in found;
        var j :| 0 <= j < |found| && found[j] == foreign[i];
        assert Names(found)[j] == c;
      }
    }
    assert chains == Elements(Names(found));
    SomeChainMeans(log, scan, lineage, pending, v);
  }

  lemma SomeChainMeans(log: seq<Row>, scan: HeadScan, lineage: seq<LineageEntry>, pending: Option<Hash>, v: Verdict)
    ensures ChainsDecided(log, scan, lineage, pending, v) == {} <==> !SomeChain(log, scan, lineage, pending, v)
  {
    if SomeChain(log, scan, lineage, pending, v) {
      var c :| c in Others(scan.valid, ChainIdOf(log)) && InChain(scan.valid, c) != [] && VerdictOn(scan, c, lineage, pending) == v;
      assert c in ChainsDecided(log, scan, lineage, pending, v);
    }
  }

  /** The witness' part of the report. */
  method CheckWitness(log: seq<Row>, scan: HeadScan, lineage: seq<LineageEntry>, pending: Option<Hash>)
    returns (checked: nat, otherChain: nat, mismatches: nat, invalid: nat, waiting: nat)
    ensures checked == |CurrentHeads(log, scan)| && checked + otherChain == |scan.valid| && invalid == |scan.invalid|
    ensures mismatches == |AllMismatches(log, scan)| + |ChainsDecided(log, scan, lineage, pending, Refused)|
    ensures waiting == |ChainsDecided(log, scan, lineage, pending, Pending)|
    ensures mismatches > 0 <==> AllMismatches(log, scan) != [] || SomeChain(log, scan, lineage, pending, Refused)
    ensures waiting > 0 <==> SomeChain(log, scan, lineage, pending, Pending)
  {
    hide AllMismatches, SomeChain, SummarisesOthers, ChainsDecided;
    var report := new WitnessReport(log, scan);
    DecidedMeans(report.foreign, log, scan, lineage, pending, Refused);
    DecidedMeans(report.foreign, log, scan, lineage, pending, Pending);
    report.ResolveForeignChains(lineage, pending);
    return report.checked, report.otherChain, |report.mismatches|, |report.invalid|, |report.unverified|;
  }

  /** What a call reads. A chunk size of 0 reads nothing, and calls that complete unless the row limit is 0 too. */
  ghost function SliceRead(log: seq<Row>, afterId: int, expected: Option<Hash>, maxRows: Option<int>, chunkSize: nat): Slice {
    if chunkSize > 0 then SliceOf(log, afterId, expected, maxRows)
    else SliceOf(log, afterId, expected, Some(0)).(complete := After(log, afterId) == [] || maxRows.None? || maxRows.value > 0)
  }

  /** The scan's part of the report. */
  method CheckRows(log: seq<Row>, afterId: int, expected: Option<Hash>, maxRows: Option<int>, chunkSize: nat)
    returns (slice: Slice)
    requires Sorted(log)
    ensures slice == SliceRead(log, afterId, expected, maxRows, chunkSize)
  {
    hide ScanOf, After, Forks, Breaks;
    var s, complete := ScanLog(log, afterId, expected, maxRows, chunkSize);
    var forks, breaks := ClassifyLinks(log, s.candidates);
    slice := Slice(s.verified, s.altered, forks, breaks, s.lastId, s.expected, complete);
  }

  /** Where a call without a cursor starts. */
  function StartCursor(log: seq<Row>): Cursor {
    if FindChainStart(log).None? then Cursor(0, None)
    else Cursor(FindChainStart(log).value.afterId, FindChainStart(log).value.expected)
  }

  /** What a report about a log says. */
  ghost predicate ReportOn(log: seq<Row>, start: Cursor, maxRows: Option<int>, heads: Option<HeadScan>,
                           verifier: Option<Verifier>, r: Report)
    requires r.Report?
  {
    ReportOf(log, SliceOf(log, start.afterId, start.expected, maxRows), heads, verifier, r)
  }

  /** What a report says, given what was read of the log. */
  ghost predicate ReportOf(log: seq<Row>, slice: Slice, heads: Option<HeadScan>, verifier: Option<Verifier>, r: Report)
    requires r.Report?
  {
    && r.slice == slice
    && r.anchor == AnchorOf(log) && (r.anchorStatus.None? <==> r.anchor.None?)
    && (r.anchorStatus == Some(Verified) <==> AnchorVerifies(r.anchor, verifier))
    && (r.anchorStatus == Some(Unverified) <==> AnchorUnverifiable(r.anchor, verifier))
    && (if r.anchorStatus == Some(Verified) then IsLineageOf(r.anchor, verifier, r.lineage) else r.lineage == [])
    && r.status == StatusOf(log, r.slice, heads, r.anchorStatus, r.lineage, PendingHead(r.anchor, r.anchorStatus))
    && WitnessCounts(log, heads, r)
  }

  /** The witness counts of a report: heads compared and left to other chains, mismatches (of heads, and one for every
      refused chain), invalid objects, and chains whose continuation is not yet verified. */
  ghost predicate WitnessCounts(log: seq<Row>, heads: Option<HeadScan>, r: Report)
    requires r.Report?
  {
    var pending := PendingHead(r.anchor, r.anchorStatus);
    if heads.None? then r.checked == r.otherChain == r.mismatches == r.invalid == r.pending == 0
    else
      && r.checked == |CurrentHeads(log, heads.value)| && r.checked + r.otherChain == |heads.value.valid|
      && r.mismatches == |AllMismatches(log, heads.value)| + |ChainsDecided(log, heads.value, r.lineage, pending, Refused)|
      && r.invalid == |heads.value.invalid| && r.pending == |ChainsDecided(log, heads.value, r.lineage, pending, Pending)|
  }

  /** `verify_chain` once it knows where to start. */
  method VerifyFrom(log: seq<Row>, start: Cursor, maxRows: Option<int>, chunkSize: nat, heads: Option<HeadScan>,
                    verifier: Option<Verifier>) returns (r: Report)
    requires Sorted(log)
    ensures r.Report? && ReportOf(log, SliceRead(log, start.afterId, start.expected, maxRows, chunkSize), heads, verifier, r)
  {
    hide SliceRead, AnchorOf, SomeChain, ChainsDecided, AllMismatches, IsLineageOf, AnchorVerifies, AnchorUnverifiable, CurrentHeads;
    var slice := CheckRows(log, start.afterId, start.expected, maxRows, chunkSize);
    var anchor := AnchorOf(log);
    var anchorStatus, lineage := CheckAnchor(anchor, verifier);
    var pending := PendingHead(anchor, anchorStatus);
    var checked, otherChain, mismatches, invalid, waiting := 0, 0, 0, 0, 0;
    if heads.Some? {
      checked, otherChain, mismatches, invalid, waiting := CheckWitness(log, heads.value, lineage, pending);
    }
    assert anchorStatus.Some? ==> anchorStatus.value.Verified? || anchorStatus.value.Failed? || anchorStatus.value.Unverified?;
    var broken := slice.altered != [] || slice.breaks != [] || mismatches > 0 || invalid > 0 || anchorStatus == Some(Failed);
    var unverified := (anchorStatus.Some? && anchorStatus != Some(Verified)) || waiting > 0;
    var status := if broken then Broken
                  else if unverified then NotVerified
                  else if slice.forks != [] then IntactWithForks else Valid;
    r := Report.Report(status, slice, anchor, anchorStatus, lineage, checked, otherChain, mismatches, invalid, waiting);
  }

  /** `verify_chain`. */
  method VerifyChain(log: seq<Row>, cursor: Option<Cursor>, maxRows: Option<int>, chunkSize: nat,
                     heads: Option<HeadScan>, verifier: Option<Verifier>) returns (r: Report)
    requires Sorted(log)
    ensures r.CursorRefused? <==> cursor.Some? && !CursorAccepted(cursor.value.expected)
    ensures r.EmptyLog? <==> cursor.None? && log == []
    ensures r.NoHashes? <==> cursor.None? && log != [] && !HasChain(log)
    ensures r.Report? ==>
              var start := if cursor.Some? then cursor.value else StartCursor(log);
              && ReportOf(log, SliceRead(log, start.afterId, start.expected, maxRows, chunkSize), heads, verifier, r)
              && (chunkSize > 0 ==> ReportOn(log, start, maxRows, heads, verifier, r))
  {
    hide ReportOf;
    var start := FindChainStart(log);
    if cursor.None? && start.None? {
      return EmptyLog;
    }
    if cursor.None? && start.value.unhashed == -1 {
      return NoHashes;
    }
    if cursor.Some? && !CursorAccepted(cursor.value.expected) {
      return CursorRefused;
    }
    r := VerifyFrom(log, if cursor.Some? then cursor.value else StartCursor(log), maxRows, chunkSize, heads, verifier);
  }

  // ----- every published head is accounted for -----

  /** The head is a row of the log, or lies in a chain of the lineage, not after that chain's final row and equal to it
      when it is that row. */
  ghost predicate AccountedFor(log: seq<Row>, lineage: seq<LineageEntry>, e: Entry) {
    || (ChainIdOf(log) == Some(e.key.chain) && HeadMatches(log, e))
    || exists m :: m in lineage && m.chain == e.key.chain && e.head.id <= m.finalId &&
                   (e.head.id == m.finalId ==> e.head.rowHash == m.finalHash)
  }

  /** Every manifest of a lineage was checked against the published heads. */
  lemma {:induction false} LineageHeadsChecked(store: Store, scan: HeadScan, rehash: bool, a: Anchor, ms: seq<Manifest>, i: nat)
    requires Lineage(store, Some(scan), rehash, a, ms) && i < |ms|
    ensures FinalHeadPublished(scan, ms[i])
    decreases |ms|
  {
    if i > 0 {
      LineageHeadsChecked(store, scan, rehash, ms[0].source.value, ms[1..], i - 1);
    }
  }

  lemma ForeignHeadAccounted(log: seq<Row>, scan: HeadScan, lineage: seq<LineageEntry>, e: Entry, ms: seq<Manifest>,
                             store: Store, rehash: bool, a: Anchor)
    requires e in scan.valid && ChainIdOf(log) != Some(e.key.chain)
    requires !SomeChain(log, scan, lineage, None, Refused) && !SomeChain(log, scan, lineage, None, Pending)
    requires lineage == Entries(ms) && (ms == [] || Lineage(store, Some(scan), rehash, a, ms))
    ensures AccountedFor(log, lineage, e)
  {
    var c := e.key.chain;
    assert e in InChain(scan.valid, c);
    assert c in Others(scan.valid, ChainIdOf(log));
    assert VerdictOn(scan, c, lineage, None) == Continued;
    var f := SummaryOf(scan.valid, c);
    var i :| 0 <= i < |lineage| && lineage[i] == LineageEntry(c, f.lastId, f.lastHash);
    assert lineage[i] == EntryOf(ms[i]);
    LineageHeadsChecked(store, scan, rehash, a, ms, i);
  }

  /** With one shared head scan, a report that is `valid` or `intact_with_forks` accounts for every published head: it
      matches a row of this log, or belongs to an archived chain of the verified lineage, no later than its final row. */
  lemma CleanReportAccountsForHeads(log: seq<Row>, start: Cursor, maxRows: Option<int>, scan: HeadScan,
                                    verifier: Option<Verifier>, r: Report)
    requires verifier.Some? ==> verifier.value.heads == Some(scan)
    requires r.Report? && ReportOn(log, start, maxRows, Some(scan), verifier, r)
    requires r.status == Valid || r.status == IntactWithForks
    ensures forall e :: e in scan.valid ==> AccountedFor(log, r.lineage, e)
  {
    assert PendingHead(r.anchor, r.anchorStatus) == None;
    hide WitnessCounts, AnchorUnverifiable, SliceOf;
    NoMismatch(log, CurrentHeads(log, scan));
    forall e | e in scan.valid ensures AccountedFor(log, r.lineage, e) {
      if ChainIdOf(log) == Some(e.key.chain) {
        assert e in CurrentHeads(log, scan);
      } else if r.anchorStatus == Some(Verified) {
        var ms :| r.anchor.Some? && verifier.Some? && |ms| <= MAX_LINEAGE && r.lineage == Entries(ms) &&
                  Lineage(verifier.value.store, verifier.value.heads, verifier.value.rehash, r.anchor.value, ms);
        ForeignHeadAccounted(log, scan, r.lineage, e, ms, verifier.value.store, verifier.value.rehash, r.anchor.value);
      } else {
        OthersHaveHeads(scan, ChainIdOf(log), e.key.chain);
        ghost var verdict := VerdictOn(scan, e.key.chain, r.lineage, None);
        assert false;
      }
    }
  }

  // ----- tamper evidence, from reports to payloads -----

  lemma FullSliceMeans(log: seq<Row>)
    requires Sorted(log) && HasChain(log)
    ensures var slice := SliceOf(log, StartCursor(log).afterId, StartCursor(log).expected, None);
            && (slice.altered == [] && slice.breaks == [] <==> Intact(log))
            && (Intact(log) ==> (slice.forks == [] <==> Unforked(log)))
  {
    StartsAtIndex(log);
  }

  lemma CountsMean(log: seq<Row>, heads: Option<HeadScan>, r: Report)
    requires r.Report? && WitnessCounts(log, heads, r)
    ensures var pending := PendingHead(r.anchor, r.anchorStatus);
            && (r.mismatches > 0 || r.invalid > 0 <==> heads.Some? && WitnessContradicts(log, heads.value, r.lineage, pending))
            && (r.pending > 0 <==> heads.Some? && SomeChain(log, heads.value, r.lineage, pending, Pending))
  {
    hide SomeChain, AllMismatches, ChainsDecided, CurrentHeads;
    if heads.Some? {
      var pending := PendingHead(r.anchor, r.anchorStatus);
      SomeChainMeans(log, heads.value, r.lineage, pending, Refused);
      SomeChainMeans(log, heads.value, r.lineage, pending, Pending);
    }
  }

  /** Which status a report gives, from what it counts: `broken` for an altered row or a true break, a mismatch, an
      invalid object or a failed anchor; otherwise not verified for an anchor or a chain nobody could look at; otherwise
      `valid` exactly without forks. */
  lemma StatusMeans(log: seq<Row>, slice: Slice, heads: Option<HeadScan>, verifier: Option<Verifier>, r: Report)
    requires r.Report? && ReportOf(log, slice, heads, verifier, r)
    ensures r.status == Broken <==>
            slice.altered != [] || slice.breaks != [] || r.mismatches > 0 || r.invalid > 0 || r.anchorStatus == Some(Failed)
    ensures r.status == NotVerified <==> r.status != Broken && (r.anchorStatus == Some(Unverified) || r.pending > 0)
    ensures r.status == Valid <==> r.status != Broken && r.status != NotVerified && slice.forks == []
  {
    hide AnchorVerifies, AnchorUnverifiable, IsLineageOf, SomeChain, WitnessCounts, WitnessContradicts;
    CountsMean(log, heads, r);
  }

  /** Read to the end, the log itself decides. */
  lemma FullStatusMeans(log: seq<Row>, heads: Option<HeadScan>, verifier: Option<Verifier>, r: Report)
    requires Sorted(log) && HasChain(log) && r.Report? && ReportOn(log, StartCursor(log), None, heads, verifier, r)
    ensures r.status == Broken <==> !Intact(log) || r.mismatches > 0 || r.invalid > 0 || r.anchorStatus == Some(Failed)
    ensures r.status == Valid <==> r.status != Broken && r.status != NotVerified && Unforked(log)
    ensures r.status != Broken && r.slice.forks == [] ==> Unforked(log)
  {
    hide ReportOf, SliceOf, StartCursor, Intact, Unforked;
    FullSliceMeans(log);
    StatusMeans(log, SliceOf(log, StartCursor(log).afterId, StartCursor(log).expected, None), heads, verifier, r);
    assert r.slice == SliceOf(log, StartCursor(log).afterId, StartCursor(log).expected, None) by { SliceIs(log, heads, verifier, r); }
  }

  lemma SliceIs(log: seq<Row>, heads: Option<HeadScan>, verifier: Option<Verifier>, r: Report)
    requires r.Report? && ReportOn(log, StartCursor(log), None, heads, verifier, r)
    ensures r.slice == SliceOf(log, StartCursor(log).afterId, StartCursor(log).expected, None)
  {
    hide WitnessCounts, StatusOf;
  }

  lemma {:induction false} StoredAt(log: seq<Row>, id: int) returns (k: nat)
    requires StoredHash(log, id).Some?
    ensures k < |log| && log[k].id == id && log[k].rowHash == StoredHash(log, id)
  {
    if log[0].id == id {
      k := 0;
    } else {
      k := StoredAt(log[1..], id);
      k := k + 1;
    }
  }

  /** Where the row of a matching head is. */
  lemma MatchingRow(log: seq<Row>, e: Entry) returns (k: nat)
    requires Sorted(log) && HasChain(log) && HeadMatches(log, e)
    ensures StartIndex(log) <= k < |log| && k == Position(log, e.head.id) - 1
    ensures log[k].id == e.head.id && log[k].rowHash == Some(e.head.rowHash)
  {
    k := StoredAt(log, e.head.id);
    PositionIs(log, e.head.id, k + 1);
    assert FirstHashed(log) <= k;
  }

  /** The payloads from the start of the chain through the row with the id. */
  ghost function PayloadsThrough(log: seq<Row>, id: int): seq<string>
    requires log != []
  {
    if StartIndex(log) <= Position(log, id) then PayloadsOf(log[StartIndex(log)..Position(log, id)]) else []
  }

  lemma HeadMatchesInReport(log: seq<Row>, scan: HeadScan, verifier: Option<Verifier>, r: Report, e: Entry)
    requires r.Report? && ReportOn(log, StartCursor(log), None, Some(scan), verifier, r) && r.status != Broken
    requires e in scan.valid && ChainIdOf(log) == Some(e.key.chain)
    ensures HeadMatches(log, e)
  {
    hide WitnessCounts, AnchorVerifies, AnchorUnverifiable, IsLineageOf, SliceOf, SomeChain;
    NoMismatch(log, CurrentHeads(log, scan));
    assert e in CurrentHeads(log, scan);
  }

  /** Tamper evidence, end to end. A head was published from a log whose full report is not `broken` and lists no fork; any
      later log of the same chain whose full report, with the head among those read, says the same holds the head's row and,
      from the start of the chain through it, exactly the first log's payloads. So if those differ the report is `broken`
      or lists a fork. */
  lemma ReportsFixPayloads(log0: seq<Row>, heads0: Option<HeadScan>, verifier0: Option<Verifier>, r0: Report,
                           log1: seq<Row>, scan: HeadScan, verifier1: Option<Verifier>, r1: Report, e: Entry)
    requires Sorted(log0) && HasChain(log0) && Sorted(log1) && HasChain(log1)
    requires r0.Report? && ReportOn(log0, StartCursor(log0), None, heads0, verifier0, r0)
    requires r1.Report? && ReportOn(log1, StartCursor(log1), None, Some(scan), verifier1, r1)
    requires r0.status != Broken && r0.slice.forks == [] && r1.status != Broken && r1.slice.forks == []
    requires ChainIdOf(log0) == ChainIdOf(log1) == Some(e.key.chain) && HeadMatches(log0, e) && e in scan.valid
    ensures HeadMatches(log1, e) && PayloadsThrough(log0, e.head.id) == PayloadsThrough(log1, e.head.id)
  {
    FullStatusMeans(log0, heads0, verifier0, r0);
    FullStatusMeans(log1, Some(scan), verifier1, r1);
    HeadMatchesInReport(log1, scan, verifier1, r1, e);
    hide ReportOn, Unforked, HeadMatches;
    var k0 := MatchingRow(log0, e);
    var k1 := MatchingRow(log1, e);
    PublishedPrefixIsFixed(log0, k0, log1, k1);
  }

  /** With forks, the head fixes the payloads along its row's whole ancestor path: if those differ, the report is
      `broken`. */
  lemma ReportsFixAncestry(log0: seq<Row>, heads0: Option<HeadScan>, verifier0: Option<Verifier>, r0: Report,
                           log1: seq<Row>, scan: HeadScan, verifier1: Option<Verifier>, r1: Report, e: Entry)
      returns (k0: nat, k1: nat)
    requires Sorted(log0) && HasChain(log0) && Sorted(log1) && HasChain(log1)
    requires r0.Report? && ReportOn(log0, StartCursor(log0), None, heads0, verifier0, r0) && r0.status != Broken
    requires r1.Report? && ReportOn(log1, StartCursor(log1), None, Some(scan), verifier1, r1) && r1.status != Broken
    requires ChainIdOf(log0) == ChainIdOf(log1) == Some(e.key.chain) && HeadMatches(log0, e) && e in scan.valid
    ensures StartIndex(log0) <= k0 < |log0| && log0[k0].id == e.head.id && log0[k0].rowHash == Some(e.head.rowHash)
    ensures StartIndex(log1) <= k1 < |log1| && log1[k1].id == e.head.id && log1[k1].rowHash == Some(e.head.rowHash)
    ensures Grounded(log0) && Grounded(log1)
    ensures Payloads(log0, AncestorPath(log0, k0)) == Payloads(log1, AncestorPath(log1, k1))
  {
    FullStatusMeans(log0, heads0, verifier0, r0);
    FullStatusMeans(log1, Some(scan), verifier1, r1);
    HeadMatchesInReport(log1, scan, verifier1, r1, e);
    hide ReportOn, Intact, HeadMatches, Grounded;
    k0 := MatchingRow(log0, e);
    k1 := MatchingRow(log1, e);
    AncestryIsFixed(log0, k0, log1, k1);
  }
}
