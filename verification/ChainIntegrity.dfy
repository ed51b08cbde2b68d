/** What a scan without content mismatches and true breaks proves about an arbitrary log, and how the
    findings of resumed slices add up. */
module ChainIntegrity {
  import opened Records
  import opened AuditChain

  function Expected0(log: seq<Row>): Option<Hash> {
    if log != [] && log[0].details.Some? then log[0].previous else Some(Genesis)
  }

  /** A full scan reports no content mismatch and no true break (`valid` or `intact_with_forks`). */
  ghost predicate Intact(log: seq<Row>) {
    && Sorted(log) && HasChain(log)
    && var rows := log[StartIndex(log)..];
    && Altered(rows) == []
    && Breaks(log, Mislinked(Expected0(log), rows)) == []
  }

  /** No forks either (`valid`, once the anchor and the witness agree). */
  ghost predicate Unforked(log: seq<Row>) {
    && Intact(log)
    && Forks(log, Mislinked(Expected0(log), log[StartIndex(log)..])) == []
  }

  // ----- the same, row by row -----

  /** What the row is expected to link to when every row before it is hashed. */
  ghost function Predecessor(log: seq<Row>, k: nat): Option<Hash>
    requires k < |log|
  {
    if k == StartIndex(log) then Expected0(log) else if k > 0 then log[k - 1].rowHash else None
  }

  ghost predicate HasParent(log: seq<Row>, k: nat)
    requires k < |log|
  {
    exists j :: StartIndex(log) <= j < k && log[j].rowHash == log[k].previous
  }

  /** The row was written after the first serialized one. */
  predicate Late(log: seq<Row>, k: nat)
    requires k < |log|
  {
    FirstSerialized(log).Some? && log[k].id > FirstSerialized(log).value
  }

  /** The row carries the hash of its own content, and links to its predecessor or, written before writes were
      serialized, to a root or to an earlier row of the chain. */
  ghost predicate Attached(log: seq<Row>, k: nat)
    requires k < |log|
  {
    var row := log[k];
    && row.rowHash == Some(Recompute(row))
    && (row.previous == Predecessor(log, k) ||
        (!Late(log, k) && Truthy(row.previous) && (row.previous.value in Roots(log) || HasParent(log, k))))
  }

  ghost predicate Grounded(log: seq<Row>) {
    && Sorted(log) && HasChain(log)
    && forall k :: StartIndex(log) <= k < |log| ==> Attached(log, k)
  }

  ghost predicate Straight(log: seq<Row>) {
    Grounded(log) && forall k :: StartIndex(log) <= k < |log| ==> log[k].previous == Predecessor(log, k)
  }

  /** Candidates of the rows from `n` on. */
  ghost function CandidatesFrom(log: seq<Row>, n: nat): seq<Candidate>
    requires log != [] && StartIndex(log) <= n <= |log|
  {
    Mislinked(if n < |log| then Predecessor(log, n) else None, log[n..])
  }

  lemma CandidatesStep(log: seq<Row>, n: nat)
    requires HasChain(log) && StartIndex(log) <= n < |log|
    requires log[n].rowHash == Some(Recompute(log[n]))
    ensures var tail := CandidatesFrom(log, n + 1);
      if log[n].previous == Predecessor(log, n) then CandidatesFrom(log, n) == tail
      else CandidatesFrom(log, n) != [] && CandidatesFrom(log, n)[0] == CandidateOf(log[n]) && CandidatesFrom(log, n)[1..] == tail
  {
    var rows := log[n..];
    assert rows[0] == log[n] && rows[1..] == log[n + 1..];
    var tail := Mislinked(log[n].rowHash, log[n + 1..]);
    if n + 1 == |log| {
      assert log[n + 1..] == [];
    }
    assert [] + tail == tail;
    assert ([CandidateOf(log[n])] + tail)[1..] == tail;
  }

  /** A mislinked row is no true break exactly when it is early and links to a root or to an earlier row. */
  lemma ForkMeans(log: seq<Row>, n: nat)
    requires Sorted(log) && HasChain(log) && StartIndex(log) <= n < |log|
    requires log[n].rowHash == Some(Recompute(log[n]))
    ensures IsFork(log, CandidateOf(log[n])) <==>
            !Late(log, n) && Truthy(log[n].previous) && (log[n].previous.value in Roots(log) || HasParent(log, n))
  {
    var previous := log[n].previous;
    if Truthy(previous) {
      if HeldBefore(log, previous.value, log[n].id) {
        var j :| 0 <= j < |log| && log[j].rowHash == Some(previous.value) && log[j].id < log[n].id;
        assert j < n && StartIndex(log) <= j;
      }
      if HasParent(log, n) {
        var j :| StartIndex(log) <= j < n && log[j].rowHash == previous;
        assert log[j].id < log[n].id;
      }
    }
  }

  lemma {:induction false} IntactFrom(log: seq<Row>, n: nat)
    requires Sorted(log) && HasChain(log) && StartIndex(log) <= n <= |log|
    ensures (Altered(log[n..]) == [] && Breaks(log, CandidatesFrom(log, n)) == []) <==>
            forall k :: n <= k < |log| ==> Attached(log, k)
    decreases |log| - n
  {
    if n < |log| {
      IntactFrom(log, n + 1);
      var row, rows := log[n], log[n..];
      assert rows[0] == row && rows[1..] == log[n + 1..];
      if row.rowHash == Some(Recompute(row)) {
        CandidatesStep(log, n);
        ForkMeans(log, n);
        assert Altered(rows) == [] + Altered(rows[1..]) == Altered(rows[1..]);
        assert (Breaks(log, CandidatesFrom(log, n)) == []) <==> Attached(log, n) && Breaks(log, CandidatesFrom(log, n + 1)) == [];
      } else {
        assert !Attached(log, n);
        UnhashedBreaks(log, n);
      }
    } else {
      assert log[n..] == [];
    }
  }

  lemma UnhashedBreaks(log: seq<Row>, n: nat)
    requires HasChain(log) && StartIndex(log) <= n < |log|
    requires log[n].rowHash != Some(Recompute(log[n]))
    ensures Altered(log[n..]) != [] || Breaks(log, CandidatesFrom(log, n)) != []
  {
    var rows := log[n..];
    assert rows[0] == log[n];
    if log[n].rowHash.None? {
      var tail := Mislinked(Next(Predecessor(log, n), log[n]), rows[1..]);
      var all := [CandidateOf(log[n])] + tail;
      assert all[0] == CandidateOf(log[n]);
      assert !IsFork(log, all[0]);
    }
  }

  /** The report's counts read row by row: no content mismatch and no true break is exactly `Grounded`. */
  lemma IntactMeans(log: seq<Row>)
    requires Sorted(log) && HasChain(log)
    ensures Intact(log) <==> Grounded(log)
  {
    IntactFrom(log, StartIndex(log));
  }

  lemma {:induction false} UnforkedFrom(log: seq<Row>, n: nat)
    requires Grounded(log) && StartIndex(log) <= n <= |log|
    ensures Forks(log, CandidatesFrom(log, n)) == [] <==>
            forall k :: n <= k < |log| ==> log[k].previous == Predecessor(log, k)
    decreases |log| - n
  {
    if n < |log| {
      UnforkedFrom(log, n + 1);
      assert Attached(log, n);
      CandidatesStep(log, n);
      ForkMeans(log, n);
    } else {
      assert log[n..] == [];
    }
  }

  /** And no fork either is exactly `Straight`: every row links to its predecessor. */
  lemma UnforkedMeans(log: seq<Row>)
    requires Sorted(log) && HasChain(log)
    ensures Unforked(log) <==> Straight(log)
  {
    IntactMeans(log);
    if Grounded(log) {
      UnforkedFrom(log, StartIndex(log));
    }
  }

  // ----- ancestry -----

  /** What a chain may start from: genesis, or the archived head its ANCHOR row records. */
  ghost predicate IsRoot(log: seq<Row>, previous: Option<Hash>) {
    previous == Some(Genesis) || previous == Expected0(log)
  }

  /** A row holding the hash row `k` links to. */
  ghost function Parent(log: seq<Row>, k: nat): (j: nat)
    requires Grounded(log) && StartIndex(log) <= k < |log| && !IsRoot(log, log[k].previous)
    ensures StartIndex(log) <= j < k && log[j].rowHash == log[k].previous
  {
    assert Attached(log, k);
    assert log[k].previous == Predecessor(log, k) ==> HasParent(log, k);
    var j :| StartIndex(log) <= j < k && log[j].rowHash == log[k].previous;
    j
  }

  /** Row indices from a root to row `k`, following `previous_hash` backwards. */
  ghost function AncestorPath(log: seq<Row>, k: nat): (path: seq<nat>)
    requires Grounded(log) && StartIndex(log) <= k < |log|
    ensures path != [] && path[|path| - 1] == k
    ensures forall i :: 0 <= i < |path| ==> StartIndex(log) <= path[i] <= k
    decreases k
  {
    if IsRoot(log, log[k].previous) then [k] else AncestorPath(log, Parent(log, k)) + [k]
  }

  ghost predicate LinkedPath(log: seq<Row>, path: seq<nat>) {
    && path != [] && (forall i :: 0 <= i < |path| ==> path[i] < |log|)
    && IsRoot(log, log[path[0]].previous)
    && (forall i :: 0 < i < |path| ==>
          log[path[i]].previous == log[path[i - 1]].rowHash && log[path[i - 1]].id < log[path[i]].id)
  }

  /** Following `previous_hash` from any row of an intact log strictly decreases the id and ends at a row that links
      to genesis or to the anchored head. */
  lemma {:induction false} AncestryIsWellFounded(log: seq<Row>, k: nat)
    requires Intact(log) && StartIndex(log) <= k < |log|
    ensures Grounded(log) && LinkedPath(log, AncestorPath(log, k))
    decreases k
  {
    IntactMeans(log);
    if !IsRoot(log, log[k].previous) {
      AncestryIsWellFounded(log, Parent(log, k));
    }
  }

  function Payloads(log: seq<Row>, path: seq<nat>): seq<string>
    requires forall i :: 0 <= i < |path| ==> path[i] < |log|
  {
    seq(|path|, i requires 0 <= i < |path| => log[path[i]].payload)
  }

  /** The first row hash of the chain names the chain (`chain_id`). */
  function ChainIdOf(log: seq<Row>): Option<ChainId> {
    if FirstHashed(log) < |log| && Truthy(log[FirstHashed(log)].rowHash) then log[FirstHashed(log)].rowHash else None
  }

  /** The first row of an intact chain links to exactly the hash the chain continues. */
  lemma FirstRow(log: seq<Row>)
    requires Grounded(log)
    ensures StartIndex(log) < |log| && StartIndex(log) == FirstHashed(log)
    ensures log[StartIndex(log)].previous == Expected0(log)
    ensures ChainIdOf(log) == log[StartIndex(log)].rowHash == Some(Sha256(Expected0(log), log[StartIndex(log)].payload))
  {
    assert Attached(log, StartIndex(log));
  }

  lemma SameRoots(log0: seq<Row>, log1: seq<Row>)
    requires Grounded(log0) && Grounded(log1) && ChainIdOf(log0) == ChainIdOf(log1)
    ensures Expected0(log0) == Expected0(log1)
  {
    FirstRow(log0);
    FirstRow(log1);
  }

  lemma {:induction false} PathIsFixed(log0: seq<Row>, k0: nat, log1: seq<Row>, k1: nat)
    requires Grounded(log0) && Grounded(log1) && Expected0(log0) == Expected0(log1)
    requires StartIndex(log0) <= k0 < |log0| && StartIndex(log1) <= k1 < |log1|
    requires log0[k0].rowHash == log1[k1].rowHash
    ensures Payloads(log0, AncestorPath(log0, k0)) == Payloads(log1, AncestorPath(log1, k1))
    decreases k0
  {
    assert Attached(log0, k0) && Attached(log1, k1);
    if !IsRoot(log0, log0[k0].previous) {
      var j0, j1 := Parent(log0, k0), Parent(log1, k1);
      PathIsFixed(log0, j0, log1, j1);
      PayloadsAppend(log0, AncestorPath(log0, j0), k0);
      PayloadsAppend(log1, AncestorPath(log1, j1), k1);
    }
  }

  lemma PayloadsAppend(log: seq<Row>, path: seq<nat>, k: nat)
    requires k < |log| && forall i :: 0 <= i < |path| ==> path[i] < |log|
    ensures Payloads(log, path + [k]) == Payloads(log, path) + [log[k].payload]
  {
  }

  /** Tamper evidence with forks. The whole ancestor path of a row is fixed by its hash: two intact logs of the
      same chain that both hold the hash hold the same payloads along its path, in the same order. */
  lemma AncestryIsFixed(log0: seq<Row>, k0: nat, log1: seq<Row>, k1: nat)
    requires Intact(log0) && Intact(log1) && ChainIdOf(log0) == ChainIdOf(log1)
    requires StartIndex(log0) <= k0 < |log0| && StartIndex(log1) <= k1 < |log1|
    requires log0[k0].rowHash == log1[k1].rowHash
    ensures Grounded(log0) && Grounded(log1)
    ensures Payloads(log0, AncestorPath(log0, k0)) == Payloads(log1, AncestorPath(log1, k1))
  {
    IntactMeans(log0);
    IntactMeans(log1);
    SameRoots(log0, log1);
    PathIsFixed(log0, k0, log1, k1);
  }

  // ----- tamper evidence for a chain without forks -----

  function PayloadsOf(rows: seq<Row>): seq<string> {
    seq(|rows|, i requires 0 <= i < |rows| => rows[i].payload)
  }

  ghost predicate ChainedAt(rows: seq<Row>, expected: Option<Hash>, i: nat)
    requires i < |rows|
  {
    rows[i].rowHash == Some(Sha256(if i == 0 then expected else rows[i - 1].rowHash, rows[i].payload))
  }

  /** Rows each hashed over the row before them, the first over `expected`. */
  ghost predicate Chained(rows: seq<Row>, expected: Option<Hash>) {
    forall i :: 0 <= i < |rows| ==> ChainedAt(rows, expected, i)
  }

  lemma ChainedPrefix(rows: seq<Row>, n: nat, expected: Option<Hash>)
    requires Chained(rows, expected) && n <= |rows|
    ensures Chained(rows[..n], expected)
  {
    forall i | 0 <= i < n ensures ChainedAt(rows[..n], expected, i) {
      assert ChainedAt(rows, expected, i);
    }
  }

  lemma StraightIsChained(log: seq<Row>, k: nat)
    requires Straight(log) && StartIndex(log) <= k < |log|
    ensures Chained(log[StartIndex(log)..k + 1], Expected0(log))
  {
    var rows := log[StartIndex(log)..k + 1];
    forall i | 0 <= i < |rows| ensures ChainedAt(rows, Expected0(log), i) {
      assert Attached(log, StartIndex(log) + i);
    }
  }

  lemma UnforkedIsChained(log: seq<Row>, k: nat)
    requires Unforked(log) && StartIndex(log) <= k < |log|
    ensures Chained(log[StartIndex(log)..k + 1], Expected0(log))
    ensures ChainIdOf(log) == Some(Sha256(Expected0(log), log[StartIndex(log)].payload))
  {
    UnforkedMeans(log);
    FirstRow(log);
    StraightIsChained(log, k);
  }

  lemma {:induction false} ChainedDepth(rows: seq<Row>, expected: Option<Hash>)
    requires Chained(rows, expected) && rows != []
    ensures Depth(rows[|rows| - 1].rowHash) == |rows| + Depth(expected)
  {
    var n := |rows| - 1;
    assert ChainedAt(rows, expected, n);
    if n > 0 {
      ChainedPrefix(rows, n, expected);
      ChainedDepth(rows[..n], expected);
    }
  }

  /** The last hash of a chained sequence fixes its length and all its payloads. */
  lemma {:induction false} LastHashFixesAll(a: seq<Row>, b: seq<Row>, expected: Option<Hash>)
    requires Chained(a, expected) && Chained(b, expected) && a != [] && b != []
    requires a[|a| - 1].rowHash == b[|b| - 1].rowHash
    ensures PayloadsOf(a) == PayloadsOf(b)
  {
    ChainedDepth(a, expected);
    ChainedDepth(b, expected);
    var n := |a| - 1;
    assert ChainedAt(a, expected, n) && ChainedAt(b, expected, n);
    if n > 0 {
      ChainedPrefix(a, n, expected);
      ChainedPrefix(b, n, expected);
      LastHashFixesAll(a[..n], b[..n], expected);
      assert PayloadsOf(a) == PayloadsOf(a[..n]) + [a[n].payload];
      assert PayloadsOf(b) == PayloadsOf(b[..n]) + [b[n].payload];
    }
  }

  /** Tamper evidence. A head was published from row `k0` of a log that verifies without forks; any other log of
      the same chain that verifies without forks and holds the head's hash (at row `k1`) has, from the start of its
      chain through that row, exactly the published log's payloads, in order - whatever else it contains. */
  lemma PublishedPrefixIsFixed(log0: seq<Row>, k0: nat, log1: seq<Row>, k1: nat)
    requires Unforked(log0) && Unforked(log1) && ChainIdOf(log0) == ChainIdOf(log1)
    requires StartIndex(log0) <= k0 < |log0| && StartIndex(log1) <= k1 < |log1|
    requires log0[k0].rowHash == log1[k1].rowHash
    ensures PayloadsOf(log0[StartIndex(log0)..k0 + 1]) == PayloadsOf(log1[StartIndex(log1)..k1 + 1])
  {
    UnforkedIsChained(log0, k0);
    UnforkedIsChained(log1, k1);
    LastHashFixesAll(log0[StartIndex(log0)..k0 + 1], log1[StartIndex(log1)..k1 + 1], Expected0(log0));
  }

  /** A log whose second row is a dead fork branch of payload `p`. */
  function ForkedLog(p: string): seq<Row> {
    var first, third := Sha256(Some(Genesis), "a"), Sha256(Some(Sha256(Some(Genesis), "a")), "c");
    [Row(1, Some(Genesis), Some(first), "a", false, None),
     Row(2, Some(Genesis), Some(Sha256(Some(Genesis), p)), p, false, None),
     Row(3, Some(first), Some(third), "c", false, None)]
  }

  /** A dead fork branch is not fixed by a later head: logs that differ only in a forked row are all intact and all
      end in the same row. */
  lemma ForkBranchesAreNotFixed(p: string, q: string)
    ensures Intact(ForkedLog(p)) && Intact(ForkedLog(q)) && ForkedLog(p)[2] == ForkedLog(q)[2]
    ensures p != q ==> ForkedLog(p)[1].payload != ForkedLog(q)[1].payload
  {
    ForkedLogIsIntact(p);
    ForkedLogIsIntact(q);
  }

  lemma ForkedLogIsIntact(p: string)
    ensures Intact(ForkedLog(p))
  {
    var log := ForkedLog(p);
    var tail2 := log[1..];
    var tail1 := tail2[1..];
    assert tail2 == [log[1], log[2]] && tail1 == [log[2]] && tail1[1..] == [];
    assert FirstSerialized(tail1[1..]).None?;
    assert FirstSerialized(tail1).None?;
    assert FirstSerialized(tail2).None?;
    assert log[0].rowHash.Some?;
    assert FirstHashed(log) == 0;
    assert HasParent(log, 2) by { assert log[0].rowHash == log[2].previous; }
    assert Attached(log, 0) && Attached(log, 1) && Attached(log, 2);
    IntactMeans(log);
  }

  // ----- resumed slices -----

  /** What one call of `verify_chain` reports about the rows it scanned, and the cursor it returns. */
  datatype Slice = Slice(
    verified: nat, altered: seq<int>, forks: seq<int>, breaks: seq<int>,
    afterId: int, expected: Option<Hash>, complete: bool)

  ghost function SliceOf(log: seq<Row>, afterId: int, expected: Option<Hash>, maxRows: Option<int>): Slice {
    var rest := After(log, afterId);
    var rows := Take(rest, maxRows);
    var s := ScanOf(rows, afterId, expected);
    Slice(s.verified, s.altered, Forks(log, s.candidates), Breaks(log, s.candidates), s.lastId, s.expected, rows == rest)
  }

  // ----- which rows a call reports -----

  lemma {:induction false} AlteredMeans(rows: seq<Row>, id: int)
    ensures id in Altered(rows) <==>
            exists i :: && 0 <= i < |rows| && rows[i].id == id && rows[i].rowHash.Some?
                        && rows[i].rowHash.value != Sha256(rows[i].previous, rows[i].payload)
  {
    if rows != [] {
      AlteredMeans(rows[1..], id);
      assert forall i :: 0 < i < |rows| ==> rows[i] == rows[1..][i - 1];
    }
  }

  /** The hash expected after some rows: that of the last one with a hash, or what was expected before them. */
  lemma {:induction false} CarryMeans(expected: Option<Hash>, rows: seq<Row>, j: nat)
    requires j <= |rows| && (forall i :: j <= i < |rows| ==> !Truthy(rows[i].rowHash)) && (j > 0 ==> Truthy(rows[j - 1].rowHash))
    ensures Carry(expected, rows) == if j > 0 then rows[j - 1].rowHash else expected
    decreases |rows|
  {
    if rows != [] {
      assert forall i :: 0 <= i < |rows| - 1 ==> rows[1..][i] == rows[i + 1];
      CarryMeans(Next(expected, rows[0]), rows[1..], if j > 0 then j - 1 else 0);
    }
  }

  lemma {:induction false} MislinkedMeans(expected: Option<Hash>, rows: seq<Row>, c: Candidate)
    ensures c in Mislinked(expected, rows) <==>
            exists i :: 0 <= i < |rows| && c == CandidateOf(rows[i]) && !Linked(Carry(expected, rows[..i]), rows[i])
    decreases |rows|
  {
    if rows != [] {
      var rest, next := rows[1..], Next(expected, rows[0]);
      MislinkedMeans(next, rest, c);
      forall i | 0 < i < |rows|
        ensures rows[i] == rest[i - 1] && Carry(expected, rows[..i]) == Carry(next, rest[..i - 1])
      {
        assert rows[..i][1..] == rest[..i - 1];
      }
      if c in Mislinked(next, rest) {
        var i :| 0 <= i < |rest| && c == CandidateOf(rest[i]) && !Linked(Carry(next, rest[..i]), rest[i]);
        assert rows[i + 1] == rest[i];
      }
      assert Carry(expected, rows[..0]) == expected;
    }
  }

  lemma {:induction false} ClassesMean(log: seq<Row>, cs: seq<Candidate>, id: int)
    ensures id in Forks(log, cs) <==> exists c :: c in cs && c.id == id && IsFork(log, c)
    ensures id in Breaks(log, cs) <==> exists c :: c in cs && c.id == id && !IsFork(log, c)
  {
    if cs != [] {
      hide IsFork;
      ClassesMean(log, cs[1..], id);
      assert cs == [cs[0]] + cs[1..];
    }
  }

  lemma {:induction false} SerializedMeans(log: seq<Row>, id: int)
    requires Sorted(log)
    ensures FirstSerialized(log).Some? && id > FirstSerialized(log).value <==> exists j :: 0 <= j < |log| && log[j].serialized && log[j].id < id
  {
    if log != [] {
      SerializedMeans(log[1..], id);
      assert forall j :: 0 < j < |log| ==> log[j] == log[1..][j - 1];
    }
  }

  lemma IsForkMeans(log: seq<Row>, row: Row)
    requires Sorted(log) && log != []
    ensures IsFork(log, CandidateOf(row)) <==>
            && Truthy(row.rowHash) && Truthy(row.previous)
            && (forall n :: 0 <= n < |log| && log[n].serialized ==> log[n].id >= row.id)
            && (|| row.previous == Some(Genesis) || (log[0].details.Some? && row.previous == log[0].previous)
                || exists n :: 0 <= n < |log| && log[n].rowHash == row.previous && log[n].id < row.id)
  {
    SerializedMeans(log, row.id);
    if Truthy(row.previous) {
      assert row.previous == Some(row.previous.value);
      assert HeldBefore(log, row.previous.value, row.id) <==>
             exists n :: 0 <= n < |log| && log[n].rowHash == row.previous && log[n].id < row.id;
    }
  }

  /** Which of the rows it reads a call reports, on any log (row `j` - 1 being the last hashed one read before row `i`, if any):
      as altered, one whose stored hash is not that of its content; as a fork or a true break, one without a hash or not
      linked to the last hash before it. It is a fork if it has a hash, no earlier row is serialized, and it links to
      genesis, to what the ANCHOR row continues, or to an earlier row. */
  lemma FindingsMean(log: seq<Row>, afterId: int, expected: Option<Hash>, maxRows: Option<int>, i: nat, j: nat)
    requires Sorted(log) && j <= i < |Take(After(log, afterId), maxRows)|
    requires var rows := Take(After(log, afterId), maxRows);
             (forall n :: j <= n < i ==> !Truthy(rows[n].rowHash)) && (j > 0 ==> Truthy(rows[j - 1].rowHash))
    ensures var slice, rows := SliceOf(log, afterId, expected, maxRows), Take(After(log, afterId), maxRows);
            var row := rows[i];
            var linked := row.rowHash.Some? && row.previous == if j == 0 then expected else rows[j - 1].rowHash;
            var fork := && Truthy(row.rowHash) && Truthy(row.previous)
                        && (forall n :: 0 <= n < |log| && log[n].serialized ==> log[n].id >= row.id)
                        && (|| row.previous == Some(Genesis) || (log[0].details.Some? && row.previous == log[0].previous)
                            || exists n :: 0 <= n < |log| && log[n].rowHash == row.previous && log[n].id < row.id);
            && (row.id in slice.altered <==> row.rowHash.Some? && row.rowHash != Some(Sha256(row.previous, row.payload)))
            && (row.id in slice.forks <==> !linked && fork) && (row.id in slice.breaks <==> !linked && !fork)
  {
    var rows := Take(After(log, afterId), maxRows);
    var row := rows[i];
    RowsAreSorted(log, afterId, maxRows);
    AlteredMeans(rows, row.id);
    CarryMeans(expected, rows[..i], j);
    var cs := Mislinked(expected, rows);
    forall c: Candidate | c.id == row.id
      ensures c in cs <==> c == CandidateOf(row) && !Linked(Carry(expected, rows[..i]), row)
    {
      MislinkedMeans(expected, rows, c);
    }
    ClassesMean(log, cs, row.id);
    IsForkMeans(log, row);
    assert forall n :: 0 <= n < |rows| && rows[n].id == row.id ==> n == i;
    hide Mislinked, Altered, Forks, Breaks, Carry, After, Take, IsFork;
  }

  lemma RowsAreSorted(log: seq<Row>, afterId: int, maxRows: Option<int>)
    requires Sorted(log)
    ensures Sorted(Take(After(log, afterId), maxRows)) && (log == [] ==> Take(After(log, afterId), maxRows) == [])
  {
  }

  ghost function Append(a: Slice, b: Slice): Slice {
    Slice(a.verified + b.verified, a.altered + b.altered, a.forks + b.forks, a.breaks + b.breaks,
          b.afterId, b.expected, b.complete)
  }

  /** A resumed call refuses a cursor that is not 64 hex characters. */
  predicate CursorAccepted(expected: Option<Hash>) {
    Truthy(expected) && Hex64(expected.value)
  }

  /** Slices of the given sizes, each resumed from the cursor of the one before; `None` when a cursor is refused. */
  ghost function RunSlices(log: seq<Row>, afterId: int, expected: Option<Hash>, sizes: seq<int>): Option<Slice>
    requires sizes != []
    decreases |sizes|
  {
    var first := SliceOf(log, afterId, expected, Some(sizes[0]));
    if first.complete || |sizes| == 1 then Some(first)
    else if !CursorAccepted(first.expected) then None
    else
      var rest := RunSlices(log, first.afterId, first.expected, sizes[1..]);
      if rest.None? then None else Some(Append(first, rest.value))
  }

  function Sum(sizes: seq<int>): int {
    if sizes == [] then 0 else sizes[0] + Sum(sizes[1..])
  }

  lemma ResumedRows(log: seq<Row>, afterId: int, m: nat)
    requires Sorted(log) && 0 < m <= |After(log, afterId)|
    ensures After(log, After(log, afterId)[m - 1].id) == After(log, afterId)[m..]
  {
    var k := Position(log, afterId);
    PositionIs(log, log[k + m - 1].id, k + m);
    Window(log, k, m, |log| - k - m);
  }

  lemma TwoSlices(log: seq<Row>, afterId: int, expected: Option<Hash>, m: int, n: int)
    requires Sorted(log) && 0 < m < |After(log, afterId)| && 0 < n
    ensures var first := SliceOf(log, afterId, expected, Some(m));
            SliceOf(log, afterId, expected, Some(m + n)) == Append(first, SliceOf(log, first.afterId, first.expected, Some(n)))
  {
    hide Sorted, Carry, Altered, Mislinked, Forks, Breaks, Position;
    var rest := After(log, afterId);
    var k := |Take(rest, Some(m + n))|;
    ResumedRows(log, afterId, m);
    ScanMore(rest, m, k, afterId, expected);
    assert Take(rest, Some(m + n)) == rest[..k] && Take(rest, Some(m)) == rest[..m];
    assert Take(rest[m..], Some(n)) == rest[m..k];
    var done := ScanOf(rest[..m], afterId, expected);
    ClassesConcat(log, done.candidates, ScanOf(rest[m..k], done.lastId, done.expected).candidates);
    assert (rest[..k] == rest) <==> (rest[m..k] == rest[m..]);
  }

  ghost predicate WellFormedHashes(log: seq<Row>) {
    forall row :: row in log && Truthy(row.rowHash) ==> Hex64(row.rowHash.value)
  }

  lemma {:induction false} CarryIsWellFormed(expected: Option<Hash>, rows: seq<Row>)
    requires CursorAccepted(expected) && WellFormedHashes(rows)
    ensures CursorAccepted(Carry(expected, rows))
    decreases |rows|
  {
    if rows != [] {
      CarryIsWellFormed(Next(expected, rows[0]), rows[1..]);
    }
  }

  lemma SliceGoesOn(log: seq<Row>, afterId: int, expected: Option<Hash>, m: int)
    requires WellFormedHashes(log) && CursorAccepted(expected) && 0 < m < |After(log, afterId)|
    ensures var first := SliceOf(log, afterId, expected, Some(m)); !first.complete && CursorAccepted(first.expected)
  {
    CarryIsWellFormed(expected, Take(After(log, afterId), Some(m)));
  }

  lemma SaturatedSlices(log: seq<Row>, afterId: int, expected: Option<Hash>, m: int, n: int)
    requires |After(log, afterId)| <= m <= n && 0 < m
    ensures var first := SliceOf(log, afterId, expected, Some(m));
            first.complete && first == SliceOf(log, afterId, expected, Some(n)) == SliceOf(log, afterId, expected, None)
  {
    var rest := After(log, afterId);
    assert Take(rest, Some(m)) == Take(rest, Some(n)) == rest;
  }

  /** Slices compose: on an unchanged log with well-formed hashes, slices of any positive sizes, each resumed from
      the returned cursor, find together exactly what one call with the summed limit finds: the same mismatches,
      forks, true breaks and count, in the same order. */
  lemma {:induction false} SlicesCompose(log: seq<Row>, afterId: int, expected: Option<Hash>, sizes: seq<int>)
    requires Sorted(log) && WellFormedHashes(log) && CursorAccepted(expected)
    requires sizes != [] && forall i :: 0 <= i < |sizes| ==> sizes[i] >= 1
    ensures RunSlices(log, afterId, expected, sizes) == Some(SliceOf(log, afterId, expected, Some(Sum(sizes))))
    decreases |sizes|, 1
  {
    if sizes[0] >= |After(log, afterId)| {
      SumAtLeast(sizes[1..]);
      SaturatedSlices(log, afterId, expected, sizes[0], Sum(sizes));
    } else if |sizes| == 1 {
      assert sizes[1..] == [];
    } else {
      FirstSliceAndRest(log, afterId, expected, sizes);
    }
  }

  lemma {:induction false} FirstSliceAndRest(log: seq<Row>, afterId: int, expected: Option<Hash>, sizes: seq<int>)
    requires Sorted(log) && WellFormedHashes(log) && CursorAccepted(expected)
    requires |sizes| > 1 && forall i :: 0 <= i < |sizes| ==> sizes[i] >= 1
    requires sizes[0] < |After(log, afterId)|
    ensures RunSlices(log, afterId, expected, sizes) == Some(SliceOf(log, afterId, expected, Some(Sum(sizes))))
    decreases |sizes|, 0
  {
    hide SliceOf, Append;
    var first := SliceOf(log, afterId, expected, Some(sizes[0]));
    var n := Sum(sizes[1..]);
    SliceGoesOn(log, afterId, expected, sizes[0]);
    SlicesCompose(log, first.afterId, first.expected, sizes[1..]);
    RunMore(log, afterId, expected, sizes, first, SliceOf(log, first.afterId, first.expected, Some(n)));
    SumAtLeast(sizes[1..]);
    TwoSlices(log, afterId, expected, sizes[0], n);
  }

  lemma RunMore(log: seq<Row>, afterId: int, expected: Option<Hash>, sizes: seq<int>, first: Slice, rest: Slice)
    requires |sizes| > 1 && first == SliceOf(log, afterId, expected, Some(sizes[0]))
    requires !first.complete && CursorAccepted(first.expected)
    requires RunSlices(log, first.afterId, first.expected, sizes[1..]) == Some(rest)
    ensures RunSlices(log, afterId, expected, sizes) == Some(Append(first, rest))
  {
  }

  /** Once the sizes cover the log, the slices find what one unbounded call finds. */
  lemma SlicesCoverTheLog(log: seq<Row>, afterId: int, expected: Option<Hash>, sizes: seq<int>)
    requires Sorted(log) && WellFormedHashes(log) && CursorAccepted(expected)
    requires sizes != [] && forall i :: 0 <= i < |sizes| ==> sizes[i] >= 1
    requires Sum(sizes) >= |After(log, afterId)|
    ensures RunSlices(log, afterId, expected, sizes) == Some(SliceOf(log, afterId, expected, None))
  {
    SlicesCompose(log, afterId, expected, sizes);
    SumAtLeast(sizes);
    SaturatedSlices(log, afterId, expected, Sum(sizes), Sum(sizes));
  }

  lemma {:induction false} SumAtLeast(sizes: seq<int>)
    requires forall i :: 0 <= i < |sizes| ==> sizes[i] >= 1
    ensures Sum(sizes) >= |sizes|
  {
    if sizes != [] {
      SumAtLeast(sizes[1..]);
    }
  }
}
