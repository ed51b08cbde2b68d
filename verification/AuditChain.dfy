/** `app/services/audit_chain.py`: where a chain starts, the chunked and resumable scan that recomputes
    hashes and links, and the split of mislinked rows into forks and true breaks. */
module AuditChain {
  import opened Records

  // ----- the table -----

  /** The log is read `ORDER BY id`, and `id` is the primary key. */
  ghost predicate Sorted(log: seq<Row>) {
    forall i, j :: 0 <= i < j < |log| ==> log[i].id < log[j].id
  }

  /** How many rows have an id up to `afterId`. */
  function Position(log: seq<Row>, afterId: int): (k: nat)
    ensures k <= |log|
  {
    if log == [] || log[0].id > afterId then 0 else 1 + Position(log[1..], afterId)
  }

  /** `WHERE id > :after_id ORDER BY id`. */
  function After(log: seq<Row>, afterId: int): seq<Row> {
    log[Position(log, afterId)..]
  }

  /** `LIMIT`; no limit when `None`. */
  function Take(rows: seq<Row>, limit: Option<int>): (taken: seq<Row>)
    ensures |taken| <= |rows| && taken == rows[..|taken|]
    ensures limit.Some? && limit.value >= 0 ==> |taken| <= limit.value
  {
    match limit
    case None => rows
    case Some(m) => if m <= 0 then [] else if m < |rows| then rows[..m] else rows
  }

  lemma {:induction false} PositionIs(log: seq<Row>, afterId: int, k: nat)
    requires Sorted(log) && k <= |log|
    requires k > 0 ==> log[k - 1].id <= afterId
    requires k < |log| ==> log[k].id > afterId
    ensures Position(log, afterId) == k
  {
    if k > 0 {
      assert k > 1 ==> log[0].id < log[k - 1].id;
      PositionIs(log[1..], afterId, k - 1);
    }
  }

  // ----- where the chain starts -----

  datatype ChainStart = ChainStart(afterId: int, expected: Option<Hash>, anchor: Option<Anchor>, unhashed: int)

  function FirstHashed(log: seq<Row>): (k: nat)
    ensures k <= |log|
    ensures forall i :: 0 <= i < k ==> log[i].rowHash.None?
    ensures k < |log| ==> log[k].rowHash.Some?
  {
    if log == [] || log[0].rowHash.Some? then 0 else 1 + FirstHashed(log[1..])
  }

  function FindChainStart(log: seq<Row>): Option<ChainStart> {
    if log == [] then None
    else if log[0].details.Some? then
      var anchor := log[0].details.value.(archivedHead := log[0].previous);
      Some(ChainStart(log[0].id - 1, log[0].previous, Some(anchor), 0))
    else
      var k := FirstHashed(log);
      if k == |log| then Some(ChainStart(0, Some(Genesis), None, -1))
      else Some(ChainStart(log[k].id - 1, Some(Genesis), None, k))
  }

  /** Index of the row verification starts at, when there is a chain to verify. */
  ghost function StartIndex(log: seq<Row>): (k: nat)
    requires log != []
    ensures k <= |log|
  {
    if log[0].details.Some? then 0 else FirstHashed(log)
  }

  ghost predicate HasChain(log: seq<Row>) {
    log != [] && (log[0].details.Some? || FirstHashed(log) < |log|)
  }

  lemma StartsAtIndex(log: seq<Row>)
    requires Sorted(log) && HasChain(log)
    ensures StartIndex(log) < |log|
    ensures After(log, FindChainStart(log).value.afterId) == log[StartIndex(log)..]
  {
    var k := StartIndex(log);
    assert FindChainStart(log).value.afterId == log[k].id - 1;
    PositionIs(log, log[k].id - 1, k);
  }

  // ----- what one scan of some rows finds -----

  function Recompute(row: Row): Hash {
    Sha256(row.previous, row.payload)
  }

  predicate IsAltered(row: Row) {
    row.rowHash.Some? && row.rowHash.value != Recompute(row)
  }

  /** The hash the row after this one is expected to link to. */
  function Next(expected: Option<Hash>, row: Row): Option<Hash> {
    if Truthy(row.rowHash) then row.rowHash else expected
  }

  predicate Linked(expected: Option<Hash>, row: Row) {
    row.rowHash.Some? && row.previous == expected
  }

  datatype Candidate = Candidate(id: int, previous: Option<Hash>)

  function CandidateOf(row: Row): Candidate {
    Candidate(row.id, if Truthy(row.rowHash) then row.previous else None)
  }

  /** Ids of the rows whose recomputed hash differs from the stored one. */
  function Altered(rows: seq<Row>): seq<int> {
    if rows == [] then [] else (if IsAltered(rows[0]) then [rows[0].id] else []) + Altered(rows[1..])
  }

  /** The hash the row after `rows` is expected to link to. */
  function Carry(expected: Option<Hash>, rows: seq<Row>): Option<Hash>
    decreases |rows|
  {
    if rows == [] then expected else Carry(Next(expected, rows[0]), rows[1..])
  }

  /** The rows that do not link to the hash expected of them. */
  function Mislinked(expected: Option<Hash>, rows: seq<Row>): seq<Candidate>
    decreases |rows|
  {
    if rows == [] then []
    else (if Linked(expected, rows[0]) then [] else [CandidateOf(rows[0])])
         + Mislinked(Next(expected, rows[0]), rows[1..])
  }

  lemma {:induction false} AlteredConcat(a: seq<Row>, b: seq<Row>)
    ensures Altered(a + b) == Altered(a) + Altered(b)
    decreases |a|
  {
    if a == [] {
      assert a + b == b;
    } else {
      var all := a + b;
      assert all[0] == a[0] && all[1..] == a[1..] + b;
      AlteredConcat(a[1..], b);
    }
  }

  lemma {:induction false} LinksConcat(expected: Option<Hash>, a: seq<Row>, b: seq<Row>)
    ensures Carry(expected, a + b) == Carry(Carry(expected, a), b)
    ensures Mislinked(expected, a + b) == Mislinked(expected, a) + Mislinked(Carry(expected, a), b)
    decreases |a|
  {
    if a == [] {
      assert a + b == b;
    } else {
      var all := a + b;
      assert all[0] == a[0] && all[1..] == a[1..] + b;
      LinksConcat(Next(expected, a[0]), a[1..], b);
    }
  }

  datatype Scan = Scan(
    expected: Option<Hash>, lastId: int, verified: nat, altered: seq<int>, candidates: seq<Candidate>)

  /** The loop's variables after scanning exactly these rows. */
  ghost function ScanOf(rows: seq<Row>, afterId: int, expected0: Option<Hash>): Scan {
    Scan(Carry(expected0, rows), if rows == [] then afterId else rows[|rows| - 1].id, |rows|, Altered(rows),
         Mislinked(expected0, rows))
  }

  /** The loop's variables after `done` and then `part`. */
  function Joined(done: Scan, part: Scan): Scan {
    part.(verified := done.verified + part.verified, altered := done.altered + part.altered,
    candidates := done.candidates + part.candidates)
  }

  lemma ScanMore(rows: seq<Row>, n: nat, m: nat, afterId: int, expected0: Option<Hash>)
    requires n <= m <= |rows|
    ensures var done := ScanOf(rows[..n], afterId, expected0);
      ScanOf(rows[..m], afterId, expected0) == Joined(done, ScanOf(rows[n..m], done.lastId, done.expected))
  {
    AlteredConcat(rows[..n], rows[n..m]);
    LinksConcat(expected0, rows[..n], rows[n..m]);
    assert rows[..m] == rows[..n] + rows[n..m];
  }

  lemma ScanOne(row: Row, lastId: int, expected: Option<Hash>)
    ensures ScanOf([row], lastId, expected) ==
            Scan(Next(expected, row), row.id, 1, if IsAltered(row) then [row.id] else [],
                 if Linked(expected, row) then [] else [CandidateOf(row)])
  {
    var none := [row][1..];
    assert none == [];
    assert Altered(none) == [] && Mislinked(Next(expected, row), none) == [];
    assert Carry(expected, [row]) == Carry(Next(expected, row), none);
  }

  /** The loop over the rows of one chunk. */
  method ScanRows(rows: seq<Row>, expected0: Option<Hash>, lastId0: int) returns (s: Scan)
    ensures s == ScanOf(rows, lastId0, expected0)
  {
    s := Scan(expected0, lastId0, 0, [], []);
    for i := 0 to |rows|
      invariant s == ScanOf(rows[..i], lastId0, expected0)
    {
      var row := rows[i];
      ScanMore(rows, i, i + 1, lastId0, expected0);
      ScanOne(row, s.lastId, s.expected);
      assert rows[i..i + 1] == [row];
      var expected := s.expected;
      s := s.(expected := Next(expected, row), lastId := row.id, verified := s.verified + 1);
      if !Linked(expected, row) {
        s := s.(candidates := s.candidates + [CandidateOf(row)]);
      }
      if IsAltered(row) {
        s := s.(altered := s.altered + [row.id]);
      }
    }
    assert rows[..|rows|] == rows;
  }

  /** One chunk: at most `limit` more rows of `rest`, the rows of the whole scan, `s.verified` of them read. */
  method ScanChunk(log: seq<Row>, ghost afterId: int, ghost expected0: Option<Hash>, s0: Scan, limit: nat)
    returns (s: Scan, count: nat)
    requires Sorted(log) && Reading(log, afterId, expected0, s0)
    ensures Reading(log, afterId, expected0, s) && s.verified == s0.verified + count
    ensures var left := |log| - Position(log, s0.lastId); count == if limit < left then limit else left
  {
    ghost var at := Position(log, s0.lastId);
    var rows := Take(After(log, s0.lastId), Some(limit));
    count := |rows|;
    var part := ScanRows(rows, s0.expected, s0.lastId);
    s := Joined(s0, part);
    ReadMore(log, afterId, expected0, s0, count);
  }

  lemma ReadMore(log: seq<Row>, afterId: int, expected0: Option<Hash>, s0: Scan, count: nat)
    requires Sorted(log) && Reading(log, afterId, expected0, s0)
    requires count <= |After(log, s0.lastId)|
    ensures Reading(log, afterId, expected0, Joined(s0, ScanOf(After(log, s0.lastId)[..count], s0.lastId, s0.expected)))
  {
    hide Position, Carry, Altered, Mislinked;
    var rest, n := After(log, afterId), s0.verified;
    var at := |log| - |rest| + n;
    Window(log, |log| - |rest|, n, count);
    ScanMore(rest, n, n + count, afterId, expected0);
    if count > 0 {
      PositionIs(log, log[at + count - 1].id, at + count);
    }
  }

  lemma Window<T>(s: seq<T>, k: nat, n: nat, count: nat)
    requires k + n + count <= |s|
    ensures s[k + n..][..count] == s[k..][n..n + count]
  {
  }

  /** `s` holds the loop's variables after the first rows of the scan. */
  ghost predicate Reading(log: seq<Row>, afterId: int, expected0: Option<Hash>, s: Scan) {
    var rest := After(log, afterId);
    && s.verified <= |rest|
    && Position(log, s.lastId) == |log| - |rest| + s.verified
    && s == ScanOf(rest[..s.verified], afterId, expected0)
  }

  /** The chunk loop of `verify_chain`. A chunk size of 0 reads nothing and reports the scan complete. */
  method ScanLog(log: seq<Row>, afterId: int, expected0: Option<Hash>, maxRows: Option<int>, chunkSize: nat)
    returns (s: Scan, complete: bool)
    requires Sorted(log)
    ensures var rest := After(log, afterId); var rows := if chunkSize == 0 then [] else Take(rest, maxRows);
      && s == ScanOf(rows, afterId, expected0)
      && complete == (rows == rest || (chunkSize == 0 && (maxRows.None? || maxRows.value > 0)))
  {
    s, complete := Scan(expected0, afterId, 0, [], []), true;
    ghost var total := |After(log, afterId)|;
    var scanning := true;
    while scanning
      invariant Reading(log, afterId, expected0, s)
      invariant chunkSize == 0 ==> s.verified == 0
      invariant maxRows.Some? && s.verified > 0 ==> s.verified <= maxRows.value
      invariant scanning ==> complete
      invariant !scanning && chunkSize > 0 ==> complete == (s.verified == total)
      invariant !scanning && chunkSize > 0 && s.verified < total ==> maxRows.Some? && maxRows.value <= s.verified
      invariant !scanning && chunkSize == 0 ==> (complete <==> maxRows.None? || maxRows.value > 0 || total == 0)
      decreases scanning, total - s.verified
    {
      var left := if maxRows.Some? then maxRows.value - s.verified else chunkSize;
      if left <= 0 && maxRows.Some? {
        complete := After(log, s.lastId) == [];
        scanning := false;
      } else {
        var limit := if left < chunkSize then left else chunkSize;
        var count;
        s, count := ScanChunk(log, afterId, expected0, s, limit);
        scanning := !(count == 0 || (count < limit && maxRows.None?));
      }
    }
    ghost var rest := After(log, afterId);
    assert chunkSize > 0 ==> rest[..s.verified] == Take(rest, maxRows);
  }

  // ----- forks and true breaks -----

  predicate HeldBefore(log: seq<Row>, h: Hash, id: int) {
    exists k :: 0 <= k < |log| && log[k].rowHash == Some(h) && log[k].id < id
  }

  /** `min(id) ... WHERE row_hash = h`. */
  function MinId(log: seq<Row>, h: Hash): Option<int> {
    if log == [] then None
    else
      var rest := MinId(log[1..], h);
      if log[0].rowHash != Some(h) then rest
      else if rest.Some? && rest.value < log[0].id then rest
      else Some(log[0].id)
  }

  lemma {:induction false} MinIdBefore(log: seq<Row>, h: Hash, id: int)
    ensures HeldBefore(log, h, id) <==> MinId(log, h).Some? && MinId(log, h).value < id
  {
    if log != [] {
      MinIdBefore(log[1..], h, id);
      if log[0].rowHash == Some(h) && log[0].id < id {
        assert HeldBefore(log, h, id);
      }
      if HeldBefore(log[1..], h, id) {
        var k :| 0 <= k < |log| - 1 && log[1..][k].rowHash == Some(h) && log[1..][k].id < id;
        assert log[k + 1] == log[1..][k];
      }
      if HeldBefore(log, h, id) {
        var k :| 0 <= k < |log| && log[k].rowHash == Some(h) && log[k].id < id;
        assert k > 0 ==> log[1..][k - 1] == log[k];
      }
    }
  }

  /** `_earliest_ids`: one query per batch of hashes, each grouped by hash. */
  method EarliestIds(log: seq<Row>, hashes: seq<Hash>, batch: nat) returns (found: map<Hash, int>)
    requires batch > 0
    ensures forall h :: h in found <==> h in hashes && MinId(log, h).Some?
    ensures forall h :: h in found ==> MinId(log, h) == Some(found[h])
  {
    found := map[];
    var start := 0;
    while start < |hashes|
      invariant forall h :: h in found ==> h in hashes && MinId(log, h) == Some(found[h])
      invariant forall i :: 0 <= i < start && i < |hashes| && MinId(log, hashes[i]).Some? ==> hashes[i] in found
      decreases |hashes| - start
    {
      var slice := hashes[start..if start + batch < |hashes| then start + batch else |hashes|];
      forall i | start <= i < start + batch && i < |hashes| ensures hashes[i] in slice {
        assert slice[i - start] == hashes[i];
      }
      found := found + map h | h in slice && MinId(log, h).Some? :: MinId(log, h).value;
      start := start + batch;
    }
  }

  /** `_chain_roots`. */
  function Roots(log: seq<Row>): set<Hash> {
    if log != [] && log[0].details.Some? && Truthy(log[0].previous) then {Genesis, log[0].previous.value}
    else {Genesis}
  }

  /** `first_serialized_id`. */
  function FirstSerialized(log: seq<Row>): Option<int> {
    if log == [] then None else if log[0].serialized then Some(log[0].id) else FirstSerialized(log[1..])
  }

  /** A mislinked row is a fork when it was written before writes were serialized and links to a root or to an
      earlier row. */
  predicate IsFork(log: seq<Row>, c: Candidate) {
    && !(FirstSerialized(log).Some? && c.id > FirstSerialized(log).value)
    && Truthy(c.previous)
    && (c.previous.value in Roots(log) || HeldBefore(log, c.previous.value, c.id))
  }

  function Forks(log: seq<Row>, cs: seq<Candidate>): seq<int> {
    if cs == [] then [] else (if IsFork(log, cs[0]) then [cs[0].id] else []) + Forks(log, cs[1..])
  }

  function Breaks(log: seq<Row>, cs: seq<Candidate>): seq<int> {
    if cs == [] then [] else (if IsFork(log, cs[0]) then [] else [cs[0].id]) + Breaks(log, cs[1..])
  }

  lemma {:induction false} ClassesConcat(log: seq<Row>, a: seq<Candidate>, b: seq<Candidate>)
    ensures Forks(log, a + b) == Forks(log, a) + Forks(log, b)
    ensures Breaks(log, a + b) == Breaks(log, a) + Breaks(log, b)
  {
    hide IsFork;
    if a == [] {
      assert a + b == b;
    } else {
      var all := a + b;
      assert all[0] == a[0] && all[1..] == a[1..] + b;
      ClassesConcat(log, a[1..], b);
      var fork, other := if IsFork(log, a[0]) then [a[0].id] else [], if IsFork(log, a[0]) then [] else [a[0].id];
      assert Forks(log, all) == fork + Forks(log, a[1..] + b) == (fork + Forks(log, a[1..])) + Forks(log, b);
      assert Breaks(log, all) == other + Breaks(log, a[1..] + b) == (other + Breaks(log, a[1..])) + Breaks(log, b);
    }
  }

  /** The hashes `classify_links` looks up: the distinct previous hashes that are no roots. */
  method Lookups(roots: set<Hash>, candidates: seq<Candidate>) returns (lookup: seq<Hash>)
    ensures forall c :: c in candidates && Truthy(c.previous) && c.previous.value !in roots ==> c.previous.value in lookup
  {
    lookup := [];
    for i := 0 to |candidates|
      invariant forall j :: 0 <= j < i && Truthy(candidates[j].previous) && candidates[j].previous.value !in roots ==>
                              candidates[j].previous.value in lookup
    {
      var previous := candidates[i].previous;
      if Truthy(previous) && previous.value !in roots && previous.value !in lookup {
        lookup := lookup + [previous.value];
      }
    }
  }

  lemma ClassesOne(log: seq<Row>, cs: seq<Candidate>, i: nat)
    requires i < |cs|
    ensures Forks(log, cs[..i + 1]) == Forks(log, cs[..i]) + if IsFork(log, cs[i]) then [cs[i].id] else []
    ensures Breaks(log, cs[..i + 1]) == Breaks(log, cs[..i]) + if IsFork(log, cs[i]) then [] else [cs[i].id]
  {
    var one := [cs[i]];
    var none := one[1..];
    assert none == [] && Forks(log, none) == [] && Breaks(log, none) == [];
    assert cs[..i + 1] == cs[..i] + one;
    ClassesConcat(log, cs[..i], one);
  }

  /** `classify_links`. */
  method ClassifyLinks(log: seq<Row>, candidates: seq<Candidate>) returns (forks: seq<int>, breaks: seq<int>)
    ensures forks == Forks(log, candidates) && breaks == Breaks(log, candidates)
  {
    var roots, serializedFrom := Roots(log), FirstSerialized(log);
    var lookup := Lookups(roots, candidates);
    var earliest := EarliestIds(log, lookup, 5000);
    forks, breaks := [], [];
    for i := 0 to |candidates|
      invariant forks == Forks(log, candidates[..i]) && breaks == Breaks(log, candidates[..i])
    {
      var c := candidates[i];
      var serialized := serializedFrom.Some? && c.id > serializedFrom.value;
      var fork := !serialized && Truthy(c.previous) &&
        (c.previous.value in roots || (c.previous.value in earliest && earliest[c.previous.value] < c.id));
      if Truthy(c.previous) {
        MinIdBefore(log, c.previous.value, c.id);
      }
      ClassesOne(log, candidates, i);
      assert fork == IsFork(log, c);
      if fork {
        forks := forks + [c.id];
      } else {
        breaks := breaks + [c.id];
      }
    }
    assert candidates[..|candidates|] == candidates;
  }
}
