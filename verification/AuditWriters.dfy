/** The writers of the audit log: the unserialized trigger of migration 014 (read the head, append later), the
    serialized trigger of migration 016, and the logs every interleaving of them can leave. */
module AuditWriters {
  import opened Records
  import opened AuditChain
  import opened ChainIntegrity

  /** The log, and the heads read by unserialized writers that have not appended yet. */
  datatype Writers = Writers(log: seq<Row>, inFlight: seq<Hash>)

  datatype Step =
    | ReadHead(seen: nat)
    | AppendUnserialized(writer: nat, id: int, payload: string)
    | AppendSerialized(id: int, payload: string)

  /** The head a trigger reads when the newest row it sees is the `seen`-th: genesis for none or an unhashed one. */
  function HeadSeen(log: seq<Row>, seen: nat): Hash
    requires seen <= |log|
  {
    if seen == 0 || log[seen - 1].rowHash.None? then Genesis else log[seen - 1].rowHash.value
  }

  function NewRow(id: int, previous: Hash, payload: string, serialized: bool): Row {
    Row(id, Some(previous), Some(Sha256(Some(previous), payload)), payload, serialized, None)
  }

  predicate NewId(log: seq<Row>, id: int) {
    log == [] || log[|log| - 1].id < id
  }

  /** An unserialized writer may see any committed prefix, and any number of other rows may be appended before it
      appends its own. The serialized trigger reads and appends under the chain's lock. */
  predicate Enabled(w: Writers, step: Step) {
    match step
    case ReadHead(seen) => seen <= |w.log|
    case AppendUnserialized(writer, id, _) => writer < |w.inFlight| && NewId(w.log, id)
    case AppendSerialized(id, _) => NewId(w.log, id)
  }

  function Apply(w: Writers, step: Step): Writers
    requires Enabled(w, step)
  {
    match step
    case ReadHead(seen) => w.(inFlight := w.inFlight + [HeadSeen(w.log, seen)])
    case AppendUnserialized(writer, id, payload) =>
      Writers(w.log + [NewRow(id, w.inFlight[writer], payload, false)],
              w.inFlight[..writer] + w.inFlight[writer + 1..])
    case AppendSerialized(id, payload) =>
      w.(log := w.log + [NewRow(id, HeadSeen(w.log, |w.log|), payload, true)])
  }

  /** The serialized trigger takes over with no unserialized writer in flight, and stays. */
  ghost predicate CleanSwitch(w: Writers, step: Step) {
    match step
    case ReadHead(_) => FirstSerialized(w.log).None?
    case AppendUnserialized(_, _, _) => true
    case AppendSerialized(_, _) => w.inFlight == []
  }

  /** A log from before the hash chain (any number of rows without hashes), or one that starts with an ANCHOR row. */
  ghost predicate Initial(w: Writers) {
    && Sorted(w.log) && w.inFlight == []
    && ((forall k :: 0 <= k < |w.log| ==>
          w.log[k].rowHash.None? && !w.log[k].serialized && w.log[k].details.None?)
        || (|w.log| == 1 && IsAnchorRow(w.log[0])))
  }

  predicate IsAnchorRow(row: Row) {
    && row.details.Some? && row.serialized
    && row.previous.Some? && Hex64(row.previous.value) && row.rowHash == Some(Recompute(row))
  }

  ghost predicate Run(w0: Writers, steps: seq<Step>, clean: bool, w: Writers)
    decreases |steps|
  {
    if steps == [] then w0 == w
    else
      && Enabled(w0, steps[0])
      && (clean ==> CleanSwitch(w0, steps[0]))
      && Run(Apply(w0, steps[0]), steps[1..], clean, w)
  }

  // ----- what every interleaving keeps -----

  ghost predicate Descends(log: seq<Row>, h: Hash) {
    h == Genesis || exists j :: FirstHashed(log) <= j < |log| && log[j].rowHash == Some(h)
  }

  /** Row `k` was written by one of the triggers. */
  ghost predicate WellWritten(log: seq<Row>, k: nat)
    requires k < |log|
  {
    var row := log[k];
    && row.rowHash == Some(Recompute(row))
    && Truthy(row.previous)
    && (row.details.Some? ==> k == 0 && row.serialized)
    && (row.details.None? ==> row.previous == Some(Genesis) || HasParent(log, k))
    && (row.serialized ==> row.previous == Predecessor(log, k))
  }

  ghost predicate Inv(w: Writers) {
    var u := FirstHashed(w.log);
    && Sorted(w.log)
    && (forall k :: 0 <= k < u ==> !w.log[k].serialized && w.log[k].details.None?)
    && (forall k :: u <= k < |w.log| ==> WellWritten(w.log, k))
    && (forall h :: h in w.inFlight ==> Descends(w.log, h))
  }

  lemma {:induction false} FirstsAppend(log: seq<Row>, row: Row)
    ensures FirstHashed(log + [row]) ==
            if FirstHashed(log) < |log| then FirstHashed(log) else if row.rowHash.Some? then |log| else |log| + 1
    ensures FirstSerialized(log + [row]) ==
            if FirstSerialized(log).Some? then FirstSerialized(log) else if row.serialized then Some(row.id) else None
  {
    var all := log + [row];
    if log == [] {
      assert all[1..] == [] && all[0] == row;
    } else {
      assert all[0] == log[0] && all[1..] == log[1..] + [row];
      FirstsAppend(log[1..], row);
    }
  }

  lemma HeadDescends(w: Writers, seen: nat)
    requires Inv(w) && seen <= |w.log|
    ensures Descends(w.log, HeadSeen(w.log, seen))
  {
    if seen > 0 && w.log[seen - 1].rowHash.Some? {
      assert FirstHashed(w.log) <= seen - 1;
    }
  }

  lemma AppendKeeps(w: Writers, row: Row, w': Writers)
    requires Inv(w) && w'.log == w.log + [row] && (forall h :: h in w'.inFlight ==> h in w.inFlight)
    requires NewId(w.log, row.id) && row.details.None?
    requires row.previous.Some? && Descends(w.log, row.previous.value) && row.rowHash == Some(Recompute(row))
    requires row.serialized ==> row.previous.value == HeadSeen(w.log, |w.log|)
    ensures Inv(w')
  {
    var u, n, log' := FirstHashed(w.log), |w.log|, w'.log;
    FirstsAppend(w.log, row);
    assert FirstHashed(log') == u && StartIndex(log') == u;
    NewestIsWellWritten(w, row, log');
    forall k | u <= k < |log'| ensures WellWritten(log', k) {
      if k < n {
        StaysWellWritten(w.log, row, k);
      }
    }
    forall h | h in w'.inFlight ensures Descends(log', h) {
      StillDescends(w.log, row, h);
    }
  }

  lemma StaysWellWritten(log: seq<Row>, row: Row, k: nat)
    requires FirstHashed(log) <= k < |log| && FirstHashed(log + [row]) == FirstHashed(log) && WellWritten(log, k)
    requires StartIndex(log + [row]) == StartIndex(log)
    ensures WellWritten(log + [row], k)
  {
    var log' := log + [row];
    assert log'[k] == log[k] && Predecessor(log', k) == Predecessor(log, k);
    if HasParent(log, k) {
      var j :| StartIndex(log) <= j < k && log[j].rowHash == log[k].previous;
      assert log'[j] == log[j];
    }
  }

  lemma StillDescends(log: seq<Row>, row: Row, h: Hash)
    requires Descends(log, h) && FirstHashed(log + [row]) == FirstHashed(log)
    ensures Descends(log + [row], h)
  {
    if h != Genesis {
      var j :| FirstHashed(log) <= j < |log| && log[j].rowHash == Some(h);
      assert (log + [row])[j] == log[j];
    }
  }

  lemma NewestIsWellWritten(w: Writers, row: Row, log': seq<Row>)
    requires Inv(w) && log' == w.log + [row] && FirstHashed(log') == StartIndex(log') == FirstHashed(w.log)
    requires row.details.None?
    requires row.previous.Some? && Descends(w.log, row.previous.value) && row.rowHash == Some(Recompute(row))
    requires row.serialized ==> row.previous.value == HeadSeen(w.log, |w.log|)
    ensures WellWritten(log', |w.log|)
  {
    var u, n := FirstHashed(w.log), |w.log|;
    assert log'[n] == row;
    if row.previous.value != Genesis {
      var j :| u <= j < n && w.log[j].rowHash == row.previous;
      assert log'[j] == w.log[j] && WellWritten(w.log, j);
      assert HasParent(log', n);
    }
    if u < n {
      assert WellWritten(w.log, n - 1);
      assert log'[n - 1] == w.log[n - 1];
    }
  }

  lemma StepKeeps(w: Writers, step: Step)
    requires Inv(w) && Enabled(w, step)
    ensures Inv(Apply(w, step))
  {
    var w' := Apply(w, step);
    match step
    case ReadHead(seen) =>
      HeadDescends(w, seen);
    case AppendUnserialized(writer, id, payload) =>
      assert w.inFlight[writer] in w.inFlight;
      AppendKeeps(w, NewRow(id, w.inFlight[writer], payload, false), w');
    case AppendSerialized(id, payload) =>
      HeadDescends(w, |w.log|);
      AppendKeeps(w, NewRow(id, HeadSeen(w.log, |w.log|), payload, true), w');
  }

  lemma InitialInv(w: Writers)
    requires Initial(w)
    ensures Inv(w)
  {
    if |w.log| == 1 && IsAnchorRow(w.log[0]) {
      assert FirstHashed(w.log) == 0 && StartIndex(w.log) == 0;
      assert WellWritten(w.log, 0);
    } else {
      assert FirstHashed(w.log) == |w.log|;
    }
  }

  lemma {:induction false} RunKeeps(w0: Writers, steps: seq<Step>, clean: bool, w: Writers)
    requires Inv(w0) && Run(w0, steps, clean, w)
    ensures Inv(w)
    decreases |steps|
  {
    if steps != [] {
      StepKeeps(w0, steps[0]);
      RunKeeps(Apply(w0, steps[0]), steps[1..], clean, w);
    }
  }

  // ----- what the verifier reports about it -----

  lemma WellWrittenAttaches(log: seq<Row>, k: nat)
    requires log != [] && StartIndex(log) == FirstHashed(log) <= k < |log| && WellWritten(log, k)
    ensures Attached(log, k) <==> log[k].previous == Predecessor(log, k) || !Late(log, k)
  {
  }

  /** No row appended after the first serialized one is stale: each links to the row before it. */
  ghost predicate NoStaleAppend(log: seq<Row>)
    requires log != []
  {
    forall k :: StartIndex(log) <= k < |log| && Late(log, k) ==> log[k].previous == Predecessor(log, k)
  }

  /** An unserialized writer appends after the first serialized row over a head that is no longer the newest. */
  predicate StaleStep(w: Writers, step: Step) {
    && step.AppendUnserialized? && step.writer < |w.inFlight|
    && FirstSerialized(w.log).Some? && w.inFlight[step.writer] != HeadSeen(w.log, |w.log|)
  }

  /** Some step of the run is such an append. */
  ghost predicate StaleRun(w: Writers, steps: seq<Step>)
    decreases |steps|
  {
    steps != [] && Enabled(w, steps[0]) && (StaleStep(w, steps[0]) || StaleRun(Apply(w, steps[0]), steps[1..]))
  }

  ghost predicate NoneStale(log: seq<Row>) {
    log == [] || NoStaleAppend(log)
  }

  lemma {:induction false} FirstSerializedRow(log: seq<Row>) returns (k: nat)
    requires FirstSerialized(log).Some?
    ensures k < |log| && log[k].serialized && FirstSerialized(log) == Some(log[k].id)
  {
    if log[0].serialized {
      k := 0;
    } else {
      k := FirstSerializedRow(log[1..]);
      k := k + 1;
    }
  }

  /** What a new row leaves of the earlier ones, and when it is late itself. */
  lemma LateAfter(w: Writers, row: Row)
    requires Inv(w) && NewId(w.log, row.id) && w.log != []
    ensures Late(w.log + [row], |w.log|) <==> FirstSerialized(w.log).Some?
    ensures forall k :: 0 <= k < |w.log| ==> (Late(w.log + [row], k) <==> Late(w.log, k))
  {
    var log, n := w.log, |w.log|;
    FirstsAppend(log, row);
    assert (log + [row])[n] == row;
    if FirstSerialized(log).Some? {
      var k := FirstSerializedRow(log);
      assert log[k].id <= log[n - 1].id;
    } else {
      forall k | 0 <= k < n ensures log[k].id < row.id {
        assert log[k].id <= log[n - 1].id;
      }
    }
  }

  lemma PredecessorAfter(w: Writers, row: Row)
    requires Inv(w) && w.log != [] && row.rowHash.Some? && row.details.None?
    ensures StartIndex(w.log + [row]) == StartIndex(w.log)
    ensures forall k :: StartIndex(w.log) <= k < |w.log| ==> Predecessor(w.log + [row], k) == Predecessor(w.log, k)
    ensures FirstSerialized(w.log).Some? ==> Predecessor(w.log + [row], |w.log|) == Some(HeadSeen(w.log, |w.log|))
  {
    var log, n := w.log, |w.log|;
    FirstsAppend(log, row);
    assert (log + [row])[0] == log[0];
    if FirstSerialized(log).Some? {
      var k := FirstSerializedRow(log);
      assert FirstHashed(log) <= k;
      assert WellWritten(log, n - 1);
      assert (log + [row])[n - 1] == log[n - 1];
    }
  }

  lemma AppendStale(w: Writers, row: Row)
    requires Inv(w) && NewId(w.log, row.id) && row.rowHash.Some? && row.details.None?
    ensures NoneStale(w.log + [row])
            <==> NoneStale(w.log) && (FirstSerialized(w.log).Some? ==> row.previous == Some(HeadSeen(w.log, |w.log|)))
  {
    var log, n, next := w.log, |w.log|, w.log + [row];
    assert next[n] == row;
    if log == [] {
      FirstIsNotStale(row);
      assert next == [row];
    } else {
      LateAfter(w, row);
      PredecessorAfter(w, row);
      hide Inv, Late, Predecessor, HeadSeen, StartIndex, FirstSerialized, FirstHashed, NewId;
      StartsBeforeEnd(log);
      if NoneStale(next) {
        assert Late(next, n) ==> next[n].previous == Predecessor(next, n);
        forall k | StartIndex(log) <= k < |log| && Late(log, k) ensures log[k].previous == Predecessor(log, k) {
          assert next[k] == log[k];
        }
      }
    }
  }

  lemma FirstIsNotStale(row: Row)
    requires row.rowHash.Some? && row.details.None?
    ensures NoneStale([row]) && FirstSerialized([]).None?
  {
    FirstsAppend([], row);
    assert [] + [row] == [row];
  }

  lemma StartsBeforeEnd(log: seq<Row>)
    requires log != []
    ensures StartIndex(log) <= |log|
  {
  }

  lemma {:induction false} StaleRunShows(w0: Writers, steps: seq<Step>, w: Writers)
    requires Inv(w0) && Run(w0, steps, false, w)
    ensures NoneStale(w.log) <==> NoneStale(w0.log) && !StaleRun(w0, steps)
    decreases |steps|
  {
    hide Inv, NoneStale, HeadSeen;
    if steps != [] {
      StepKeeps(w0, steps[0]);
      StaleRunShows(Apply(w0, steps[0]), steps[1..], w);
      match steps[0]
      case ReadHead(_) =>
      case AppendUnserialized(writer, id, payload) => AppendStale(w0, NewRow(id, w0.inFlight[writer], payload, false));
      case AppendSerialized(id, payload) => AppendStale(w0, NewRow(id, HeadSeen(w0.log, |w0.log|), payload, true));
    }
  }

  /** Every interleaving of unserialized and serialized writers leaves a log whose content verifies, and a true break is
      reported exactly when some step of the run was a stale append: an unserialized one, after the first serialized row,
      over a head that was no longer the newest. */
  lemma TrueBreaksAreStaleAppends(w0: Writers, steps: seq<Step>, w: Writers)
    requires Initial(w0) && Run(w0, steps, false, w) && HasChain(w.log)
    ensures Intact(w.log) <==> !StaleRun(w0, steps)
    ensures Altered(w.log[StartIndex(w.log)..]) == []
  {
    InitialInv(w0);
    RunKeeps(w0, steps, false, w);
    InvReport(w);
    StaleRunShows(w0, steps, w);
    InitiallyNoneStale(w0);
  }

  lemma InitiallyNoneStale(w: Writers)
    requires Initial(w)
    ensures NoneStale(w.log)
  {
    if |w.log| == 1 && IsAnchorRow(w.log[0]) {
      assert FirstSerialized(w.log) == Some(w.log[0].id);
    } else {
      NoneSerialized(w.log);
    }
  }

  lemma StartsAtFirstHashed(w: Writers)
    requires Inv(w) && HasChain(w.log)
    ensures StartIndex(w.log) == FirstHashed(w.log) < |w.log|
  {
  }

  lemma InvReport(w: Writers)
    requires Inv(w) && HasChain(w.log)
    ensures Intact(w.log) <==> NoStaleAppend(w.log)
    ensures Altered(w.log[StartIndex(w.log)..]) == []
  {
    StartsAtFirstHashed(w);
    forall k | StartIndex(w.log) <= k < |w.log|
      ensures Attached(w.log, k) <==> w.log[k].previous == Predecessor(w.log, k) || !Late(w.log, k)
      ensures w.log[k].rowHash == Some(Recompute(w.log[k]))
    {
      assert WellWritten(w.log, k);
      WellWrittenAttaches(w.log, k);
    }
    IntactMeans(w.log);
    NothingAltered(w.log[StartIndex(w.log)..]);
  }

  lemma {:induction false} NothingAltered(rows: seq<Row>)
    requires forall row :: row in rows ==> row.rowHash == Some(Recompute(row))
    ensures Altered(rows) == []
  {
    if rows != [] {
      assert rows[0] in rows;
      NothingAltered(rows[1..]);
    }
  }

  // ----- a clean switch to the serialized trigger -----

  /** Once a row is serialized, no unserialized writer is in flight and every later row is serialized. */
  ghost predicate Switched(w: Writers) {
    && (FirstSerialized(w.log).Some? ==> w.inFlight == [])
    && (forall k :: 0 <= k < |w.log| && Late(w.log, k) ==> w.log[k].serialized)
  }

  lemma CleanStepKeeps(w: Writers, step: Step)
    requires Inv(w) && Switched(w) && Enabled(w, step) && CleanSwitch(w, step)
    ensures Switched(Apply(w, step))
  {
    var w' := Apply(w, step);
    if !step.ReadHead? {
      var row := w'.log[|w.log|];
      FirstsAppend(w.log, row);
      assert w'.log == w.log + [row];
      forall k | 0 <= k < |w'.log| && Late(w'.log, k) ensures w'.log[k].serialized {
        if k < |w.log| {
          assert w'.log[k] == w.log[k];
          assert FirstSerialized(w.log).Some? ==> Late(w.log, k);
        }
      }
    }
  }

  lemma {:induction false} CleanRunKeeps(w0: Writers, steps: seq<Step>, w: Writers)
    requires Inv(w0) && Switched(w0) && Run(w0, steps, true, w)
    ensures Inv(w) && Switched(w)
    decreases |steps|
  {
    if steps != [] {
      StepKeeps(w0, steps[0]);
      CleanStepKeeps(w0, steps[0]);
      CleanRunKeeps(Apply(w0, steps[0]), steps[1..], w);
    }
  }

  lemma InitialSwitched(w: Writers)
    requires Initial(w)
    ensures Switched(w)
  {
    if |w.log| == 1 && IsAnchorRow(w.log[0]) {
      assert FirstSerialized(w.log) == Some(w.log[0].id);
    } else {
      NoneSerialized(w.log);
    }
  }

  lemma {:induction false} NoneSerialized(log: seq<Row>)
    requires forall k :: 0 <= k < |log| ==> !log[k].serialized
    ensures FirstSerialized(log).None?
  {
    if log != [] {
      NoneSerialized(log[1..]);
    }
  }

  lemma SwitchedReport(w: Writers)
    requires Inv(w) && Switched(w) && HasChain(w.log)
    ensures Intact(w.log)
    ensures (forall k :: FirstHashed(w.log) <= k < |w.log| ==> w.log[k].serialized) ==> Unforked(w.log)
  {
    StartsAtFirstHashed(w);
    forall k | StartIndex(w.log) <= k < |w.log|
      ensures Late(w.log, k) || w.log[k].serialized ==> w.log[k].previous == Predecessor(w.log, k)
    {
      assert WellWritten(w.log, k);
    }
    InvReport(w);
    IntactMeans(w.log);
    UnforkedMeans(w.log);
  }

  /** No false alarm: every run of unserialized writers, then serialized ones with none in flight at the switch, is
      reported without content mismatch and without true break; when every hashed row is serialized, without forks. */
  lemma CleanRunsAreIntact(w0: Writers, steps: seq<Step>, w: Writers)
    requires Initial(w0) && Run(w0, steps, true, w) && HasChain(w.log)
    ensures Intact(w.log)
    ensures (forall k :: FirstHashed(w.log) <= k < |w.log| ==> w.log[k].serialized) ==> Unforked(w.log)
  {
    InitialInv(w0);
    InitialSwitched(w0);
    CleanRunKeeps(w0, steps, w);
    SwitchedReport(w);
  }
}
