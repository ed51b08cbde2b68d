/** `app/services/evidence_import_decision_logs.py`: what an import does to a session, and which runs of imports
    `DecisionLog.CheckSession` reports. One clock stands for the transaction time and `datetime.now`. */
module DecisionImports {
  import opened Records
  import opened DecisionLog

  datatype Authority = System | Store | Admin | Member

  /** An import: its entries parsed, `sha` the digest of its bytes, `ownFile` whether the source path names this session. */
  datatype Upload = Upload(
    authority: Authority,
    entries: seq<LogEntry>,
    sha: string,
    sourcePath: string,
    ownFile: bool,
    sourceCommit: Option<string>,
    storeObject: Option<string>,
    submittedBy: Option<string>,
    at: int)

  /** The session row. */
  datatype Record = Record(
    submittedBy: Option<string>,
    repositoryEntries: Option<nat>,
    contentSha: Option<string>,
    conflictAt: Option<int>,
    transcriptPath: string)

  /** A session's row, if it exists, with its versions, their audit history and its stored entries. */
  datatype State = State(record: Option<Record>, log: Session)

  const SUPERSEDED_REASON := "superseded by a longer export that extends it"
  const CONFLICT_REASON := CONFLICT_PREFIX + " the previous version is kept as a superseded version"

  predicate Given(text: Option<string>) {
    text.Some? && text.value != ""
  }

  predicate FromSource(u: Upload) {
    u.authority == System || u.authority == Store
  }

  /** An import that raises no ValueError. */
  predicate Acceptable(u: Upload) {
    && (u.authority == Store <==> Given(u.storeObject))
    && (u.authority == Member ==> Given(u.submittedBy))
    && ((u.authority == Store || (u.authority == System && u.sourceCommit.Some?)) ==> u.sourcePath != "" && u.ownFile)
  }

  // ----- what an import decides -----

  /** `_Comparison.difference`: the first position below both lengths where the entries differ. */
  function Difference(stored: seq<LogEntry>, entries: seq<LogEntry>, from: nat := 0): (d: Option<nat>)
    requires from <= |stored|
    ensures d.Some? ==> from <= d.value < |stored| && d.value < |entries| && stored[d.value] != entries[d.value]
    ensures forall i :: from <= i < |stored| && i < |entries| && (d.Some? ==> i < d.value) ==> stored[i] == entries[i]
    decreases |stored| - from
  {
    if from >= |stored| || from >= |entries| then None
    else if stored[from] != entries[from] then Some(from)
    else Difference(stored, entries, from + 1)
  }

  predicate HasCurrent(log: Session) {
    exists v :: v in log.versions && v.status == Current
  }

  function RepositoryEntries(r: Record, stored: nat): nat {
    if r.repositoryEntries.Some? then (if r.repositoryEntries.value < stored then r.repositoryEntries.value else stored)
    else if r.submittedBy.None? then stored
    else 0
  }

  predicate RepositoryWins(st: State, r: Record, u: Upload) {
    var stored, difference := |st.log.stored|, Difference(st.log.stored, u.entries);
    var repository :=
      if r.repositoryEntries.None? && !HasCurrent(st.log) then 0 else RepositoryEntries(r, stored);
    if difference.Some? then difference.value >= repository
    else |u.entries| < stored && |u.entries| >= repository
  }

  predicate MayExtend(r: Record, u: Upload) {
    u.authority != Member || (r.submittedBy.Some? && r.submittedBy == u.submittedBy && r.conflictAt.None?)
  }

  /** An entry appended from position `from` on predates a stored one. */
  predicate Backdated(stored: seq<LogEntry>, entries: seq<LogEntry>, from: nat) {
    exists i, j :: from <= i < |entries| && 0 <= j < |stored| && entries[i].stamp.Some? && stored[j].stamp.Some?
                   && entries[i].stamp.value < stored[j].stamp.value
  }

  datatype Decision = Refuse | Create | Keep | Reject | Adopt | Baseline | Extend | Describe

  function Decide(st: State, u: Upload): Decision {
    if !Acceptable(u) then Refuse
    else if st.record.None? then Create
    else
      var r, stored, difference := st.record.value, |st.log.stored|, Difference(st.log.stored, u.entries);
      var unbaselined := FromSource(u) && !HasCurrent(st.log);
      if r.contentSha == Some(u.sha) && !unbaselined then Keep
      else if u.authority == System && RepositoryWins(st, r, u) then Adopt
      else if difference.None? && unbaselined && |u.entries| == stored then Baseline
      else if difference.Some? then Reject
      else if |u.entries| > stored then
        if !MayExtend(r, u) then Reject
        else if !FromSource(u) && RepositoryEntries(r, stored) > 0 then Reject
        else if !FromSource(u) && Backdated(st.log.stored, u.entries, stored) then Reject
        else Extend
      else if |u.entries| == stored && r.contentSha.None? && MayExtend(r, u) && u.authority != Store then Describe
      else Keep
  }

  // ----- what an import writes -----

  function Imported(u: Upload): Version {
    Version(Current, |u.entries|, Some(EntriesDigest(u.entries)), None, "", u.sourcePath, u.submittedBy,
            if u.authority == Store then u.storeObject else None, if u.authority == Store then "ingested" else "")
  }

  function Inserted(v: Version, at: int): Event {
    Event(Insert, v.status, v.digest, Some(v.entryCount), v.content, at)
  }

  function SupersededVersion(v: Version, stored: seq<LogEntry>, reason: string): Version {
    v.(status := Superseded, content := Some(Reconstruction(stored)), reason := reason,
       digest := if v.digest.None? then Some(EntriesDigest(stored)) else v.digest)
  }

  /** `_supersede_current`. */
  function SupersedeCurrent(log: Session, r: Record, reason: string, at: int): (next: Session)
    requires |log.history| == |log.versions|
    ensures |next.history| == |next.versions|
  {
    if HasCurrent(log) then
      log.(versions := seq(|log.versions|, i requires 0 <= i < |log.versions| =>
                             if log.versions[i].status == Current then SupersededVersion(log.versions[i], log.stored, reason)
                             else log.versions[i]),
           history := seq(|log.versions|, i requires 0 <= i < |log.versions| =>
                            if log.versions[i].status == Current
                            then log.history[i] + [Inserted(SupersededVersion(log.versions[i], log.stored, reason), at).(change := Update)]
                            else log.history[i]))
    else
      var v := Version(Superseded, |log.stored|, Some(EntriesDigest(log.stored)), Some(Reconstruction(log.stored)),
                       reason, r.transcriptPath, r.submittedBy, None, "");
      log.(versions := log.versions + [v], history := log.history + [[Inserted(v, at)]])
  }

  /** The import's version becomes the current one, with its entries stored. */
  function Add(log: Session, u: Upload): (next: Session)
    requires |log.history| == |log.versions|
    ensures |next.history| == |next.versions|
  {
    log.(versions := log.versions + [Imported(u)], history := log.history + [[Inserted(Imported(u), u.at)]], stored := u.entries)
  }

  /** The current version is superseded and the import's takes its place; `conflict` holds the time of a conflict. */
  function Advance(log: Session, r: Record, reason: string, u: Upload, conflict: set<int>): (next: Session)
    requires |log.history| == |log.versions|
    ensures |next.history| == |next.versions|
  {
    Add(SupersedeCurrent(log, r, reason, u.at).(conflictTimes := log.conflictTimes + conflict), u)
  }

  /** The session's path after an import that replaces its metadata or only fills it in. */
  function Path(r: Record, u: Upload, replace: bool): string {
    if u.sourcePath != "" && (replace || r.transcriptPath == "") then u.sourcePath else r.transcriptPath
  }

  /** How many leading stored entries an extension leaves the source credited with. */
  function Supplied(st: State, r: Record, u: Upload): nat {
    if FromSource(u) then |u.entries| else RepositoryEntries(r, |st.log.stored|)
  }

  /** The session row after the import. */
  function NextRecord(st: State, u: Upload): Option<Record> {
    var d := Decide(st, u);
    if d == Create then
      Some(Record(u.submittedBy, Some(if FromSource(u) then |u.entries| else 0), Some(u.sha), None, u.sourcePath))
    else if st.record.None? then None
    else
      var r := st.record.value;
      if d == Baseline then Some(r.(repositoryEntries := Some(|st.log.stored|), contentSha := Some(u.sha)))
      else if d == Extend then
        Some(Record(r.submittedBy, Some(Supplied(st, r, u)), Some(u.sha), r.conflictAt, Path(r, u, u.authority == Admin)))
      else if d == Adopt then Some(Record(u.submittedBy, Some(|u.entries|), Some(u.sha), Some(u.at), Path(r, u, true)))
      else if d == Describe then
        Some(r.(contentSha := Some(u.sha),
                repositoryEntries := if u.authority == System then Some(|st.log.stored|) else r.repositoryEntries))
      else Some(r)
  }

  /** The versions, their history and the stored entries after the import. */
  function NextLog(st: State, u: Upload): (next: Session)
    requires |st.log.history| == |st.log.versions|
    ensures |next.history| == |next.versions|
  {
    var d := Decide(st, u);
    if d == Create || d == Baseline then Add(st.log, u)
    else if d == Extend then Advance(st.log, st.record.value, SUPERSEDED_REASON, u, {})
    else if d == Adopt then Advance(st.log, st.record.value, CONFLICT_REASON, u, {u.at})
    else st.log
  }

  /** `_import`. */
  function Import(st: State, u: Upload): (next: State)
    requires |st.log.history| == |st.log.versions|
    ensures |next.log.history| == |next.log.versions|
  {
    State(NextRecord(st, u), NextLog(st, u))
  }

  // ----- runs -----

  function Run(st: State, us: seq<Upload>): State
    requires |st.log.history| == |st.log.versions|
    decreases |us|
  {
    if us == [] then st else Run(Import(st, us[0]), us[1..])
  }

  /** A repository conflict the verifier can trace: a file of the repository, no submitter, and, where the audit log is
      checked, a current version to supersede. */
  predicate Traceable(st: State, u: Upload) {
    u.sourcePath != "" && u.submittedBy.None? && (st.log.postgres ==> HasCurrent(st.log))
  }

  predicate TraceableRun(st: State, us: seq<Upload>)
    requires |st.log.history| == |st.log.versions|
    decreases |us|
  {
    us == [] || ((Decide(st, us[0]) == Adopt ==> Traceable(st, us[0])) && TraceableRun(Import(st, us[0]), us[1..]))
  }

  // ----- what every import keeps -----

  predicate InsertedAs(v: Version, events: seq<Event>) {
    events != [] && events[0] == Inserted(v, events[0].at)
  }

  /** A current version as its import wrote it. */
  predicate CurrentOk(v: Version, events: seq<Event>) {
    v.status == Current && |events| == 1 && InsertedAs(v, events)
  }

  /** A superseded version: written as current and superseded once, or, first of all, written as superseded. */
  predicate SupersededOk(v: Version, first: bool, events: seq<Event>) {
    && v.status == Superseded && v.content.Some? && v.reason != "" && events != []
    && events[0].change == Insert && events[0].digest == v.digest && events[0].count == Some(v.entryCount)
    && var last := events[|events| - 1];
    && last.status == Superseded && last.content == v.content
    && (if |events| == 1 then first else |events| == 2 && events[0].status == Current && last.change == Update)
  }

  predicate StepKept(log: Session, i: nat)
    requires |log.history| == |log.versions| && i < |log.versions| - 1
  {
    if ClaimsConflict(log.versions[i])
    then CreatedAt(log.history[i + 1]).Some? && CreatedAt(log.history[i + 1]).value in log.conflictTimes
    else EntriesOf(log.versions[i]) <= EntriesOf(log.versions[i + 1])
  }

  predicate VersionKept(log: Session, i: nat)
    requires |log.history| == |log.versions| && i < |log.versions|
  {
    var v := log.versions[i];
    && HoldsEntries(v) && (v.storeObject.Some? ==> v.objectStatus == "ingested")
    && (if i == |log.versions| - 1 then CurrentOk(v, log.history[i]) else SupersededOk(v, i == 0, log.history[i]))
  }

  /** Every state of every run: whether the session exists, is restored without versions, or has a history. */
  predicate Kept(st: State) {
    && |st.log.history| == |st.log.versions|
    && (st.record.None? ==> st.log.versions == [])
    && (forall i :: 0 <= i < |st.log.versions| ==> VersionKept(st.log, i))
    && (forall i :: 0 <= i < |st.log.versions| - 1 ==> StepKept(st.log, i))
    && (st.log.versions != [] ==> EntriesOf(st.log.versions[|st.log.versions| - 1]) == st.log.stored)
  }

  /** No step of the history is a repository conflict the verifier cannot trace. */
  predicate Clean(log: Session) {
    WellFormed(log) && forall i :: 0 <= i < |log.versions| - 1 ==> StepIssue(log, i).None?
  }

  lemma KeptHasCurrent(st: State)
    requires Kept(st)
    ensures HasCurrent(st.log) <==> st.log.versions != []
  {
    if st.log.versions != [] {
      var n := |st.log.versions| - 1;
      assert VersionKept(st.log, n);
      assert st.log.versions[n] in st.log.versions;
    }
  }

  lemma KeptIsWellFormed(st: State)
    requires Kept(st) && st.log.versions != []
    ensures WellFormed(st.log)
  {
    forall i | 0 <= i < |st.log.versions|
      ensures st.log.versions[i].status != OtherStatus
    {
      assert VersionKept(st.log, i);
    }
  }

  // ----- the verifier on a kept state -----

  lemma {:induction false} NoneCurrent(versions: seq<Version>)
    requires forall i :: 0 <= i < |versions| ==> versions[i].status != Current
    ensures Currents(versions) == 0
  {
    if versions != [] {
      NoneCurrent(versions[..|versions| - 1]);
    }
  }

  lemma KeptIsComparable(st: State)
    requires Kept(st) && st.log.versions != [] && WellFormed(st.log)
    ensures Comparable(st.log)
  {
    var n := |st.log.versions| - 1;
    forall i | 0 <= i < n
      ensures st.log.versions[i].status != Current
    {
      assert VersionKept(st.log, i);
    }
    NoneCurrent(st.log.versions[..n]);
    assert VersionKept(st.log, n);
  }

  lemma {:induction false} EntriesGrow(st: State, from: nat, i: nat, j: nat)
    requires Kept(st) && WellFormed(st.log) && Clean(st.log)
    requires from == AfterLastConflict(st.log, |st.log.versions| - 1) && from <= i <= j < |st.log.versions|
    ensures EntriesOf(st.log.versions[i]) <= EntriesOf(st.log.versions[j])
    decreases j
  {
    if i < j {
      EntriesGrow(st, from, i, j - 1);
      assert !Genuine(st.log, j - 1);
      assert StepKept(st.log, j - 1);
    }
  }

  lemma KeptGrows(st: State, from: nat)
    requires Kept(st) && st.log.versions != [] && WellFormed(st.log) && Clean(st.log)
    requires from == AfterLastConflict(st.log, |st.log.versions| - 1)
    ensures Grows(st.log, from)
  {
    forall i | from <= i < |st.log.versions|
      ensures HoldsEntries(st.log.versions[i])
    {
      assert VersionKept(st.log, i);
    }
    forall i, j | from <= i <= j < |st.log.versions|
      ensures EntriesOf(st.log.versions[i]) <= EntriesOf(st.log.versions[j])
    {
      EntriesGrow(st, from, i, j);
    }
  }

  lemma KeptHistory(st: State, i: nat, kind: Kind)
    requires Kept(st) && i < |st.log.versions|
    ensures !HistoryRaises(st.log.versions[i], i == 0, st.log.history[i], kind)
  {
    assert VersionKept(st.log, i);
  }

  lemma BeforeConflictCounts(st: State, i: nat)
    requires Kept(st) && WellFormed(st.log) && Clean(st.log) && 0 < i < |st.log.versions|
    ensures !Raises(st.log, i, CountDecreased)
  {
    assert StepKept(st.log, i - 1) && VersionKept(st.log, i - 1) && VersionKept(st.log, i);
    assert StepIssue(st.log, i - 1).None?;
  }

  lemma CleanIsUnreported(st: State, i: nat, kind: Kind)
    requires Kept(st) && WellFormed(st.log) && Clean(st.log) && i < |st.log.versions|
    ensures !Raises(st.log, i, kind)
  {
    hide Kept, WellFormed, HistoryRaises, AfterLastConflict, Genuine, StepIssue, Grows, Currents, IsPrefix;
    KeptIsComparable(st);
    if Pass(kind) == 0 || Pass(kind) == 2 {
      assert Clean(st.log);
    } else if Pass(kind) == 1 {
      KeptHistory(st, i, kind);
    } else if Pass(kind) == 3 {
      KeptContents(st, i);
    } else if kind == CountDecreased {
      if i > 0 {
        BeforeConflictCounts(st, i);
      }
    } else {
      KeptEntries(st, i);
    }
  }

  lemma KeptContents(st: State, i: nat)
    requires Kept(st) && WellFormed(st.log) && i < |st.log.versions|
    ensures !Raises(st.log, i, NoContentOrReason) && !Raises(st.log, i, NotImported)
  {
    assert VersionKept(st.log, i);
  }

  lemma KeptEntries(st: State, i: nat)
    requires Kept(st) && WellFormed(st.log) && Clean(st.log) && Comparable(st.log) && i < |st.log.versions|
    ensures !Raises(st.log, i, NotAPrefix) && !Raises(st.log, i, TooLong) && !Raises(st.log, i, StoredDiffer)
  {
    var from := AfterLastConflict(st.log, |st.log.versions| - 1);
    KeptGrows(st, from);
    GrowsUnreported(st.log, from);
    hide Grows, Currents, Kept, Clean, IsPrefix, Genuine;
    if i >= from {
      assert !Reported(st.log, i);
    }
  }

  lemma UnreportedIffClean(st: State)
    requires Kept(st) && WellFormed(st.log)
    ensures Unreported(st.log) <==> Clean(st.log)
  {
    if Clean(st.log) {
      forall i, kind | 0 <= i < |st.log.versions|
        ensures !Raises(st.log, i, kind)
      {
        CleanIsUnreported(st, i, kind);
      }
    } else {
      var i :| 0 <= i < |st.log.versions| - 1 && StepIssue(st.log, i).Some?;
      assert Raises(st.log, i, StepIssue(st.log, i).value);
    }
  }

  // ----- one import -----

  lemma {:induction false} NoDifference(stored: seq<LogEntry>, entries: seq<LogEntry>)
    requires Difference(stored, entries).None? && |stored| <= |entries|
    ensures stored <= entries
  {
  }

  lemma SupersedeFirst(st: State, r: Record, reason: string, at: int)
    requires Kept(st) && st.log.versions == [] && reason != ""
    ensures var log := SupersedeCurrent(st.log, r, reason, at);
            && |log.versions| == 1 && HoldsEntries(log.versions[0]) && EntriesOf(log.versions[0]) == st.log.stored
            && log.versions[0].storeObject.None? && log.versions[0].reason == reason
            && SupersededOk(log.versions[0], true, log.history[0]) && SupersededAt(log.history[0]).None?
  {
  }

  lemma SupersedeLast(st: State, r: Record, reason: string, at: int)
    requires Kept(st) && st.log.versions != [] && reason != ""
    ensures var log, n := SupersedeCurrent(st.log, r, reason, at), |st.log.versions| - 1;
            && |log.versions| == n + 1 && log.versions[..n] == st.log.versions[..n] && log.history[..n] == st.log.history[..n]
            && log.versions[n] == SupersededVersion(st.log.versions[n], st.log.stored, reason)
            && log.history[n] == st.log.history[n] + [Inserted(log.versions[n], at).(change := Update)]
  {
    KeptHasCurrent(st);
    var log, n := SupersedeCurrent(st.log, r, reason, at), |st.log.versions| - 1;
    assert VersionKept(st.log, n);
    forall i | 0 <= i < n
      ensures log.versions[i] == st.log.versions[i] && log.history[i] == st.log.history[i]
    {
      assert VersionKept(st.log, i);
    }
    assert log.versions[..n] == st.log.versions[..n];
    assert log.history[..n] == st.log.history[..n];
  }

  /** What `Advance` is asked to do: replace the entries for a conflict, or append to them. */
  predicate Advances(st: State, u: Upload, reason: string, conflict: set<int>) {
    if CONFLICT_PREFIX <= reason then conflict == {u.at} && u.authority == System
    else reason != "" && st.log.stored <= u.entries
  }

  lemma AdvanceFirst(st: State, r: Record, reason: string, u: Upload, conflict: set<int>)
    requires Kept(st) && st.log.versions == [] && Advances(st, u, reason, conflict) && Acceptable(u)
    ensures var log := Advance(st.log, r, reason, u, conflict);
            && Kept(State(Some(r), log)) && WellFormed(log)
            && (Clean(log) <==> (CONFLICT_PREFIX <= reason ==> Traceable(st, u)))
  {
    KeptHasCurrent(st);
    SupersedeFirst(st, r, reason, u.at);
    hide SupersedeCurrent, Acceptable;
    var log := Advance(st.log, r, reason, u, conflict);
    assert StepKept(log, 0) && VersionKept(log, 0) && VersionKept(log, 1);
    assert StepIssue(log, 0).None? <==> (CONFLICT_PREFIX <= reason ==> Traceable(st, u));
  }

  lemma AdvanceShape(st: State, r: Record, reason: string, u: Upload, conflict: set<int>)
    requires Kept(st) && st.log.versions != [] && Advances(st, u, reason, conflict)
    ensures var log, n := Advance(st.log, r, reason, u, conflict), |st.log.versions| - 1;
            && |log.versions| == n + 2
            && (forall i :: 0 <= i < n ==> log.versions[i] == st.log.versions[i] && log.history[i] == st.log.history[i])
            && log.versions[n] == SupersededVersion(st.log.versions[n], st.log.stored, reason)
            && log.history[n] == st.log.history[n] + [Inserted(log.versions[n], u.at).(change := Update)]
            && log.versions[n + 1] == Imported(u) && log.history[n + 1] == [Inserted(Imported(u), u.at)]
            && log.conflictTimes == st.log.conflictTimes + conflict && log.postgres == st.log.postgres && log.stored == u.entries
  {
    SupersedeLast(st, r, reason, u.at);
    var log, n := SupersedeCurrent(st.log, r, reason, u.at), |st.log.versions| - 1;
    forall i | 0 <= i < n
      ensures log.versions[i] == st.log.versions[i] && log.history[i] == st.log.history[i]
    {
      assert log.versions[i] == log.versions[..n][i] && log.history[i] == log.history[..n][i];
    }
  }

  lemma AdvanceVersions(st: State, r: Record, reason: string, u: Upload, conflict: set<int>, i: nat)
    requires Kept(st) && st.log.versions != [] && Advances(st, u, reason, conflict) && i < |st.log.versions| + 1
    ensures VersionKept(Advance(st.log, r, reason, u, conflict), i)
  {
    AdvanceShape(st, r, reason, u, conflict);
    hide Advance, HasCurrent;
    if i < |st.log.versions| {
      assert VersionKept(st.log, i);
    }
  }

  lemma AdvanceEarlierSteps(st: State, r: Record, reason: string, u: Upload, conflict: set<int>, i: nat)
    requires Kept(st) && Advances(st, u, reason, conflict) && i < |st.log.versions| - 1
    ensures StepKept(Advance(st.log, r, reason, u, conflict), i)
  {
    AdvanceShape(st, r, reason, u, conflict);
    hide Advance, HasCurrent, Advances;
    assert VersionKept(st.log, |st.log.versions| - 1);
    assert StepKept(st.log, i);
  }

  lemma AdvanceLastStep(st: State, r: Record, reason: string, u: Upload, conflict: set<int>)
    requires Kept(st) && st.log.versions != [] && Advances(st, u, reason, conflict)
    ensures StepKept(Advance(st.log, r, reason, u, conflict), |st.log.versions| - 1)
  {
    AdvanceShape(st, r, reason, u, conflict);
    hide Advance, HasCurrent;
    assert VersionKept(st.log, |st.log.versions| - 1);
  }

  lemma AdvanceIssue(st: State, r: Record, reason: string, u: Upload, conflict: set<int>)
    requires Kept(st) && st.log.versions != [] && Advances(st, u, reason, conflict)
    requires WellFormed(Advance(st.log, r, reason, u, conflict))
    ensures StepIssue(Advance(st.log, r, reason, u, conflict), |st.log.versions| - 1).None?
            <==> (CONFLICT_PREFIX <= reason ==> Traceable(st, u))
  {
    KeptHasCurrent(st);
    AdvanceShape(st, r, reason, u, conflict);
    hide Advance, HasCurrent;
    assert VersionKept(st.log, |st.log.versions| - 1);
  }

  lemma AdvanceKeepsIssue(st: State, r: Record, reason: string, u: Upload, conflict: set<int>, i: nat)
    requires Kept(st) && WellFormed(st.log) && Advances(st, u, reason, conflict) && i < |st.log.versions| - 1
    requires WellFormed(Advance(st.log, r, reason, u, conflict))
    ensures StepIssue(Advance(st.log, r, reason, u, conflict), i) == StepIssue(st.log, i)
  {
    AdvanceShape(st, r, reason, u, conflict);
    hide Advance, HasCurrent;
    assert StepKept(st.log, i);
    assert VersionKept(st.log, |st.log.versions| - 1);
  }

  lemma AdvanceKeeps(st: State, r: Record, reason: string, u: Upload, conflict: set<int>)
    requires Kept(st) && st.log.versions != [] && Advances(st, u, reason, conflict)
    ensures var log := Advance(st.log, r, reason, u, conflict);
            && Kept(State(Some(r), log)) && WellFormed(log)
            && (Clean(log) <==> Clean(st.log) && (CONFLICT_PREFIX <= reason ==> Traceable(st, u)))
  {
    var log, n := Advance(st.log, r, reason, u, conflict), |st.log.versions|;
    KeptIsWellFormed(st);
    AdvanceShape(st, r, reason, u, conflict);
    hide Advance, Advances, HasCurrent, StepIssue, VersionKept, StepKept, Traceable;
    forall i | 0 <= i < n + 1
      ensures VersionKept(log, i)
    {
      AdvanceVersions(st, r, reason, u, conflict, i);
    }
    forall i | 0 <= i < n
      ensures StepKept(log, i)
    {
      if i < n - 1 {
        AdvanceEarlierSteps(st, r, reason, u, conflict, i);
      } else {
        AdvanceLastStep(st, r, reason, u, conflict);
      }
    }
    KeptIsWellFormed(State(Some(r), log));
    forall i | 0 <= i < n - 1
      ensures StepIssue(log, i) == StepIssue(st.log, i)
    {
      AdvanceKeepsIssue(st, r, reason, u, conflict, i);
    }
    AdvanceIssue(st, r, reason, u, conflict);
  }

  // ----- every import, every run -----

  predicate CleanSoFar(log: Session) {
    log.versions == [] || Clean(log)
  }

  lemma AddFirst(st: State, u: Upload, r: Record)
    requires Kept(st) && st.log.versions == []
    ensures Kept(State(Some(r), Add(st.log, u))) && CleanSoFar(Add(st.log, u))
  {
    var log := Add(st.log, u);
    assert VersionKept(log, 0);
    KeptIsWellFormed(State(Some(r), log));
  }

  lemma Advanced(st: State, r: Record, reason: string, u: Upload, conflict: set<int>, record: Record)
    requires Kept(st) && Advances(st, u, reason, conflict) && Acceptable(u)
    ensures var log := Advance(st.log, r, reason, u, conflict);
            && Kept(State(Some(record), log)) && log.versions != []
            && (CleanSoFar(log) <==> CleanSoFar(st.log) && (CONFLICT_PREFIX <= reason ==> Traceable(st, u)))
  {
    hide Advances, StepIssue, Traceable, Acceptable;
    if st.log.versions == [] {
      AdvanceFirst(st, r, reason, u, conflict);
    } else {
      AdvanceKeeps(st, r, reason, u, conflict);
    }
  }

  lemma AdoptAdvances(st: State, u: Upload)
    requires Decide(st, u) == Adopt
    ensures Acceptable(u) && Advances(st, u, CONFLICT_REASON, {u.at}) && CONFLICT_PREFIX <= CONFLICT_REASON
  {
  }

  lemma ExtendAdvances(st: State, u: Upload)
    requires Decide(st, u) == Extend
    ensures Acceptable(u) && Advances(st, u, SUPERSEDED_REASON, {}) && !(CONFLICT_PREFIX <= SUPERSEDED_REASON)
  {
    assert SUPERSEDED_REASON[19] == 'g' && CONFLICT_PREFIX[19] == ':';
    NoDifference(st.log.stored, u.entries);
  }

  lemma CreatesFirst(st: State, u: Upload)
    requires Kept(st) && (Decide(st, u) == Create || Decide(st, u) == Baseline)
    ensures st.log.versions == []
  {
    KeptHasCurrent(st);
  }

  lemma RecordStays(st: State, u: Upload)
    ensures NextRecord(st, u).None? ==> st.record.None? && Decide(st, u) == Refuse
    ensures Decide(st, u) == Extend || Decide(st, u) == Adopt ==> st.record.Some?
  {
  }

  /** One import keeps the invariant, and leaves the history clean exactly when it was and a conflict is traceable. */
  lemma ImportKeeps(st: State, u: Upload)
    requires Kept(st)
    ensures Kept(Import(st, u))
    ensures CleanSoFar(Import(st, u).log) <==> CleanSoFar(st.log) && (Decide(st, u) == Adopt ==> Traceable(st, u))
  {
    RecordStays(st, u);
    var d, next := Decide(st, u), Import(st, u);
    hide Decide, NextRecord, Clean, Advance, Add, Traceable, VersionKept, StepKept;
    if d == Create || d == Baseline {
      CreatesFirst(st, u);
      AddFirst(st, u, next.record.value);
    } else if d == Extend {
      ExtendAdvances(st, u);
      Advanced(st, st.record.value, SUPERSEDED_REASON, u, {}, next.record.value);
    } else if d == Adopt {
      AdoptAdvances(st, u);
      Advanced(st, st.record.value, CONFLICT_REASON, u, {u.at}, next.record.value);
    }
  }

  lemma {:induction false} RunKeeps(st: State, us: seq<Upload>)
    requires Kept(st)
    ensures Kept(Run(st, us))
    ensures CleanSoFar(Run(st, us).log) <==> CleanSoFar(st.log) && TraceableRun(st, us)
    decreases |us|
  {
    if us != [] {
      ImportKeeps(st, us[0]);
      RunKeeps(Import(st, us[0]), us[1..]);
    }
  }

  /** A session that does not exist yet, or one restored with its row and entries and no versions. */
  predicate Initial(st: State) {
    st.log.versions == [] && st.log.history == []
  }

  /** The verifier reports nothing after a run of imports exactly when every repository conflict in it is traceable. */
  lemma RunUnreportedIffTraceable(st: State, us: seq<Upload>)
    requires Initial(st) && Run(st, us).log.versions != []
    ensures WellFormed(Run(st, us).log)
    ensures Unreported(Run(st, us).log) <==> TraceableRun(st, us)
  {
    RunKeeps(st, us);
    KeptIsWellFormed(Run(st, us));
    UnreportedIffClean(Run(st, us));
  }

  lemma {:induction false} CreatedRunIsTraceable(st: State, us: seq<Upload>)
    requires Kept(st) && (st.record.Some? ==> st.log.versions != [])
    requires forall i :: 0 <= i < |us| && us[i].authority == System ==> us[i].sourcePath != "" && us[i].submittedBy.None?
    ensures TraceableRun(st, us)
    decreases |us|
  {
    if us != [] {
      KeptHasCurrent(st);
      ImportKeeps(st, us[0]);
      assert Import(st, us[0]).log.versions != [] || Import(st, us[0]).record.None?;
      CreatedRunIsTraceable(Import(st, us[0]), us[1..]);
    }
  }

  /** No run of a session created by the portal is reported when every repository import in it names its file and no
      submitter, as a git sync does. */
  lemma CreatedRunIsUnreported(st: State, us: seq<Upload>)
    requires st.record.None? && Initial(st) && Run(st, us).log.versions != []
    requires forall i :: 0 <= i < |us| && us[i].authority == System ==> us[i].sourcePath != "" && us[i].submittedBy.None?
    ensures WellFormed(Run(st, us).log) && Unreported(Run(st, us).log)
  {
    CreatedRunIsTraceable(st, us);
    RunUnreportedIffTraceable(st, us);
  }

  lemma {:induction false} RunKeepsDialect(st: State, us: seq<Upload>)
    requires |st.log.history| == |st.log.versions|
    ensures Run(st, us).log.postgres == st.log.postgres
    decreases |us|
  {
    if us != [] {
      hide Decide;
      RunKeepsDialect(Import(st, us[0]), us[1..]);
    }
  }

  lemma KeptIsAudited(st: State, t: Session)
    requires Kept(st) && st.log.versions != [] && WellFormed(t) && t.postgres && t.history == st.log.history
    requires forall i :: 0 <= i < |t.versions| ==> Recorded(t.versions[i].digest)
    ensures Audited(t)
  {
    forall i | 0 <= i < |t.versions|
      ensures t.history[i] != [] && t.history[i][0].count.Some?
      ensures i == |t.versions| - 1 ==> |t.history[i]| == 1 && t.history[i][0].status == Current
    {
      assert VersionKept(st.log, i);
    }
  }

  lemma KeptIsRecorded(st: State)
    requires Kept(st)
    ensures forall i :: 0 <= i < |st.log.versions| ==> Recorded(st.log.versions[i].digest)
  {
    forall i | 0 <= i < |st.log.versions|
      ensures Recorded(st.log.versions[i].digest)
    {
      assert VersionKept(st.log, i);
    }
  }

  /** Tamper evidence of a run: whatever the stored entries and versions are made to say afterwards, the audit history being
      the run's, the verifier reports it or finds unrecorded digests, unless the entries and what the versions record of
      them are the run's. */
  lemma RunIsTamperEvident(st: State, us: seq<Upload>, t: Session)
    requires Initial(st) && st.log.postgres && Run(st, us).log.versions != [] && TraceableRun(st, us)
    requires WellFormed(t) && t.postgres && t.history == Run(st, us).log.history
    requires Unreported(t) && forall i :: 0 <= i < |t.versions| ==> Recorded(t.versions[i].digest)
    ensures var log := Run(st, us).log;
            && t.stored == log.stored && |t.versions| == |log.versions|
            && forall i :: 0 <= i < |t.versions| ==>
                 && t.versions[i].status == log.versions[i].status && t.versions[i].entryCount == log.versions[i].entryCount
                 && t.versions[i].digest == log.versions[i].digest
                 && (i < |t.versions| - 1 ==> t.versions[i].content == log.versions[i].content)
  {
    hide Unreported, Audited, WellFormed, Recorded;
    var end := Run(st, us);
    RunUnreportedIffTraceable(st, us);
    RunKeeps(st, us);
    RunKeepsDialect(st, us);
    hide Kept, TraceableRun, Run;
    KeptIsRecorded(end);
    KeptIsAudited(end, end.log);
    KeptIsAudited(end, t);
    HistoryFixesSession(end.log, t);
  }

  // ----- what a source supplied stays -----

  /** The session's row says how many leading stored entries a source supplied. */
  predicate Credited(st: State) {
    && |st.log.history| == |st.log.versions|
    && st.record.Some? && st.record.value.repositoryEntries.Some?
    && st.record.value.repositoryEntries.value <= |st.log.stored|
  }

  function SuppliedEntries(st: State): seq<LogEntry>
    requires Credited(st)
  {
    st.log.stored[..st.record.value.repositoryEntries.value]
  }

  lemma AdoptedKeepsSupplied(st: State, u: Upload)
    requires Credited(st) && Decide(st, u) == Adopt
    ensures SuppliedEntries(st) <= u.entries
  {
    var n := st.record.value.repositoryEntries.value;
    assert RepositoryEntries(st.record.value, |st.log.stored|) == n;
    assert forall i :: 0 <= i < n ==> st.log.stored[i] == u.entries[i];
  }

  lemma NotAdoptedGrows(st: State, u: Upload)
    requires Credited(st) && Decide(st, u) != Adopt
    ensures Decide(st, u) in {Baseline, Extend} ==> st.log.stored <= u.entries
    ensures Decide(st, u) == Baseline ==> |u.entries| == |st.log.stored|
    ensures Decide(st, u) != Create
  {
    if Decide(st, u) in {Baseline, Extend} {
      NoDifference(st.log.stored, u.entries);
    }
  }

  /** No import changes or removes an entry that the evidence repository or the store supplied; only a repository
      conflict changes or removes any entry; and once a source has supplied entries, only a source appends. */
  lemma SuppliedEntriesStay(st: State, u: Upload)
    requires Credited(st)
    ensures Credited(Import(st, u)) && SuppliedEntries(st) <= SuppliedEntries(Import(st, u))
    ensures st.log.stored <= Import(st, u).log.stored || (Decide(st, u) == Adopt && u.authority == System)
    ensures |Import(st, u).log.stored| > |st.log.stored| && SuppliedEntries(st) != [] ==> FromSource(u)
  {
    StoredAfter(st, u);
    var d, next := Decide(st, u), Import(st, u);
    if d == Adopt {
      AdoptedKeepsSupplied(st, u);
      assert SuppliedEntries(next) == u.entries;
    } else {
      NotAdoptedGrows(st, u);
      assert st.log.stored <= next.log.stored;
      assert SuppliedEntries(st) == next.log.stored[..|SuppliedEntries(st)|];
    }
  }

  /** Over any run, what a source supplied stays the beginning of the stored entries. */
  lemma {:induction false} RunKeepsSuppliedEntries(st: State, us: seq<Upload>)
    requires Credited(st)
    ensures Credited(Run(st, us)) && SuppliedEntries(st) <= SuppliedEntries(Run(st, us))
    decreases |us|
  {
    if us != [] {
      SuppliedEntriesStay(st, us[0]);
      RunKeepsSuppliedEntries(Import(st, us[0]), us[1..]);
    }
  }

  // ----- what an import stores and records, read off the entries -----

  lemma DifferenceMeans(stored: seq<LogEntry>, entries: seq<LogEntry>)
    ensures var d := Difference(stored, entries);
            && (d.None? && |stored| <= |entries| <==> stored <= entries)
            && forall n: nat :: n <= |stored| ==>
                 ((if d.Some? then d.value >= n else |entries| >= n) <==> stored[..n] <= entries)
  {
    var d := Difference(stored, entries);
    forall n: nat | n <= |stored|
      ensures (if d.Some? then d.value >= n else |entries| >= n) <==> stored[..n] <= entries
    {
      if stored[..n] <= entries {
        forall i | 0 <= i < n ensures stored[i] == entries[i] {
          assert stored[..n][i] == entries[i];
        }
      }
    }
    assert stored[..|stored|] == stored;
  }

  /** What an upload to an existing session leaves stored. A member's is stored when it is not the content already stored,
      extends what is stored with no entry back-dated, no source has supplied entries, and it comes from the session's
      owner, the session having no conflict; an administrator's, whoever owns the session. Otherwise nothing changes. */
  lemma WhatUploadsStore(st: State, u: Upload)
    requires st.record.Some? && Acceptable(u) && |st.log.history| == |st.log.versions| && u.authority in {Member, Admin}
    ensures var r, stored := st.record.value, st.log.stored;
            var unsupplied := stored == [] || r.repositoryEntries == Some(0) || (r.repositoryEntries.None? && r.submittedBy.Some?);
            var inOrder := forall i, j :: |stored| <= i < |u.entries| && 0 <= j < |stored| ==>
                             u.entries[i].stamp.None? || stored[j].stamp.None? || u.entries[i].stamp.value >= stored[j].stamp.value;
            Import(st, u).log.stored ==
            if && r.contentSha != Some(u.sha) && stored <= u.entries && unsupplied && inOrder
               && (u.authority == Member ==> r.submittedBy == u.submittedBy && r.conflictAt.None?)
            then u.entries else stored
  {
    var stored := st.log.stored;
    DifferenceMeans(stored, u.entries);
    var inOrder := forall i, j :: |stored| <= i < |u.entries| && 0 <= j < |stored| ==>
                     u.entries[i].stamp.None? || stored[j].stamp.None? || u.entries[i].stamp.value >= stored[j].stamp.value;
    assert Backdated(stored, u.entries, |stored|) <==> !inOrder;
    StoredAfter(st, u);
    hide Difference, Backdated, Import, RepositoryWins;
  }

  /** What a source's file leaves stored: new content (any, without a current version) of a store when it extends what is
      stored; of the repository also when it only keeps the entries a source supplied (for a restored session, any). */
  lemma WhatSourcesStore(st: State, u: Upload)
    requires st.record.Some? && Acceptable(u) && |st.log.history| == |st.log.versions| && u.authority in {System, Store}
    ensures var r, stored := st.record.value, st.log.stored;
            var current := exists v :: v in st.log.versions && v.status == Current;
            var supplied := if r.repositoryEntries.None? then (if current && r.submittedBy.None? then |stored| else 0)
                            else if r.repositoryEntries.value < |stored| then r.repositoryEntries.value else |stored|;
            Import(st, u).log.stored ==
            if && (r.contentSha != Some(u.sha) || !current)
               && if u.authority == Store then stored <= u.entries else stored[..supplied] <= u.entries
            then u.entries else stored
  {
    DifferenceMeans(st.log.stored, u.entries);
    StoredAfter(st, u);
    hide Difference, Backdated, Import;
  }

  lemma StoredAfter(st: State, u: Upload)
    requires |st.log.history| == |st.log.versions|
    ensures Import(st, u).log.stored == if Decide(st, u) in {Create, Baseline, Extend, Adopt} then u.entries else st.log.stored
  {
    hide Decide;
  }

  /** The session's row after it: a conflict makes the upload's submitter the owner and is recorded with its time; an
      extension leaves both, and credits a source with all it now holds; identical content is recorded for a baseline, or
      where none was. */
  lemma WhatIsRecorded(st: State, u: Upload)
    requires st.record.Some? && Acceptable(u) && |st.log.history| == |st.log.versions|
    ensures var r, stored, source := st.record.value, st.log.stored, u.authority in {System, Store};
            var current := exists v :: v in st.log.versions && v.status == Current;
            var entries, path := Import(st, u).log.stored, if u.sourcePath != "" then u.sourcePath else r.transcriptPath;
            Import(st, u).record == Some(
            if !(stored <= entries) then Record(u.submittedBy, Some(|entries|), Some(u.sha), Some(u.at), path)
            else if stored != entries then
              Record(r.submittedBy, Some(if source then |entries| else 0), Some(u.sha), r.conflictAt,
                     if u.authority == Admin || r.transcriptPath == "" then path else r.transcriptPath)
            else if u.entries == stored
                    && ((source && !current) || (r.contentSha.None? && u.authority != Store
                        && (u.authority == Member ==> r.submittedBy == u.submittedBy && r.conflictAt.None?))) then
              r.(contentSha := Some(u.sha), repositoryEntries := if source then Some(|stored|) else r.repositoryEntries)
            else r)
  {
    DifferenceMeans(st.log.stored, u.entries);
    hide Difference, Backdated;
  }

  /** A new session holds the upload, which a source is credited with. Refused are a store's import without its object and
      any other with one, a member's without a name, and a source's whose path is not the session's own file. */
  lemma WhatIsCreated(st: State, u: Upload)
    requires st.record.None? && |st.log.history| == |st.log.versions|
    ensures var bound := (u.authority == System && u.sourceCommit.Some?) || u.authority == Store;
            var exported, named := u.storeObject.Some? && u.storeObject.value != "", u.submittedBy.Some? && u.submittedBy.value != "";
            var refused := || exported != (u.authority == Store) || (u.authority == Member && !named)
                           || (bound && (u.sourcePath == "" || !u.ownFile));
            && (Acceptable(u) <==> !refused) && (refused ==> Import(st, u) == st)
            && (!refused ==>
                  && Import(st, u).record == Some(Record(u.submittedBy, Some(if u.authority in {System, Store} then |u.entries| else 0),
                                                         Some(u.sha), None, u.sourcePath))
                  && Import(st, u).log.stored == u.entries)
  {
  }

  /** The version and history event it writes: whenever what is stored changes, for a new session, and for a source's
      identical copy of a session without a current version. */
  lemma WhatIsVersioned(st: State, u: Upload)
    requires |st.log.history| == |st.log.versions| && Acceptable(u)
    ensures var log, log', n := st.log, Import(st, u).log, |Import(st, u).log.versions| - 1;
            if st.record.None? || log'.stored != log.stored || (u.authority in {System, Store} && u.entries == log.stored
                && forall v :: v in log.versions ==> v.status != Current) then
              && n >= |log.versions|
              && log'.versions[n] == Version(Current, |u.entries|, Some(EntriesDigest(u.entries)), None, "", u.sourcePath, u.submittedBy,
                                             if u.authority == Store then u.storeObject else None, if u.authority == Store then "ingested" else "")
              && log'.history[n] == [Event(Insert, Current, Some(EntriesDigest(u.entries)), Some(|u.entries|), None, u.at)]
              && log'.conflictTimes == log.conflictTimes + (if st.record.Some? && !(log.stored <= log'.stored) then {u.at} else {})
            else log' == log
  {
    DifferenceMeans(st.log.stored, u.entries);
    hide Difference, Backdated, RepositoryWins;
    if Decide(st, u) == Adopt {
      AdoptedIsNoExtension(st, u);
    }
  }

  lemma AdoptedIsNoExtension(st: State, u: Upload)
    requires Decide(st, u) == Adopt
    ensures !(st.log.stored <= u.entries)
  {
    DifferenceMeans(st.log.stored, u.entries);
  }

  /** Importing the same content again changes nothing. */
  lemma ImportIsIdempotent(st: State, u: Upload)
    requires |st.log.history| == |st.log.versions|
    ensures Import(Import(st, u), u) == Import(st, u)
  {
    var next := Import(st, u);
    if st.record.Some? && Acceptable(u) && next.log == st.log {
      WhatIsRecorded(st, u);
      WhatIsRecorded(next, u);
      hide Import;
    }
  }

  // ----- nothing stored is ever lost -----

  /** The entries are stored, or a superseded version keeps them. */
  predicate Recoverable(log: Session, entries: seq<LogEntry>) {
    log.stored == entries || exists v :: v in log.versions && v.status == Superseded && v.content == Some(Reconstruction(entries))
  }

  lemma SupersedeRecovers(log: Session, r: Record, reason: string, at: int)
    requires |log.history| == |log.versions|
    ensures exists v :: v in SupersedeCurrent(log, r, reason, at).versions && v.status == Superseded && v.content == Some(Reconstruction(log.stored))
    ensures forall v :: v in log.versions && v.status == Superseded ==> v in SupersedeCurrent(log, r, reason, at).versions
  {
    var next := SupersedeCurrent(log, r, reason, at);
    forall v | v in log.versions && v.status == Superseded
      ensures v in next.versions
    {
      var i :| 0 <= i < |log.versions| && log.versions[i] == v;
      assert next.versions[i] == v;
    }
    if HasCurrent(log) {
      var v :| v in log.versions && v.status == Current;
      var i :| 0 <= i < |log.versions| && log.versions[i] == v;
      assert next.versions[i] in next.versions;
    } else {
      assert next.versions[|log.versions|] in next.versions;
    }
  }

  lemma ImportRecovers(st: State, u: Upload, entries: seq<LogEntry>)
    requires |st.log.history| == |st.log.versions| && Recoverable(st.log, entries) && (st.record.None? ==> st.log.stored == [])
    ensures Recoverable(Import(st, u).log, entries) || entries == []
    ensures Import(st, u).record.None? ==> Import(st, u).log.stored == []
  {
    var d, next := Decide(st, u), Import(st, u);
    if d in {Extend, Adopt} {
      SupersedeRecovers(st.log, st.record.value, if d == Extend then SUPERSEDED_REASON else CONFLICT_REASON, u.at);
    } else if d == Baseline {
      DifferenceMeans(st.log.stored, u.entries);
    }
    hide Decide, SupersedeCurrent;
  }

  /** Over any run, whatever entries a session held at any time stay stored or are kept, in full, by a superseded version. */
  lemma {:induction false} NothingIsLost(st: State, us: seq<Upload>, n: nat)
    requires |st.log.history| == |st.log.versions| && (st.record.None? ==> st.log.stored == []) && n <= |us|
    ensures Recoverable(Run(st, us).log, Run(st, us[..n]).log.stored) || Run(st, us[..n]).log.stored == []
    decreases |us|
  {
    if n == 0 {
      StaysRecoverable(st, us, st.log.stored);
    } else {
      ImportRecovers(st, us[0], st.log.stored);
      assert us[..n][0] == us[0] && us[..n][1..] == us[1..][..n - 1];
      NothingIsLost(Import(st, us[0]), us[1..], n - 1);
    }
  }

  lemma {:induction false} StaysRecoverable(st: State, us: seq<Upload>, entries: seq<LogEntry>)
    requires |st.log.history| == |st.log.versions| && (st.record.None? ==> st.log.stored == []) && Recoverable(st.log, entries)
    ensures Recoverable(Run(st, us).log, entries) || entries == []
    decreases |us|
  {
    if us != [] && entries != [] {
      ImportRecovers(st, us[0], entries);
      StaysRecoverable(Import(st, us[0]), us[1..], entries);
    }
  }

  // ----- the runs that are reported -----

  function Restored(entries: seq<LogEntry>): State {
    State(Some(Record(None, None, None, None, "")), Session([], [], {}, true, entries))
  }

  /** A repository import without a path over a member's upload: the importer's own writes, reported. */
  lemma PathlessConflictIsReported(st: State, us: seq<Upload>)
    requires st == State(None, Session([], [], {}, true, []))
    requires us == [Upload(Member, [LogEntry("a", None)], "1", "", false, None, None, Some("alice"), 1),
                    Upload(System, [LogEntry("b", None)], "2", "", false, None, None, None, 2)]
    ensures Initial(st) && WellFormed(Run(st, us).log) && !Unreported(Run(st, us).log)
  {
    assert Decide(st, us[0]) == Create;
    var next := Import(st, us[0]);
    assert next.log.stored == [LogEntry("a", None)] && LogEntry("a", None) != LogEntry("b", None);
    assert Decide(next, us[1]) == Adopt;
    assert us[1..] == [us[1]] && [us[1]][1..] == [];
    assert Run(st, us) == Run(next, [us[1]]) == Import(next, us[1]);
    assert !TraceableRun(next, [us[1]]);
    hide Import, Decide, Unreported;
    HasVersions(next, us[1]);
    RunUnreportedIffTraceable(st, us);
  }

  lemma HasVersions(st: State, u: Upload)
    requires |st.log.history| == |st.log.versions| && Decide(st, u) == Adopt
    ensures Import(st, u).log.versions != []
  {
  }

  /** A git sync that replaces a restored session's entries: the restored version is written as superseded from the
      start, which the verifier does not accept for a conflict. */
  lemma RestoredConflictIsReported(st: State, us: seq<Upload>)
    requires st == Restored([LogEntry("a", None)])
    requires us == [Upload(System, [LogEntry("b", None)], "2", "p", true, Some("c"), None, None, 2)]
    ensures Initial(st) && WellFormed(Run(st, us).log) && !Unreported(Run(st, us).log)
  {
    assert LogEntry("a", None) != LogEntry("b", None);
    assert Decide(st, us[0]) == Adopt;
    assert us[1..] == [];
    assert Run(st, us) == Import(st, us[0]);
    assert !TraceableRun(st, us);
    hide Import, Decide, Unreported;
    HasVersions(st, us[0]);
    RunUnreportedIffTraceable(st, us);
  }
}
