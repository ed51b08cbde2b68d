/** `app/services/decision_log_verify.py`: the versions of a decision-log session against its stored entries and its
    audited history. */
module DecisionLog {
  import opened Records

  /** A stored entry (its canonical line) and its timestamp. */
  datatype LogEntry = LogEntry(line: string, stamp: Option<int>)

  /** `entries_sha256`: SHA-256 over the entries' canonical lines, idealised as collision-free. */
  datatype Digest = EntriesDigest(entries: seq<LogEntry>) | OtherText(text: string)

  /** `content_gz` of a version that is no longer current, and the audit log's digest of it. */
  datatype Content = Reconstruction(entries: seq<LogEntry>) | OtherContent(text: string)

  datatype Status = Current | Superseded | OtherStatus

  datatype Version = Version(
    status: Status,
    entryCount: int,
    digest: Option<Digest>,
    content: Option<Content>,
    reason: string,
    sourcePath: string,
    submittedBy: Option<string>,
    storeObject: Option<string>,
    objectStatus: string)

  datatype Change = Insert | Update | Delete

  /** An audit row of a version; `content` stands for the recorded digest of that content. */
  datatype Event = Event(change: Change, status: Status, digest: Option<Digest>, count: Option<int>,
                         content: Option<Content>, at: int)

  /** A session as the check reads it: its versions in the order received, the audit events of each (none outside
      PostgreSQL), the times its `conflict_at` was set, and the stored entries. */
  datatype Session = Session(versions: seq<Version>, history: seq<seq<Event>>, conflictTimes: set<int>, postgres: bool,
                             stored: seq<LogEntry>)

  predicate WellFormed(s: Session) {
    && s.versions != [] && |s.history| == |s.versions|
    && forall i :: 0 <= i < |s.versions| ==> s.versions[i].status != OtherStatus
  }

  datatype Kind =
    | NotOneCurrent
    | NoCreation | DigestNotRecorded | CountNotRecorded | ChangedLater | NeverSuperseded | ContentNotRecorded
    | NotARepositoryImport | AStoreImport | NotOneTransaction
    | NoContentOrReason | NotImported | CountDecreased
    | NotAPrefix | TooLong | StoredDiffer

  datatype Issue = Issue(version: int, kind: Kind)

  const CONFLICT_PREFIX := "repository conflict:"

  /** A digest is recorded: neither NULL nor empty. */
  predicate Recorded(d: Option<Digest>) {
    d.Some? && d.value != OtherText("")
  }

  // ----- what each issue means -----

  function FirstDigest(events: seq<Event>): Option<Digest> {
    if events == [] then None else if Recorded(events[0].digest) then events[0].digest else FirstDigest(events[1..])
  }

  predicate Created(events: seq<Event>) {
    events != [] && events[0].change == Insert
  }

  /** The only lives a version may have had: current, perhaps superseded once; or, for a session's first, superseded from
      the start. */
  predicate AllowedLife(first: bool, events: seq<Event>)
    requires Created(events)
  {
    if events[0].status == Current
    then |events| == 1 || (|events| == 2 && events[1].change == Update && events[1].status == Superseded)
    else events[0].status == Superseded && first && |events| == 1
  }

  predicate HistoryRaises(v: Version, first: bool, events: seq<Event>, kind: Kind) {
    match kind
    case NoCreation => !Created(events)
    case DigestNotRecorded => Created(events) && Recorded(v.digest) && FirstDigest(events) != v.digest
    case CountNotRecorded => Created(events) && events[0].count.Some? && events[0].count.value != v.entryCount
    case ChangedLater => Created(events) && !AllowedLife(first, events)
    case NeverSuperseded => Created(events) && v.status == Superseded && events[0].status == Current && |events| == 1
    case ContentNotRecorded =>
      && Created(events) && AllowedLife(first, events) && v.status == Superseded && v.content.Some?
      && (events[0].status == Current ==> |events| > 1) && events[|events| - 1].content != v.content
    case _ => false
  }

  predicate ClaimsConflict(v: Version) {
    v.status == Superseded && CONFLICT_PREFIX <= v.reason
  }

  /** The last time the audit log recorded the version as superseded after its creation. */
  function SupersededAt(events: seq<Event>): Option<int> {
    if |events| <= 1 then None
    else if events[|events| - 1].status == Superseded then Some(events[|events| - 1].at)
    else SupersededAt(events[..|events| - 1])
  }

  function CreatedAt(events: seq<Event>): Option<int> {
    if Created(events) then Some(events[0].at) else None
  }

  /** The issue the step from version `i` to version `i + 1` raises, if any. */
  function StepIssue(s: Session, i: nat): Option<Kind>
    requires WellFormed(s) && i + 1 < |s.versions|
  {
    var v, next := s.versions[i], s.versions[i + 1];
    if !ClaimsConflict(v) then None
    else if next.sourcePath == "" || next.submittedBy.Some? then Some(NotARepositoryImport)
    else if next.storeObject.Some? then Some(AStoreImport)
    else
      var superseded, created := SupersededAt(s.history[i]), CreatedAt(s.history[i + 1]);
      if s.postgres && (superseded.None? || created.None? || superseded != created || created.value !in s.conflictTimes)
      then Some(NotOneTransaction) else None
  }

  /** The step from version `i` is a genuine repository conflict. */
  predicate Genuine(s: Session, i: int)
    requires WellFormed(s)
  {
    0 <= i < |s.versions| - 1 && ClaimsConflict(s.versions[i]) && StepIssue(s, i).None?
  }

  /** The first version after the last genuine conflict among the first `n` steps. */
  function AfterLastConflict(s: Session, n: nat): (k: nat)
    requires WellFormed(s) && n < |s.versions|
    ensures k <= n && forall i :: k <= i < n ==> !Genuine(s, i)
    ensures k > 0 ==> Genuine(s, k - 1)
  {
    if n == 0 then 0 else if Genuine(s, n - 1) then n else AfterLastConflict(s, n - 1)
  }

  function Currents(versions: seq<Version>): (n: nat)
    ensures n <= |versions|
  {
    if versions == [] then 0
    else Currents(versions[..|versions| - 1]) + if versions[|versions| - 1].status == Current then 1 else 0
  }

  /** The entries are compared only for a session with one current version, received last. */
  predicate Comparable(s: Session)
    requires WellFormed(s)
  {
    Currents(s.versions) == 1 && s.versions[|s.versions| - 1].status == Current
  }

  /** The version's prefix is checked: it is superseded, has a digest, and came after the last genuine conflict. */
  predicate Checked(s: Session, i: int)
    requires WellFormed(s)
  {
    && AfterLastConflict(s, |s.versions| - 1) <= i < |s.versions| - 1
    && s.versions[i].status == Superseded && Recorded(s.versions[i].digest)
  }

  predicate Within(v: Version, stored: seq<LogEntry>) {
    0 <= v.entryCount <= |stored|
  }

  /** The version is, by its digest, the first entries stored. */
  predicate IsPrefix(v: Version, stored: seq<LogEntry>) {
    Within(v, stored) && v.digest == Some(EntriesDigest(stored[..v.entryCount]))
  }

  /** The issue of this kind that version `i` deserves. */
  predicate Raises(s: Session, i: int, kind: Kind)
    requires WellFormed(s)
  {
    && 0 <= i < |s.versions|
    && var v, last := s.versions[i], |s.versions| - 1;
    match kind
    case NotOneCurrent => i == last && Currents(s.versions) != 1
    case NotARepositoryImport => i < last && StepIssue(s, i) == Some(kind)
    case AStoreImport => i < last && StepIssue(s, i) == Some(kind)
    case NotOneTransaction => i < last && StepIssue(s, i) == Some(kind)
    case NoContentOrReason => v.status == Superseded && (v.content.None? || v.reason == "")
    case NotImported => v.storeObject.Some? && v.objectStatus !in ["ingested", "erased"]
    case CountDecreased => i > 0 && !Genuine(s, i - 1) && v.entryCount < s.versions[i - 1].entryCount
    case NotAPrefix => Comparable(s) && Checked(s, i) && Within(v, s.stored) && !IsPrefix(v, s.stored)
    case TooLong => Comparable(s) && Checked(s, i) && !Within(v, s.stored)
    case StoredDiffer =>
      Comparable(s) && i == last && Recorded(v.digest) && !(IsPrefix(v, s.stored) && v.entryCount == |s.stored|)
    case _ => s.postgres && HistoryRaises(v, i == 0, s.history[i], kind)
  }

  /** The digest the audit log recorded first; an earlier event recorded none. */
  lemma {:induction false} FirstDigestMeans(events: seq<Event>, k: nat)
    requires k <= |events| && forall j :: 0 <= j < k ==> events[j].digest.None? || events[j].digest.value == OtherText("")
    requires k < |events| ==> events[k].digest.Some? && events[k].digest.value != OtherText("")
    ensures FirstDigest(events) == if k < |events| then events[k].digest else None
  {
    if k > 0 {
      FirstDigestMeans(events[1..], k - 1);
    }
  }

  /** The last event after the version's creation that recorded it as superseded, if any (`k` is 0 without one). */
  lemma {:induction false} SupersededAtIs(events: seq<Event>) returns (k: nat)
    ensures if SupersededAt(events).None? then k == 0 && forall j :: 0 < j < |events| ==> events[j].status != Superseded
            else 0 < k < |events| && events[k].status == Superseded && SupersededAt(events) == Some(events[k].at)
                 && forall j :: k < j < |events| ==> events[j].status != Superseded
    decreases |events|
  {
    k := 0;
    if |events| > 1 {
      if events[|events| - 1].status == Superseded {
        k := |events| - 1;
      } else {
        k := SupersededAtIs(events[..|events| - 1]);
      }
    }
  }

  /** The one permitted step that does not grow: superseded for a repository conflict by an import with a path, no submitter
      and no store object; where the audit log is checked, its last supersession, the successor's creation and the
      session's conflict were recorded at one time. */
  lemma GenuineMeans(s: Session, i: int)
    requires WellFormed(s)
    ensures Genuine(s, i) <==>
            && 0 <= i < |s.versions| - 1
            && s.versions[i].status == Superseded && "repository conflict:" <= s.versions[i].reason
            && s.versions[i + 1].sourcePath != "" && s.versions[i + 1].submittedBy.None? && s.versions[i + 1].storeObject.None?
            && (s.postgres ==>
                  && s.history[i + 1] != [] && s.history[i + 1][0].change == Insert && s.history[i + 1][0].at in s.conflictTimes
                  && exists k :: && 0 < k < |s.history[i]| && s.history[i][k].status == Superseded
                                 && s.history[i][k].at == s.history[i + 1][0].at
                                 && forall j :: k < j < |s.history[i]| ==> s.history[i][j].status != Superseded)
  {
    if 0 <= i < |s.versions| - 1 {
      var k := SupersededAtIs(s.history[i]);
    }
  }

  // ----- the check -----

  function Count(issues: seq<Issue>, i: int, kind: Kind): nat {
    multiset(issues)[Issue(i, kind)]
  }

  /** The passes of the check, in order. */
  function Pass(kind: Kind): nat {
    match kind
    case NotOneCurrent => 0
    case NotARepositoryImport => 2
    case AStoreImport => 2
    case NotOneTransaction => 2
    case NoContentOrReason => 3
    case NotImported => 3
    case CountDecreased => 4
    case NotAPrefix => 5
    case TooLong => 5
    case StoredDiffer => 6
    case _ => 1
  }

  /** The `issue` closure, called when `c` holds. */
  method Flag(before: seq<Issue>, i: int, kind: Kind, c: bool) returns (issues: seq<Issue>)
    ensures forall j, k :: Count(issues, j, k) == Count(before, j, k) + if c && j == i && k == kind then 1 else 0
  {
    issues := if c then before + [Issue(i, kind)] else before;
    assert multiset(before + [Issue(i, kind)]) == multiset(before) + multiset{Issue(i, kind)};
  }

  /** `_check_history`. */
  method CheckHistory(v: Version, i: int, first: bool, events: seq<Event>, before: seq<Issue>) returns (issues: seq<Issue>)
    ensures forall j, kind :: Count(issues, j, kind) == Count(before, j, kind) + if j == i && Pass(kind) == 1 && HistoryRaises(v, first, events, kind) then 1 else 0
  {
    hide Count, FirstDigest, Recorded, AllowedLife;
    issues := Flag(before, i, NoCreation, events == [] || events[0].change != Insert);
    if events == [] || events[0].change != Insert {
      return;
    }
    var created := events[0];
    issues := Flag(issues, i, DigestNotRecorded, Recorded(v.digest) && FirstDigest(events) != v.digest);
    issues := Flag(issues, i, CountNotRecorded, created.count.Some? && created.count.value != v.entryCount);
    var allowed, supersededBy := Life(first, events);
    issues := Flag(issues, i, ChangedLater, !allowed);
    if !allowed {
      return;
    }
    if v.status == Superseded {
      issues := Flag(issues, i, NeverSuperseded, supersededBy.None?);
      issues := Flag(issues, i, ContentNotRecorded,
                     supersededBy.Some? && v.content.Some? && supersededBy.value.content != v.content);
    }
  }

  /** Whether the changes after the version's creation are allowed, and the event that superseded it. */
  method Life(first: bool, events: seq<Event>) returns (allowed: bool, supersededBy: Option<Event>)
    requires Created(events)
    ensures allowed == AllowedLife(first, events)
    ensures events[0].status == Current && |events| == 1 ==> allowed
    ensures allowed ==> supersededBy == if events[0].status == Current && |events| == 1 then None else Some(events[|events| - 1])
  {
    var created, changes := events[0], events[1..];
    AllowedIsALife(first, events);
    if created.status == Current {
      allowed := |changes| <= 1 && forall e :: e in changes ==> e.change == Update && e.status == Superseded;
      supersededBy := if changes != [] then Some(changes[|changes| - 1]) else None;
    } else {
      allowed := created.status == Superseded && first && changes == [];
      supersededBy := Some(created);
    }
  }

  lemma AllowedIsALife(first: bool, events: seq<Event>)
    requires Created(events)
    ensures events[0].status == Current ==>
              (AllowedLife(first, events) <==> |events[1..]| <= 1 && forall e :: e in events[1..] ==> e.change == Update && e.status == Superseded)
    ensures events[0].status != Current ==>
              (AllowedLife(first, events) <==> events[0].status == Superseded && first && events[1..] == [])
  {
    if |events| == 2 {
      assert events[1..] == [events[1]];
    }
  }

  method CheckHistories(s: Session, before: seq<Issue>) returns (issues: seq<Issue>)
    requires WellFormed(s)
    ensures forall i, k :: Count(issues, i, k) == Count(before, i, k) + if Pass(k) == 1 && Raises(s, i, k) then 1 else 0
  {
    issues := before;
    hide Count, HistoryRaises;
    for i := 0 to |s.versions|
      invariant forall j, k :: Count(issues, j, k) == Count(before, j, k) + if 0 <= j < i && Pass(k) == 1 && Raises(s, j, k) then 1 else 0
    {
      if s.postgres {
        issues := CheckHistory(s.versions[i], i, i == 0, s.history[i], issues);
      }
    }
  }

  /** The steps of `_conflict_step`; `from` is the first version after the last genuine conflict. */
  method CheckSteps(s: Session, before: seq<Issue>) returns (issues: seq<Issue>, genuine: set<int>, from: nat)
    requires WellFormed(s)
    ensures forall i, k :: Count(issues, i, k) == Count(before, i, k) + if Pass(k) == 2 && Raises(s, i, k) then 1 else 0
    ensures forall i :: i in genuine <==> Genuine(s, i)
    ensures from == AfterLastConflict(s, |s.versions| - 1)
  {
    issues, genuine, from := before, {}, 0;
    for i := 0 to |s.versions| - 1
      invariant forall j, k :: Count(issues, j, k) == Count(before, j, k) + if 0 <= j < i && Pass(k) == 2 && Raises(s, j, k) then 1 else 0
      invariant forall j :: j in genuine <==> 0 <= j < i && Genuine(s, j)
      invariant from == AfterLastConflict(s, i)
    {
      var isGenuine;
      issues, isGenuine := ConflictStep(s, i, issues);
      if isGenuine {
        genuine, from := genuine + {i}, i + 1;
      }
    }
  }

  /** `_conflict_step`. */
  method ConflictStep(s: Session, i: nat, before: seq<Issue>) returns (issues: seq<Issue>, genuine: bool)
    requires WellFormed(s) && i < |s.versions| - 1
    ensures forall j, k :: Count(issues, j, k) == Count(before, j, k) + if j == i && Pass(k) == 2 && Raises(s, j, k) then 1 else 0
    ensures genuine == Genuine(s, i)
  {
    hide Count, SupersededAt, CreatedAt;
    var v, next := s.versions[i], s.versions[i + 1];
    if !(v.status == Superseded && CONFLICT_PREFIX <= v.reason) {
      return before, false;
    }
    if next.sourcePath == "" || next.submittedBy.Some? {
      issues := Flag(before, i, NotARepositoryImport, true);
      return issues, false;
    }
    if next.storeObject.Some? {
      issues := Flag(before, i, AStoreImport, true);
      return issues, false;
    }
    if s.postgres {
      var superseded, created := SupersededAt(s.history[i]), CreatedAt(s.history[i + 1]);
      if superseded.None? || created.None? || superseded != created || created.value !in s.conflictTimes {
        issues := Flag(before, i, NotOneTransaction, true);
        return issues, false;
      }
    }
    return before, true;
  }

  method CheckContents(s: Session, before: seq<Issue>) returns (issues: seq<Issue>)
    requires WellFormed(s)
    ensures forall i, k :: Count(issues, i, k) == Count(before, i, k) + if Pass(k) == 3 && Raises(s, i, k) then 1 else 0
  {
    issues := before;
    hide Count;
    for i := 0 to |s.versions|
      invariant forall j, k :: Count(issues, j, k) == Count(before, j, k) + if 0 <= j < i && Pass(k) == 3 && Raises(s, j, k) then 1 else 0
    {
      var v := s.versions[i];
      issues := Flag(issues, i, NoContentOrReason, v.status == Superseded && (v.content.None? || v.reason == ""));
      issues := Flag(issues, i, NotImported, v.storeObject.Some? && v.objectStatus !in ["ingested", "erased"]);
    }
  }

  method CheckCounts(s: Session, genuine: set<int>, before: seq<Issue>) returns (issues: seq<Issue>)
    requires WellFormed(s)
    requires forall i :: i in genuine <==> Genuine(s, i)
    ensures forall i, k :: Count(issues, i, k) == Count(before, i, k) + if Pass(k) == 4 && Raises(s, i, k) then 1 else 0
  {
    issues := before;
    hide Count, Genuine;
    for i := 0 to |s.versions| - 1
      invariant forall j, k :: Count(issues, j, k) == Count(before, j, k) + if 0 <= j <= i && Pass(k) == 4 && Raises(s, j, k) then 1 else 0
    {
      issues := Flag(issues, i + 1, CountDecreased, i !in genuine && s.versions[i + 1].entryCount < s.versions[i].entryCount);
    }
  }

  // ----- the streaming prefix check -----

  predicate Distinct(list: seq<int>) {
    forall i, j :: 0 <= i < j < |list| ==> list[i] != list[j]
  }

  /** The checked versions below `n` that the scan still awaits once it has compared every count below `seen`. */
  predicate Awaited(s: Session, n: nat, seen: nat, i: int)
    requires WellFormed(s)
  {
    Checked(s, i) && i < n && !(0 <= s.versions[i].entryCount < seen)
  }

  /** `wanted` lists each awaited version once, under its entry count. */
  ghost predicate Awaits(s: Session, n: nat, seen: nat, wanted: map<int, seq<int>>)
    requires WellFormed(s)
  {
    && (forall c :: c in wanted ==> ListsAwaited(s, n, seen, c, wanted[c]))
    && forall i :: Awaited(s, n, seen, i) ==> i in Listed(wanted, s.versions[i].entryCount)
  }

  ghost predicate ListsAwaited(s: Session, n: nat, seen: nat, count: int, list: seq<int>)
    requires WellFormed(s)
  {
    && Distinct(list)
    && forall i :: i in list ==> Awaited(s, n, seen, i) && s.versions[i].entryCount == count
  }

  function Listed(wanted: map<int, seq<int>>, count: int): seq<int> {
    if count in wanted then wanted[count] else []
  }

  method Wanted(s: Session, from: nat) returns (wanted: map<int, seq<int>>)
    requires WellFormed(s) && from == AfterLastConflict(s, |s.versions| - 1)
    ensures Awaits(s, |s.versions|, 0, wanted)
  {
    wanted := map[];
    for i := from to |s.versions| - 1
      invariant Awaits(s, i, 0, wanted)
    {
      var v := s.versions[i];
      AwaitsNext(s, i, wanted);
      if v.status == Superseded && Recorded(v.digest) {
        wanted := wanted[v.entryCount := Listed(wanted, v.entryCount) + [i]];
      }
    }
  }

  lemma AwaitsNext(s: Session, i: nat, wanted: map<int, seq<int>>)
    requires WellFormed(s) && i < |s.versions| && Awaits(s, i, 0, wanted)
    ensures if Checked(s, i) then
              var c := s.versions[i].entryCount;
              Awaits(s, i + 1, 0, wanted[c := Listed(wanted, c) + [i]])
            else Awaits(s, i + 1, 0, wanted)
  {
    hide AfterLastConflict, WellFormed, Genuine, Recorded;
    var c := s.versions[i].entryCount;
    var list := Listed(wanted, c);
    assert i !in list;
    assert Checked(s, i) ==> ListsAwaited(s, i + 1, 0, c, list + [i]);
  }

  /** Raises `kind` on the listed versions whose digest is not that of `entries`, or on all of them without `entries`. */
  method Compare(s: Session, list: seq<int>, entries: Option<seq<LogEntry>>, kind: Kind, before: seq<Issue>)
      returns (issues: seq<Issue>)
    requires Distinct(list) && forall i :: i in list ==> 0 <= i < |s.versions|
    ensures forall i, k :: Count(issues, i, k) == Count(before, i, k) + if k == kind && i in list && Differs(s, i, entries) then 1 else 0
  {
    issues := before;
    hide Count;
    for m := 0 to |list|
      invariant forall i, k :: Count(issues, i, k) == Count(before, i, k) + if k == kind && i in list[..m] && Differs(s, i, entries) then 1 else 0
    {
      issues := Flag(issues, list[m], kind, Differs(s, list[m], entries));
      assert list[..m + 1] == list[..m] + [list[m]];
      assert list[m] !in list[..m];
    }
    assert list[..|list|] == list;
  }

  predicate Differs(s: Session, i: int, entries: Option<seq<LogEntry>>) {
    0 <= i < |s.versions| && (entries.Some? ==> s.versions[i].digest != Some(EntriesDigest(entries.value)))
  }

  /** The scan of the stored entries: `digest` holds what has been hashed so far. */
  method ScanStored(s: Session, awaited: map<int, seq<int>>, before: seq<Issue>)
      returns (issues: seq<Issue>, wanted: map<int, seq<int>>)
    requires WellFormed(s) && Awaits(s, |s.versions|, 0, awaited)
    ensures Awaits(s, |s.versions|, |s.stored| + 1, wanted)
    ensures forall i, k :: Count(issues, i, k) == Count(before, i, k) + if k == NotAPrefix && NotPrefix(s, i, |s.stored|) then 1 else 0
  {
    issues, wanted := before, awaited;
    var digest := [];
    issues, wanted := ComparePrefix(s, 0, digest, wanted, issues);
    for count := 0 to |s.stored|
      invariant digest == s.stored[..count]
      invariant Awaits(s, |s.versions|, count + 1, wanted)
      invariant forall i, k :: Count(issues, i, k) == Count(before, i, k) + if k == NotAPrefix && NotPrefix(s, i, count) then 1 else 0
    {
      digest := digest + [s.stored[count]];
      issues, wanted := ComparePrefix(s, count + 1, digest, wanted, issues);
    }
  }

  /** The version is checked, at most `count` entries long, and not the first entries stored. */
  predicate NotPrefix(s: Session, i: int, count: nat)
    requires WellFormed(s) && count <= |s.stored|
  {
    Checked(s, i) && 0 <= s.versions[i].entryCount <= count && !IsPrefix(s.versions[i], s.stored)
  }

  /** `compare_prefix`. */
  method ComparePrefix(s: Session, count: nat, digest: seq<LogEntry>, awaited: map<int, seq<int>>, before: seq<Issue>)
      returns (issues: seq<Issue>, wanted: map<int, seq<int>>)
    requires WellFormed(s) && count <= |s.stored| && digest == s.stored[..count]
    requires Awaits(s, |s.versions|, count, awaited)
    ensures Awaits(s, |s.versions|, count + 1, wanted)
    ensures forall i, k :: Count(issues, i, k) == Count(before, i, k)
              + if k == NotAPrefix && NotPrefix(s, i, count) && s.versions[i].entryCount == count then 1 else 0
  {
    issues, wanted := before, awaited;
    if count in wanted {
      issues := Compare(s, wanted[count], Some(digest), NotAPrefix, issues);
      wanted := wanted - {count};
    }
  }

  method FlagTooLong(s: Session, wanted: map<int, seq<int>>, before: seq<Issue>) returns (issues: seq<Issue>)
    requires WellFormed(s) && Awaits(s, |s.versions|, |s.stored| + 1, wanted)
    ensures forall i, k :: Count(issues, i, k) == Count(before, i, k)
              + if k == TooLong && Checked(s, i) && !Within(s.versions[i], s.stored) then 1 else 0
  {
    issues := before;
    var rest := wanted;
    while rest != map[]
      invariant forall c :: c in rest ==> c in wanted && rest[c] == wanted[c]
      invariant forall i, k :: Count(issues, i, k) == Count(before, i, k)
                  + if k == TooLong && Awaited(s, |s.versions|, |s.stored| + 1, i) && s.versions[i].entryCount !in rest then 1 else 0
      decreases |rest|
    {
      SomeKey(rest);
      var count :| count in rest;
      issues := Compare(s, rest[count], None, TooLong, issues);
      rest := rest - {count};
    }
  }

  lemma NoKeys(lists: map<int, seq<int>>)
    requires forall c :: c !in lists
    ensures lists == map[]
  {
    assert forall c :: c !in lists.Keys;
    assert lists.Keys == {};
  }

  lemma SomeKey(lists: map<int, seq<int>>)
    requires lists != map[]
    ensures exists c :: c in lists
  {
    if forall c :: c !in lists {
      NoKeys(lists);
    }
  }

  // ----- the whole check -----

  /** The passes over the versions and their steps. */
  method CheckVersions(s: Session, before: seq<Issue>) returns (issues: seq<Issue>, from: nat)
    requires WellFormed(s)
    ensures forall i, k :: Count(issues, i, k) == Count(before, i, k) + if 1 <= Pass(k) <= 4 && Raises(s, i, k) then 1 else 0
    ensures from == AfterLastConflict(s, |s.versions| - 1)
  {
    hide Count, AfterLastConflict, Raises;
    issues := CheckHistories(s, before);
    var genuine;
    issues, genuine, from := CheckSteps(s, issues);
    issues := CheckContents(s, issues);
    issues := CheckCounts(s, genuine, issues);
  }

  /** The passes over the stored entries. */
  method CheckEntries(s: Session, from: nat, before: seq<Issue>) returns (issues: seq<Issue>)
    requires WellFormed(s) && Comparable(s) && from == AfterLastConflict(s, |s.versions| - 1)
    ensures forall i, k :: Count(issues, i, k) == Count(before, i, k) + if 5 <= Pass(k) && Raises(s, i, k) then 1 else 0
  {
    hide Count, Recorded, AfterLastConflict;
    var wanted := Wanted(s, from);
    issues, wanted := ScanStored(s, wanted, before);
    issues := FlagTooLong(s, wanted, issues);
    var head := s.versions[|s.versions| - 1];
    assert s.stored[..|s.stored|] == s.stored;
    var same := head.entryCount == |s.stored| && head.digest == Some(EntriesDigest(s.stored));
    issues := Flag(issues, |s.versions| - 1, StoredDiffer, Recorded(head.digest) && !same);
  }

  lemma NotComparable(s: Session, i: int, kind: Kind)
    requires WellFormed(s) && !Comparable(s) && Pass(kind) >= 5
    ensures !Raises(s, i, kind)
  {
  }

  /** `_check_session`: the issues of a session, each once, and how many of its versions have no recorded digest. */
  method CheckSession(s: Session) returns (issues: seq<Issue>, unrecorded: nat)
    requires WellFormed(s)
    ensures forall i, k :: Count(issues, i, k) == if Raises(s, i, k) then 1 else 0
    ensures unrecorded == Unrecorded(s.versions)
  {
    assert forall i, k :: Count([], i, k) == 0;
    var last := |s.versions| - 1;
    assert forall i, k :: Pass(k) == 0 ==> (Raises(s, i, k) <==> i == last && k == NotOneCurrent && Currents(s.versions) != 1);
    hide Count, AfterLastConflict, Raises;
    var currents;
    currents, unrecorded := CountVersions(s.versions);
    issues := Flag([], last, NotOneCurrent, currents != 1);
    var from;
    issues, from := CheckVersions(s, issues);
    if currents != 1 || s.versions[last].status != Current {
      forall i, k | Pass(k) >= 5
        ensures !Raises(s, i, k)
      {
        NotComparable(s, i, k);
      }
      return;
    }
    issues := CheckEntries(s, from, issues);
  }

  function Unrecorded(versions: seq<Version>): (n: nat)
  {
    if versions == [] then 0
    else Unrecorded(versions[..|versions| - 1]) + if versions[|versions| - 1].digest.None? then 1 else 0
  }

  method CountVersions(versions: seq<Version>) returns (currents: nat, unrecorded: nat)
    ensures currents == Currents(versions) && unrecorded == Unrecorded(versions)
  {
    currents, unrecorded := 0, 0;
    for i := 0 to |versions|
      invariant currents == Currents(versions[..i]) && unrecorded == Unrecorded(versions[..i])
    {
      assert versions[..i + 1][..i] == versions[..i];
      if versions[i].status == Current { currents := currents + 1; }
      if versions[i].digest.None? { unrecorded := unrecorded + 1; }
    }
    assert versions[..|versions|] == versions;
  }

  // ----- what a session without issues is -----

  /** The versions from `from` on are, by their digests, a history that only grows, up to the stored entries. */
  ghost predicate Grows(s: Session, from: nat)
    requires WellFormed(s)
  {
    && (forall i :: from <= i < |s.versions| ==> HoldsEntries(s.versions[i]))
    && (forall i, j :: from <= i <= j < |s.versions| ==> EntriesOf(s.versions[i]) <= EntriesOf(s.versions[j]))
    && EntriesOf(s.versions[|s.versions| - 1]) == s.stored
  }

  predicate HoldsEntries(v: Version) {
    v.digest.Some? && v.digest.value.EntriesDigest? && v.entryCount == |v.digest.value.entries|
  }

  function EntriesOf(v: Version): seq<LogEntry> {
    if HoldsEntries(v) then v.digest.value.entries else []
  }

  predicate Reported(s: Session, i: int)
    requires WellFormed(s)
  {
    Raises(s, i, NotAPrefix) || Raises(s, i, TooLong) || Raises(s, i, StoredDiffer) || Raises(s, i, CountDecreased)
  }

  lemma {:induction false} NoCurrent(versions: seq<Version>, i: nat)
    requires i < |versions| && Currents(versions) == 0
    ensures versions[i].status != Current
  {
    if i < |versions| - 1 {
      NoCurrent(versions[..|versions| - 1], i);
    }
  }

  lemma OnlyLastIsCurrent(s: Session, i: nat)
    requires WellFormed(s) && Comparable(s) && i < |s.versions| - 1
    ensures s.versions[i].status == Superseded
  {
    NoCurrent(s.versions[..|s.versions| - 1], i);
  }

  /** The streaming check with the count check accepts the versions since the last genuine conflict exactly when they
      are nested prefixes of the stored entries. */
  lemma UnreportedIffGrows(s: Session, from: nat)
    requires WellFormed(s) && Comparable(s) && from == AfterLastConflict(s, |s.versions| - 1)
    requires forall i :: from <= i < |s.versions| ==> Recorded(s.versions[i].digest)
    ensures (forall i :: from <= i < |s.versions| ==> !Reported(s, i)) <==> Grows(s, from)
  {
    if forall i :: from <= i < |s.versions| ==> !Reported(s, i) {
      UnreportedGrows(s, from);
    }
    if Grows(s, from) {
      GrowsUnreported(s, from);
    }
  }

  lemma UnreportedIsPrefix(s: Session, i: nat)
    requires WellFormed(s) && Comparable(s) && AfterLastConflict(s, |s.versions| - 1) <= i < |s.versions|
    requires Recorded(s.versions[i].digest) && !Reported(s, i)
    ensures IsPrefix(s.versions[i], s.stored) && (i == |s.versions| - 1 ==> s.versions[i].entryCount == |s.stored|)
  {
    if i < |s.versions| - 1 {
      OnlyLastIsCurrent(s, i);
      assert !Raises(s, i, NotAPrefix) && !Raises(s, i, TooLong);
    } else {
      assert !Raises(s, i, StoredDiffer);
    }
  }

  lemma {:induction false} CountsGrow(s: Session, from: nat, i: nat, j: nat)
    requires WellFormed(s) && from == AfterLastConflict(s, |s.versions| - 1) && from <= i <= j < |s.versions|
    requires forall i :: from <= i < |s.versions| ==> !Reported(s, i)
    ensures s.versions[i].entryCount <= s.versions[j].entryCount
    decreases j
  {
    if i < j {
      CountsGrow(s, from, i, j - 1);
      assert !Reported(s, j) && !Genuine(s, j - 1);
    }
  }

  lemma PrefixHoldsEntries(v: Version, stored: seq<LogEntry>)
    requires IsPrefix(v, stored)
    ensures HoldsEntries(v) && EntriesOf(v) == stored[..v.entryCount]
  {
  }

  lemma UnreportedGrows(s: Session, from: nat)
    requires WellFormed(s) && Comparable(s) && from == AfterLastConflict(s, |s.versions| - 1)
    requires forall i :: from <= i < |s.versions| ==> Recorded(s.versions[i].digest)
    requires forall i :: from <= i < |s.versions| ==> !Reported(s, i)
    ensures Grows(s, from)
  {
    hide Reported, AfterLastConflict, Recorded, Currents, EntriesOf, HoldsEntries;
    forall i | from <= i < |s.versions|
      ensures IsPrefix(s.versions[i], s.stored) && HoldsEntries(s.versions[i])
      ensures EntriesOf(s.versions[i]) == s.stored[..s.versions[i].entryCount]
    {
      UnreportedIsPrefix(s, i);
      PrefixHoldsEntries(s.versions[i], s.stored);
    }
    UnreportedIsPrefix(s, |s.versions| - 1);
    assert s.stored[..|s.stored|] == s.stored;
    forall i, j | from <= i <= j < |s.versions|
      ensures EntriesOf(s.versions[i]) <= EntriesOf(s.versions[j])
    {
      CountsGrow(s, from, i, j);
    }
  }

  lemma HeldIsPrefix(v: Version, stored: seq<LogEntry>)
    requires HoldsEntries(v) && EntriesOf(v) <= stored
    ensures IsPrefix(v, stored)
  {
    assert EntriesOf(v) == stored[..v.entryCount];
  }

  lemma PrefixUnreported(s: Session, i: nat)
    requires WellFormed(s) && i < |s.versions| && IsPrefix(s.versions[i], s.stored)
    requires i == |s.versions| - 1 ==> s.versions[i].entryCount == |s.stored|
    requires i > 0 && !Genuine(s, i - 1) ==> s.versions[i - 1].entryCount <= s.versions[i].entryCount
    ensures !Reported(s, i)
  {
  }

  lemma GrowsUnreported(s: Session, from: nat)
    requires WellFormed(s) && Comparable(s) && from == AfterLastConflict(s, |s.versions| - 1) && Grows(s, from)
    ensures forall i :: from <= i < |s.versions| ==> !Reported(s, i)
  {
    hide Reported, AfterLastConflict, IsPrefix, Currents;
    forall i | from <= i < |s.versions|
      ensures !Reported(s, i)
    {
      assert EntriesOf(s.versions[i]) <= EntriesOf(s.versions[|s.versions| - 1]);
      HeldIsPrefix(s.versions[i], s.stored);
      if i > from {
        assert EntriesOf(s.versions[i - 1]) <= EntriesOf(s.versions[i]);
      }
      PrefixUnreported(s, i);
    }
  }

  // ----- the audit log fixes an unreported session -----

  predicate Unreported(s: Session)
    requires WellFormed(s)
  {
    forall i, kind :: 0 <= i < |s.versions| ==> !Raises(s, i, kind)
  }

  /** What is wanted of a session for the audit log to fix it: it is checked against that log, the log's last version was
      created current and not changed since, every creation recorded a count, and no version is unrecorded. */
  predicate Audited(s: Session)
    requires WellFormed(s)
  {
    && s.postgres && |s.history[|s.versions| - 1]| == 1 && s.history[|s.versions| - 1][0].status == Current
    && (forall i :: 0 <= i < |s.versions| ==> s.history[i] != [] ==> s.history[i][0].count.Some?)
    && forall i :: 0 <= i < |s.versions| ==> s.versions[i].digest.Some? && s.versions[i].digest.value != OtherText("")
  }

  lemma {:induction false} OneCurrent(versions: seq<Version>, i: nat, j: nat)
    requires i < j < |versions| && versions[i].status == versions[j].status == Current
    ensures Currents(versions) >= 2
  {
    var last := |versions| - 1;
    if j < last {
      OneCurrent(versions[..last], i, j);
    } else {
      SomeCurrent(versions[..last], i);
    }
  }

  lemma {:induction false} SomeCurrent(versions: seq<Version>, i: nat)
    requires i < |versions| && versions[i].status == Current
    ensures Currents(versions) >= 1
  {
    if i < |versions| - 1 {
      SomeCurrent(versions[..|versions| - 1], i);
    }
  }

  /** What the audit log says of an unreported version. */
  lemma VersionIsRecorded(s: Session, i: nat)
    requires WellFormed(s) && Audited(s) && Unreported(s) && i < |s.versions|
    ensures var v, events := s.versions[i], s.history[i];
            && events != [] && v.digest == FirstDigest(events) && Some(v.entryCount) == events[0].count
            && (v.status == Current <==> i == |s.versions| - 1)
            && (i < |s.versions| - 1 ==> v.content.Some? && v.content == events[|events| - 1].content)
  {
    var last := |s.versions| - 1;
    var v, events := s.versions[i], s.history[i];
    assert !Raises(s, i, NoCreation) && !Raises(s, i, DigestNotRecorded) && !Raises(s, i, CountNotRecorded);
    assert !Raises(s, i, ChangedLater) && !Raises(s, i, NeverSuperseded) && !Raises(s, i, ContentNotRecorded);
    assert !Raises(s, i, NoContentOrReason);
    assert !Raises(s, last, NoCreation) && !Raises(s, last, NeverSuperseded) && !Raises(s, last, NotOneCurrent);
    if i < last && v.status == Current {
      OneCurrent(s.versions, i, last);
    }
  }

  lemma StoredIsRecorded(s: Session)
    requires WellFormed(s) && Audited(s) && Unreported(s)
    ensures s.versions[|s.versions| - 1].digest == Some(EntriesDigest(s.stored))
  {
    var last := |s.versions| - 1;
    VersionIsRecorded(s, last);
    assert !Raises(s, last, StoredDiffer) && !Raises(s, last, NotOneCurrent);
    assert s.stored[..|s.stored|] == s.stored;
  }

  /** Tamper evidence: two sessions with the same audit history that are both unreported hold the same stored entries, and
      their versions have the same statuses, counts, digests and, once superseded, contents. So any change of these is
      reported, or leaves a version counted as unrecorded. */
  lemma HistoryFixesSession(s: Session, t: Session)
    requires WellFormed(s) && Audited(s) && Unreported(s) && WellFormed(t) && Audited(t) && Unreported(t)
    requires s.history == t.history
    ensures s.stored == t.stored && |s.versions| == |t.versions|
    ensures forall i :: 0 <= i < |s.versions| ==>
              && s.versions[i].status == t.versions[i].status && s.versions[i].entryCount == t.versions[i].entryCount
              && s.versions[i].digest == t.versions[i].digest
              && (i < |s.versions| - 1 ==> s.versions[i].content == t.versions[i].content)
  {
    hide Unreported, Audited;
    StoredIsRecorded(s);
    StoredIsRecorded(t);
    forall i | 0 <= i < |s.versions|
      ensures s.versions[i].status == t.versions[i].status && s.versions[i].entryCount == t.versions[i].entryCount
      ensures s.versions[i].digest == t.versions[i].digest
      ensures i < |s.versions| - 1 ==> s.versions[i].content == t.versions[i].content
    {
      VersionIsRecorded(s, i);
      VersionIsRecorded(t, i);
    }
  }
}
