/** `migrations/env.py`: the locks a migration takes beside a running portal, whose transactions share table locks, take
    the audit chain's lock exclusively (`lock_audit_chain`), and wait. */
module MigrationLocks {
  import opened Records

  // ----- transactions and locks -----

  datatype Wait = Running | ForTable(table: string) | ForChain

  /** A portal transaction: the tables it has shared locks on, and what it waits for. */
  datatype Writer = Writer(tables: set<string>, wait: Wait)

  datatype Owner = Migration | Portal(writer: nat)

  /** `exclusive`: the tables the migration has locked ACCESS EXCLUSIVE; `chain`: who holds the chain lock; `dropped`: tables
      that no longer exist. */
  datatype Locks = Locks(writers: seq<Writer>, exclusive: set<string>, chain: Option<Owner>, dropped: set<string>)

  /** The lock manager's rules: an exclusive lock is alone, and whoever waits waits for a lock someone else holds or held. */
  ghost predicate Sound(s: Locks) {
    && (forall i, t :: 0 <= i < |s.writers| && t in s.writers[i].tables ==> t !in s.exclusive)
    && (s.chain.Some? && s.chain.value.Portal? ==> s.chain.value.writer < |s.writers|)
    && forall i :: 0 <= i < |s.writers| && s.writers[i].wait.ForChain? ==> s.chain != Some(Portal(i))
  }

  /** A step of a portal transaction. */
  datatype Step =
    | Begin
    | AskTable(writer: nat, table: string)
    | AskChain(writer: nat)
    | Wake(writer: nat)
    | End(writer: nat)

  predicate Enabled(s: Locks, step: Step) {
    match step
    case Begin => true
    case AskTable(i, _) => i < |s.writers| && s.writers[i].wait == Running
    case AskChain(i) => i < |s.writers| && s.writers[i].wait == Running
    case Wake(i) => i < |s.writers| && s.writers[i].wait != Running
    case End(i) => i < |s.writers| && s.writers[i].wait == Running
  }

  predicate ChainFree(s: Locks, i: nat) {
    s.chain.None? || s.chain == Some(Portal(i))
  }

  /** The step taken: a lock in use is waited for; a waiting transaction gets its lock once it is free. */
  function Act(s: Locks, step: Step): Locks
    requires Enabled(s, step)
  {
    match step
    case Begin => s.(writers := s.writers + [Writer({}, Running)])
    case AskTable(i, t) =>
      var w := s.writers[i];
      s.(writers := s.writers[i := if t in s.exclusive then w.(wait := ForTable(t)) else w.(tables := w.tables + {t})])
    case AskChain(i) =>
      if ChainFree(s, i) then s.(chain := Some(Portal(i)))
      else s.(writers := s.writers[i := s.writers[i].(wait := ForChain)])
    case Wake(i) =>
      var w := s.writers[i];
      if w.wait.ForTable? && w.wait.table !in s.exclusive then
        s.(writers := s.writers[i := Writer(w.tables + {w.wait.table}, Running)])
      else if w.wait.ForChain? && s.chain.None? then
        s.(writers := s.writers[i := w.(wait := Running)], chain := Some(Portal(i)))
      else s
    case End(i) =>
      s.(writers := s.writers[i := Writer({}, Running)], chain := if s.chain == Some(Portal(i)) then None else s.chain)
  }

  lemma StepKeeps(s: Locks, step: Step)
    requires Sound(s) && Enabled(s, step)
    ensures Sound(Act(s, step))
    ensures Act(s, step).exclusive == s.exclusive && (Act(s, step).chain == Some(Migration) <==> s.chain == Some(Migration))
  {
  }

  // ----- who waits for whom -----

  predicate Waiting(s: Locks, a: Owner) {
    a.Portal? && a.writer < |s.writers| && s.writers[a.writer].wait != Running
  }

  /** `a` waits for a lock that `b` holds. */
  predicate BlockedBy(s: Locks, a: Owner, b: Owner) {
    && Waiting(s, a)
    && match s.writers[a.writer].wait
       case ForTable(t) => b == Migration && t in s.exclusive
       case ForChain => s.chain == Some(b)
       case Running => false
  }

  /** How many waits can follow: none from a transaction that does not wait, one from a table, two from the chain. */
  function Rank(s: Locks, a: Owner): nat {
    if !Waiting(s, a) then 0 else if s.writers[a.writer].wait.ForTable? then 1 else 2
  }

  /** Every wait leads to a transaction of smaller rank: the migration never waits, and the chain's holder never waits for
      the chain. */
  lemma WaitsDescend(s: Locks, a: Owner, b: Owner)
    requires Sound(s) && BlockedBy(s, a, b)
    ensures Rank(s, b) < Rank(s, a)
  {
  }

  predicate ChainOfWaits(s: Locks, path: seq<Owner>) {
    forall i :: 0 <= i < |path| - 1 ==> BlockedBy(s, path[i], path[i + 1])
  }

  lemma {:induction false} RanksDescend(s: Locks, path: seq<Owner>, i: nat)
    requires Sound(s) && ChainOfWaits(s, path) && i < |path|
    ensures Rank(s, path[i]) + i <= Rank(s, path[0])
  {
    if i > 0 {
      RanksDescend(s, path, i - 1);
      assert BlockedBy(s, path[i - 1], path[i]);
      WaitsDescend(s, path[i - 1], path[i]);
    }
  }

  /** No deadlock: no chain of waits comes back to a transaction or is longer than three, and one that goes on as far as
      it can ends at a transaction that does not wait or whose lock has become free. */
  lemma NoDeadlock(s: Locks, path: seq<Owner>)
    requires Sound(s) && path != [] && ChainOfWaits(s, path)
    ensures |path| <= 3 && forall i, j :: 0 <= i < j < |path| ==> path[i] != path[j]
    ensures var last := path[|path| - 1];
            (forall b :: !BlockedBy(s, last, b)) && last.Portal? && last.writer < |s.writers| && s.writers[last.writer].wait != Running ==>
              Act(s, Wake(last.writer)).writers[last.writer].wait == Running
  {
    RanksDescend(s, path, |path| - 1);
    forall i, j | 0 <= i < j < |path|
      ensures path[i] != path[j]
    {
      assert ChainOfWaits(s, path[i..]) by {
        forall k | 0 <= k < |path[i..]| - 1
          ensures BlockedBy(s, path[i..][k], path[i..][k + 1])
        {
          assert BlockedBy(s, path[i + k], path[i + k + 1]);
        }
      }
      RanksDescend(s, path[i..], j - i);
    }
    var last := path[|path| - 1];
    if (forall b :: !BlockedBy(s, last, b)) && Waiting(s, last) {
      assert !BlockedBy(s, last, Migration);
      assert s.chain.Some? ==> !BlockedBy(s, last, s.chain.value);
    }
  }

  /** What a step of a transaction does: a lock asked for is held, or waited for while it is in use; a lock waited for is
      held once the transaction goes on; at its end it holds none; nobody else's locks or waits change. */
  lemma StepMeans(s: Locks, step: Step, j: nat)
    requires Sound(s) && Enabled(s, step) && j < |s.writers|
    ensures var s' := Act(s, step);
            && |s'.writers| == |s.writers| + (if step.Begin? then 1 else 0) && s'.exclusive == s.exclusive && s'.dropped == s.dropped
            && (step.Begin? ==> s'.writers == s.writers + [Writer({}, Running)] && s'.chain == s.chain)
            && (!step.Begin? && j != step.writer ==>
                  s'.writers[j] == s.writers[j] && (s'.chain == Some(Portal(j)) <==> s.chain == Some(Portal(j))))
            && (step.AskTable? && j == step.writer ==>
                  && s'.chain == s.chain && s'.writers[j].wait == (if step.table in s.exclusive then ForTable(step.table) else Running)
                  && s'.writers[j].tables == s.writers[j].tables + if step.table in s.exclusive then {} else {step.table})
            && (step.AskChain? && j == step.writer ==>
                  && s'.writers[j].tables == s.writers[j].tables
                  && (s'.chain == Some(Portal(j)) <==> s.chain in {None, Some(Portal(j))})
                  && s'.writers[j].wait == if s.chain in {None, Some(Portal(j))} then Running else ForChain)
            && (step.Wake? && j == step.writer ==>
                  && s.writers[j].tables <= s'.writers[j].tables
                  && (s'.writers[j].wait == Running ==>
                        if s.writers[j].wait.ForTable? then s'.writers[j].tables == s.writers[j].tables + {s.writers[j].wait.table}
                        else s'.chain == Some(Portal(j)))
                  && (s'.writers[j].wait != Running ==> s' == s))
            && (step.End? && j == step.writer ==> s'.writers[j] == Writer({}, Running) && s'.chain != Some(Portal(j)))
  {
  }

  ghost function Execute(s: Locks, steps: seq<Step>): Option<Locks>
    decreases |steps|
  {
    if steps == [] then Some(s) else if Enabled(s, steps[0]) then Execute(Act(s, steps[0]), steps[1..]) else None
  }

  /** The transactions that wait. */
  ghost function Waiters(s: Locks): set<int> {
    set i | 0 <= i < |s.writers| && s.writers[i].wait != Running
  }

  lemma ExecuteMore(s: Locks, first: Step, rest: seq<Step>)
    requires Enabled(s, first)
    ensures Execute(s, [first] + rest) == Execute(Act(s, first), rest)
  {
    assert ([first] + rest)[1..] == rest;
  }

  /** The next waiting transaction goes on, after the end of the chain lock's holder if need be. */
  lemma OneProceeds(s: Locks) returns (steps: seq<Step>, s': Locks)
    requires Sound(s) && s.exclusive == {} && s.chain != Some(Migration) && Waiters(s) != {}
    ensures Execute(s, steps) == Some(s') && Sound(s') && s'.exclusive == {} && s'.chain != Some(Migration)
    ensures Waiters(s') < Waiters(s)
  {
    var i: int :| i in Waiters(s);
    if j: int :| 0 <= j < |s.writers| && s.writers[j].wait.ForTable? {
      s' := Act(s, Wake(j));
      steps := [Wake(j)] + [];
      ExecuteMore(s, Wake(j), []);
      assert j in Waiters(s) && j !in Waiters(s');
    } else if s.chain.None? {
      s' := Act(s, Wake(i));
      steps := [Wake(i)] + [];
      ExecuteMore(s, Wake(i), []);
      assert i in Waiters(s) && i !in Waiters(s');
    } else {
      var j := s.chain.value.writer;
      var middle := Act(s, End(j));
      s' := Act(middle, Wake(i));
      steps := [End(j)] + ([Wake(i)] + []);
      ExecuteMore(s, End(j), [Wake(i)] + []);
      ExecuteMore(middle, Wake(i), []);
      assert i in Waiters(s) && i !in Waiters(s');
    }
    StepsKeep(s, steps, s');
  }

  lemma {:induction false} StepsKeep(s: Locks, steps: seq<Step>, s': Locks)
    requires Sound(s) && Execute(s, steps) == Some(s')
    ensures Sound(s') && s'.exclusive == s.exclusive && (s'.chain == Some(Migration) <==> s.chain == Some(Migration))
    decreases |steps|
  {
    if steps != [] {
      StepKeeps(s, steps[0]);
      StepsKeep(Act(s, steps[0]), steps[1..], s');
    }
  }

  lemma {:induction false} ExecuteBoth(s: Locks, a: seq<Step>, b: seq<Step>)
    ensures Execute(s, a).Some? ==> Execute(s, a + b) == Execute(Execute(s, a).value, b)
    decreases |a|
  {
    if a == [] {
      assert a + b == b;
    } else if Enabled(s, a[0]) {
      assert (a + b)[1..] == a[1..] + b;
      ExecuteBoth(Act(s, a[0]), a[1..], b);
    }
  }

  /** Once the migration holds nothing, the portal's transactions can go on until none waits: no wait is for good. */
  lemma {:induction false} EveryoneProceeds(s: Locks) returns (steps: seq<Step>, s': Locks)
    requires Sound(s) && s.exclusive == {} && s.chain != Some(Migration)
    ensures Execute(s, steps) == Some(s') && forall i :: 0 <= i < |s'.writers| ==> s'.writers[i].wait == Running
    decreases |Waiters(s)|
  {
    steps, s' := [], s;
    if Waiters(s) == {} {
      forall i | 0 <= i < |s.writers|
        ensures s.writers[i].wait == Running
      {
        assert i !in Waiters(s);
      }
    } else {
      var first, middle := OneProceeds(s);
      Fewer(Waiters(middle), Waiters(s));
      var rest;
      rest, s' := EveryoneProceeds(middle);
      ExecuteBoth(s, first, rest);
      steps := first + rest;
    }
  }

  lemma Fewer(a: set<int>, b: set<int>)
    requires a < b
    ensures |a| < |b|
  {
    assert b == a + (b - a);
  }

  // ----- the migration's side -----

  lemma HeldExcludes(s: Locks, tables: seq<string>)
    requires Sound(s) && Elements(tables) <= s.exclusive
    ensures forall i, t :: 0 <= i < |s.writers| && t in tables ==> t !in s.writers[i].tables
  {
    assert forall t :: t in tables ==> t in Elements(tables);
  }

  datatype Answer = Granted | InUse | Broken

  /** The state of one attempt. */
  datatype Attempt = Held | Busy(what: string) | Error

  class Database {
    var s: Locks

    ghost predicate Valid()
      reads this
    {
      Sound(s)
    }

    /** The migration holds the chain lock. */
    predicate HasChain()
      reads this
    {
      s.chain == Some(Migration)
    }

    /** Any number of steps of the portal's transactions; tables may be dropped meanwhile. */
    method Others()
      requires Valid()
      modifies this
      ensures Valid() && s.exclusive == old(s.exclusive) && HasChain() == old(HasChain())
    {
      var steps: nat :| true;
      for i := 0 to steps
        invariant Valid() && s.exclusive == old(s.exclusive) && HasChain() == old(HasChain())
      {
        var step: Step :| true;
        if Enabled(s, step) {
          StepKeeps(s, step);
          s := Act(s, step);
        }
      }
    }

    /** `LOCK TABLE ... IN ACCESS EXCLUSIVE MODE NOWAIT`. */
    method LockNowait(t: string) returns (answer: Answer)
      requires Valid()
      modifies this
      ensures Valid() && HasChain() == old(HasChain())
      ensures s.exclusive == if answer == Granted then old(s.exclusive) + {t} else old(s.exclusive)
      ensures answer == InUse ==> t !in s.dropped && exists i :: 0 <= i < |s.writers| && t in s.writers[i].tables
      ensures answer == Broken ==> t in s.dropped
    {
      Others();
      if t in s.dropped {
        return Broken;
      }
      var used := exists i :: 0 <= i < |s.writers| && t in s.writers[i].tables;
      if used {
        return InUse;
      }
      s := s.(exclusive := s.exclusive + {t});
      return Granted;
    }

    /** `pg_try_advisory_xact_lock`. */
    method TryChain() returns (granted: bool)
      requires Valid()
      modifies this
      ensures Valid() && s.exclusive == old(s.exclusive)
      ensures HasChain() == (granted || old(HasChain()))
      ensures !granted ==> s.chain.Some? && s.chain != Some(Migration)
    {
      Others();
      if s.chain.Some? && s.chain != Some(Migration) {
        return false;
      }
      s := s.(chain := Some(Migration));
      return true;
    }

    /** Rollback to the savepoint: the locks taken since are released. */
    method Rollback(exclusive: set<string>, chain: bool)
      requires Valid() && exclusive <= s.exclusive && (chain ==> HasChain())
      modifies this
      ensures Valid() && s.exclusive == exclusive && HasChain() == chain
      ensures s.writers == old(s.writers) && s.dropped == old(s.dropped) && (!old(HasChain()) ==> s.chain == old(s.chain))
    {
      s := s.(exclusive := exclusive, chain := if s.chain == Some(Migration) && !chain then None else s.chain);
    }

    /** The named lock is in the portal's hands. */
    ghost predicate InUseNow(what: string, tables: seq<string>, chain: bool)
      reads this
    {
      || (exists t, i :: t in tables && what == "table " + t && 0 <= i < |s.writers| && t in s.writers[i].tables)
      || (chain && what == "the audit chain lock" && s.chain.Some? && s.chain != Some(Migration))
    }

    /** `_try_locks`: every lock, or none that was not held before; then some lock named is in use, or a table is gone. */
    method TryLocks(tables: seq<string>, chain: bool) returns (attempt: Attempt)
      requires Valid()
      modifies this
      ensures Valid()
      ensures if attempt == Held
              then s.exclusive == old(s.exclusive) + Elements(tables) && HasChain() == (chain || old(HasChain()))
              else s.exclusive == old(s.exclusive) && HasChain() == old(HasChain())
      ensures attempt.Held? ==> forall i, t :: 0 <= i < |s.writers| && t in tables ==> t !in s.writers[i].tables
      ensures attempt.Busy? ==> InUseNow(attempt.what, tables, chain)
      ensures attempt.Error? ==> exists t :: t in tables && t in s.dropped
    {
      hide Sound;
      var exclusive, hadChain := s.exclusive, HasChain();
      for i := 0 to |tables|
        invariant Valid() && s.exclusive == exclusive + Elements(tables[..i]) && HasChain() == hadChain
      {
        var answer := LockNowait(tables[i]);
        if answer != Granted {
          Rollback(exclusive, hadChain);
          return if answer == InUse then Busy("table " + tables[i]) else Error;
        }
        assert tables[..i + 1] == tables[..i] + [tables[i]];
      }
      assert tables[..|tables|] == tables;
      if chain {
        var granted := TryChain();
        if !granted {
          Rollback(exclusive, hadChain);
          return Busy("the audit chain lock");
        }
      }
      HeldExcludes(s, tables);
      return Held;
    }

    /** `_take_locks`: as many attempts as the budget allows, the portal running in between. */
    method TakeLocks(tables: seq<string>, chain: bool, attempts: nat) returns (attempt: Attempt, ghost made: nat)
      requires Valid()
      modifies this
      ensures Valid() && 1 <= made <= attempts + 1 && (attempt.Busy? ==> made == attempts + 1)
      ensures if attempt == Held
              then s.exclusive == old(s.exclusive) + Elements(tables) && HasChain() == (chain || old(HasChain()))
              else s.exclusive == old(s.exclusive) && HasChain() == old(HasChain())
      ensures attempt.Held? ==> forall i, t :: 0 <= i < |s.writers| && t in tables ==> t !in s.writers[i].tables
      ensures attempt.Busy? ==> InUseNow(attempt.what, tables, chain)
      ensures attempt.Error? ==> exists t :: t in tables && t in s.dropped
    {
      hide Sound;
      var left := attempts;
      attempt := TryLocks(tables, chain);
      made := 1;
      while attempt.Busy? && left > 0
        invariant Valid() && made == 1 + attempts - left
        invariant if attempt == Held
                  then s.exclusive == old(s.exclusive) + Elements(tables) && HasChain() == (chain || old(HasChain()))
                  else s.exclusive == old(s.exclusive) && HasChain() == old(HasChain())
        invariant attempt.Held? ==> forall i, t :: 0 <= i < |s.writers| && t in tables ==> t !in s.writers[i].tables
        invariant attempt.Busy? ==> InUseNow(attempt.what, tables, chain)
        invariant attempt.Error? ==> exists t :: t in tables && t in s.dropped
        decreases left
      {
        Others();
        attempt := TryLocks(tables, chain);
        left, made := left - 1, made + 1;
      }
    }
  }

  function Elements(tables: seq<string>): set<string> {
    set t | t in tables
  }

  // ----- the plan -----

  const WRITER_ORDER := [
    "controls", "test_records", "policies", "evidence", "systems", "vendors", "risk_register",
    "pentest_findings", "team_members", "portal_settings", "collector_config", "collector_run",
    "collector_check_result", "decision_log_sessions", "decision_log_entries",
    "decision_log_transcripts", "git_sources", "git_source_files", "git_file_versions",
    "git_commits", "git_sync_runs", "evidence_store_objects", "evidence_documents",
    "evidence_document_links", "evidence_store_sync_runs", "evidence_store_retention_floors", "policy_controls",
    "vendor_systems", "audit_log"
  ]

  /** A revision's entry in `REVISION_LOCKS`: its tables (none for every table), and whether it writes audited rows. */
  datatype Declared = Declared(tables: Option<set<string>>, writesAuditedRows: bool)

  predicate Declares(d: Declared, t: string) {
    d.tables.None? || t in d.tables.value
  }

  /** The revision's declaration; a revision that is not listed, or that cannot be placed (None), alters every table. */
  function DeclarationOf(declarations: map<string, Declared>, revision: Option<string>): Declared {
    if revision.Some? && revision.value in declarations then declarations[revision.value] else Declared(None, true)
  }

  function IndexIn(order: seq<string>, t: string): (i: nat)
    requires t in order
    ensures i < |order| && order[i] == t
  {
    if order[0] == t then 0 else 1 + IndexIn(order[1..], t)
  }

  /** `_writer_order_key`, without the name that breaks ties. */
  function Class(t: string): (nat, nat) {
    if t == "audit_log" then (2, 0) else if t in WRITER_ORDER then (0, IndexIn(WRITER_ORDER, t)) else (1, 0)
  }

  predicate TextBefore(s: string, t: string) {
    if t == "" then false
    else if s == "" then true
    else s[0] < t[0] || (s[0] == t[0] && TextBefore(s[1..], t[1..]))
  }

  predicate Before(s: string, t: string) {
    var (a, i), (b, j) := Class(s), Class(t);
    a < b || (a == b && (i < j || (i == j && TextBefore(s, t))))
  }

  lemma {:induction false} TextOrder(s: string, t: string, u: string)
    ensures TextBefore(s, t) && TextBefore(t, u) ==> TextBefore(s, u)
    ensures s != t ==> TextBefore(s, t) || TextBefore(t, s)
    ensures !TextBefore(s, s)
    decreases |s| + |t| + |u|
  {
    if s != "" {
      TextOrder(s[1..], if t == "" then "" else t[1..], if u == "" then "" else u[1..]);
      if t != "" && s[0] == t[0] {
        assert s == [s[0]] + s[1..] && t == [t[0]] + t[1..];
      }
    }
  }

  lemma BeforeIsAnOrder(s: string, t: string, u: string)
    ensures Before(s, t) && Before(t, u) ==> Before(s, u)
    ensures s != t ==> Before(s, t) || Before(t, s)
    ensures !Before(s, s)
  {
    TextOrder(s, t, u);
  }

  predicate InWriterOrder(tables: seq<string>) {
    forall i, j :: 0 <= i < j < |tables| ==> Before(tables[i], tables[j])
  }

  /** The table put in its place among tables in writer order, unless it is there already. */
  function InsertTable(tables: seq<string>, t: string): seq<string> {
    if tables == [] then [t]
    else
      var last := tables[|tables| - 1];
      if last == t then tables
      else if Before(last, t) then tables + [t]
      else InsertTable(tables[..|tables| - 1], t) + [last]
  }

  lemma ElementsNext(tables: seq<string>, t: string)
    ensures Elements(tables + [t]) == Elements(tables) + {t}
  {
  }

  lemma LastIsElement(tables: seq<string>)
    requires tables != []
    ensures Elements(tables) == Elements(tables) + {tables[|tables| - 1]}
  {
  }

  lemma {:induction false} InsertContains(tables: seq<string>, t: string)
    ensures Elements(InsertTable(tables, t)) == Elements(tables) + {t}
    decreases |tables|
  {
    if tables != [] {
      var most, last := tables[..|tables| - 1], tables[|tables| - 1];
      assert tables == most + [last];
      InsertContains(most, t);
      hide Elements, Before;
      ElementsNext(most, last);
      ElementsNext(tables, t);
      ElementsNext(InsertTable(most, t), last);
      LastIsElement(tables);
    } else {
      ElementsNext([], t);
    }
  }

  lemma {:induction false} InsertOrders(tables: seq<string>, t: string)
    requires InWriterOrder(tables)
    ensures InWriterOrder(InsertTable(tables, t))
    decreases |tables|
  {
    hide Before;
    if tables != [] {
      var most, last := tables[..|tables| - 1], tables[|tables| - 1];
      BeforeIsAnOrder(t, last, last);
      if last != t && Before(last, t) {
        forall i | 0 <= i < |tables|
          ensures Before(tables[i], t)
        {
          BeforeIsAnOrder(tables[i], last, t);
        }
      } else if last != t {
        InsertOrders(most, t);
        InsertContains(most, t);
        var r := InsertTable(most, t);
        forall i | 0 <= i < |r|
          ensures Before(r[i], last)
        {
          assert r[i] in Elements(r);
          if r[i] != t {
            assert r[i] in Elements(most);
            var k :| 0 <= k < |most| && most[k] == r[i];
            assert tables[k] == r[i];
          }
        }
      }
    }
  }

  /** `_lock_plan` with an upgrade pending: the tables in writer order, and whether to take the chain lock. */
  method LockPlan(declarations: map<string, Declared>, pending: seq<Option<string>>, existing: seq<string>)
      returns (tables: seq<string>, chain: bool)
    ensures InWriterOrder(tables)
    ensures forall t :: t in tables <==> && t in existing
                                         && exists r :: r in pending && (r.None? || r.value !in declarations || declarations[r.value].tables.None?
                                                                         || t in declarations[r.value].tables.value)
    ensures chain <==> exists r :: r in pending && (r.None? || r.value !in declarations || declarations[r.value].writesAuditedRows)
  {
    var wanted: set<string>;
    wanted, chain := {}, false;
    var all := set t | t in existing;
    for i := 0 to |pending|
      invariant forall t :: t in wanted <==> t in existing && exists r :: r in pending[..i] && Declares(DeclarationOf(declarations, r), t)
      invariant chain <==> exists r :: r in pending[..i] && DeclarationOf(declarations, r).writesAuditedRows
    {
      var d := DeclarationOf(declarations, pending[i]);
      assert pending[..i + 1] == pending[..i] + [pending[i]];
      wanted := wanted + if d.tables.None? then all else d.tables.value * all;
      chain := chain || d.writesAuditedRows;
    }
    assert pending[..|pending|] == pending;
    tables := Sorted(existing, wanted);
  }

  method Sorted(existing: seq<string>, wanted: set<string>) returns (tables: seq<string>)
    requires forall t :: t in wanted ==> t in existing
    ensures InWriterOrder(tables) && forall t :: t in tables <==> t in wanted
  {
    tables := [];
    for i := 0 to |existing|
      invariant InWriterOrder(tables) && Elements(tables) == (set t | t in existing[..i] && t in wanted)
    {
      assert existing[..i + 1] == existing[..i] + [existing[i]];
      if existing[i] in wanted {
        InsertOrders(tables, existing[i]);
        InsertContains(tables, existing[i]);
        tables := InsertTable(tables, existing[i]);
      }
    }
    assert existing[..|existing|] == existing;
    assert forall t :: t in tables <==> t in Elements(tables);
  }

  lemma {:induction false} IndexIs(order: seq<string>, a: nat)
    requires a < |order| && forall k :: 0 <= k < a ==> order[k] != order[a]
    ensures IndexIn(order, order[a]) == a
  {
    if a > 0 {
      assert order[1..][a - 1] == order[a];
      IndexIs(order[1..], a - 1);
    }
  }

  lemma {:induction false} TextBeforeMeans(s: string, t: string) returns (k: nat)
    requires TextBefore(s, t)
    ensures k <= |s| && k < |t| && s[..k] == t[..k] && (k == |s| || s[k] < t[k])
  {
    if s == "" || s[0] < t[0] {
      k := 0;
    } else {
      k := TextBeforeMeans(s[1..], t[1..]);
      assert s[..k + 1] == [s[0]] + s[1..][..k] && t[..k + 1] == [t[0]] + t[1..][..k];
      k := k + 1;
    }
  }

  /** The order of a plan: tables of `WRITER_ORDER` by their first place in it, all before the others, which go by name, and
      `audit_log` after everything. */
  lemma WriterOrderMeans(tables: seq<string>, i: nat, j: nat)
    requires InWriterOrder(tables) && i < j < |tables|
    ensures tables[i] != "audit_log"
    ensures tables[j] in WRITER_ORDER && tables[j] != "audit_log" ==> tables[i] in WRITER_ORDER
    ensures forall a, b ::
              (&& 0 <= a < |WRITER_ORDER| && tables[i] == WRITER_ORDER[a] && (forall k :: 0 <= k < a ==> WRITER_ORDER[k] != WRITER_ORDER[a])
               && 0 <= b < |WRITER_ORDER| && tables[j] == WRITER_ORDER[b] && (forall k :: 0 <= k < b ==> WRITER_ORDER[k] != WRITER_ORDER[b])
               && tables[j] != "audit_log") ==> a < b
    ensures tables[i] !in WRITER_ORDER && tables[j] !in WRITER_ORDER ==>
              exists k :: 0 <= k <= |tables[i]| && k < |tables[j]| && tables[i][..k] == tables[j][..k]
                          && (k == |tables[i]| || tables[i][k] < tables[j][k])
  {
    hide IndexIn;
    var s, t := tables[i], tables[j];
    assert Before(s, t);
    BeforeIsAnOrder(s, t, t);
    forall a, b | 0 <= a < |WRITER_ORDER| && 0 <= b < |WRITER_ORDER| && s == WRITER_ORDER[a] && t == WRITER_ORDER[b] && t != "audit_log"
                  && (forall k :: 0 <= k < a ==> WRITER_ORDER[k] != WRITER_ORDER[a])
                  && (forall k :: 0 <= k < b ==> WRITER_ORDER[k] != WRITER_ORDER[b])
      ensures a < b
    {
      IndexIs(WRITER_ORDER, a);
      IndexIs(WRITER_ORDER, b);
    }
    if s !in WRITER_ORDER && t !in WRITER_ORDER {
      assert Class(s) == Class(t) == (1, 0);
      var k := TextBeforeMeans(s, t);
    }
  }

  lemma NothingAfterAuditLog(t: string)
    ensures !Before("audit_log", t)
  {
    BeforeIsAnOrder("audit_log", "audit_log", "audit_log");
  }

  /** In a plan, the portal's tables keep their writer order, other tables follow, and `audit_log` is last. */
  lemma AuditLogIsLast(tables: seq<string>, i: nat)
    requires InWriterOrder(tables) && i < |tables| && tables[i] == "audit_log"
    ensures i == |tables| - 1
  {
    NothingAfterAuditLog(tables[|tables| - 1]);
  }
}
