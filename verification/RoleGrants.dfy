/** `cli/db_cmd.py`: the statements that give the application role exactly its privileges. */
module RoleGrants {
  import opened Records

  datatype Privilege =
    | Connect | Temporary | Create | Usage | Select | Insert | Update | Delete | Truncate | References | Trigger | Maintain

  datatype Target = Database | SchemaPublic | Relation(name: string)

  datatype Statement = Grant(privileges: set<Privilege>, target: Target) | Revoke(privileges: set<Privilege>, target: Target)

  /** A relation of schema `public`: a table or view, or a sequence with the table it belongs to, if any. */
  datatype Rel = TableLike(name: string) | Sequence(name: string, owningTable: Option<string>)

  /** What the role holds directly. */
  type Held = set<(Target, Privilege)>

  const SELECT_ONLY_TABLES := ["audit_log", "audit_witness_arming", "alembic_version"]
  const APPEND_ONLY_TABLES := ["audit_witness_publications"]
  const NO_DELETE_TABLES := ["evidence_store_objects", "evidence_documents", "evidence_store_sync_runs",
                             "evidence_store_retention_floors"]

  // ----- executing statements -----

  function Pairs(privileges: set<Privilege>, target: Target): Held {
    set p | p in privileges :: (target, p)
  }

  function Execute(held: Held, s: Statement): Held {
    match s
    case Grant(ps, t) => held + Pairs(ps, t)
    case Revoke(ps, t) => held - Pairs(ps, t)
  }

  function ExecuteAll(held: Held, statements: seq<Statement>): Held {
    if statements == [] then held
    else Execute(ExecuteAll(held, statements[..|statements| - 1]), statements[|statements| - 1])
  }

  // ----- the documented privileges -----

  /** Every privilege an object of the kind can carry; MAINTAIN exists from PostgreSQL 17 on. */
  function PossibleOn(rel: Rel, maintain: bool): set<Privilege> {
    if rel.Sequence? then {Usage, Select, Update}
    else {Select, Insert, Update, Delete, Truncate, References, Trigger} + if maintain then {Maintain} else {}
  }

  /** Sequences of read-only tables may be read; read-only, append-only and no-delete tables as their names say; anything
      else may be read and written, never truncated. */
  function DocumentedOn(rel: Rel): set<Privilege> {
    match rel
    case Sequence(_, owner) => if owner.Some? && owner.value in SELECT_ONLY_TABLES then {Select} else {Usage, Select}
    case TableLike(name) =>
      {Select}
      + (if name in SELECT_ONLY_TABLES then {} else {Insert})
      + (if name in SELECT_ONLY_TABLES || name in APPEND_ONLY_TABLES then {} else {Update})
      + (if name in SELECT_ONLY_TABLES || name in APPEND_ONLY_TABLES || name in NO_DELETE_TABLES then {} else {Delete})
  }

  predicate Distinct(rels: seq<Rel>) {
    forall i, j :: 0 <= i < j < |rels| ==> rels[i].name != rels[j].name
  }

  function Lookup(rels: seq<Rel>, name: string): Option<Rel> {
    if rels == [] then None
    else if rels[|rels| - 1].name == name then Some(rels[|rels| - 1])
    else Lookup(rels[..|rels| - 1], name)
  }

  predicate Listed(rels: seq<Rel>, t: Target) {
    t.Relation? ==> Lookup(rels, t.name).Some?
  }

  function Documented(rels: seq<Rel>, t: Target): set<Privilege>
    requires Listed(rels, t)
  {
    match t
    case Database => {Connect}
    case SchemaPublic => {Usage}
    case Relation(name) => DocumentedOn(Lookup(rels, name).value)
  }

  function Possible(rels: seq<Rel>, t: Target, maintain: bool): set<Privilege>
    requires Listed(rels, t)
  {
    match t
    case Database => {Connect, Temporary, Create}
    case SchemaPublic => {Usage, Create}
    case Relation(name) => PossibleOn(Lookup(rels, name).value, maintain)
  }

  // ----- app_role_grants -----

  /** The two statements for a relation. */
  function RelationStatements(rel: Rel, maintain: bool): seq<Statement> {
    var more := if maintain then {Maintain} else {};
    var t := Relation(rel.name);
    match rel
    case Sequence(_, owner) =>
      if owner.Some? && owner.value in SELECT_ONLY_TABLES
      then [Grant({Select}, t), Revoke({Usage, Update}, t)]
      else [Grant({Usage, Select}, t), Revoke({Update}, t)]
    case TableLike(name) =>
      if name in APPEND_ONLY_TABLES then
        [Grant({Select, Insert}, t), Revoke({Update, Delete, Truncate, References, Trigger} + more, t)]
      else if name in NO_DELETE_TABLES then
        [Grant({Select, Insert, Update}, t), Revoke({Delete, Truncate, References, Trigger} + more, t)]
      else if name in SELECT_ONLY_TABLES then
        [Grant({Select}, t), Revoke({Insert, Update, Delete, Truncate, References, Trigger} + more, t)]
      else
        [Grant({Select, Insert, Update, Delete}, t), Revoke({Truncate, References, Trigger} + more, t)]
  }

  function Statements(rels: seq<Rel>, maintain: bool): seq<Statement> {
    if rels == [] then
      [Grant({Connect}, Database), Revoke({Temporary, Create}, Database),
       Grant({Usage}, SchemaPublic), Revoke({Create}, SchemaPublic)]
    else Statements(rels[..|rels| - 1], maintain) + RelationStatements(rels[|rels| - 1], maintain)
  }

  method AppRoleGrants(rels: seq<Rel>, version: int) returns (statements: seq<Statement>)
    ensures statements == Statements(rels, version >= 170000)
  {
    var maintain := version >= 170000;
    statements := [Grant({Connect}, Database), Revoke({Temporary, Create}, Database),
                   Grant({Usage}, SchemaPublic), Revoke({Create}, SchemaPublic)];
    for i := 0 to |rels|
      invariant statements == Statements(rels[..i], maintain)
    {
      assert rels[..i + 1][..i] == rels[..i];
      statements := statements + RelationStatements(rels[i], maintain);
    }
    assert rels[..|rels|] == rels;
  }

  // ----- what holds after every prefix -----

  /** A grant of documented privileges, or a revocation of others. */
  predicate Harmless(rels: seq<Rel>, s: Statement) {
    && Listed(rels, s.target)
    && (s.Grant? ==> s.privileges <= Documented(rels, s.target))
    && (s.Revoke? ==> s.privileges !! Documented(rels, s.target))
  }

  lemma {:induction false} LookupPrefix(rels: seq<Rel>, i: nat)
    requires Distinct(rels) && i < |rels|
    ensures Lookup(rels, rels[i].name) == Some(rels[i])
    decreases |rels|
  {
    if i < |rels| - 1 {
      LookupPrefix(rels[..|rels| - 1], i);
    }
  }

  lemma RelationIsHarmless(rels: seq<Rel>, rel: Rel, maintain: bool, k: nat)
    requires Lookup(rels, rel.name) == Some(rel) && k < 2
    ensures |RelationStatements(rel, maintain)| == 2 && Harmless(rels, RelationStatements(rel, maintain)[k])
  {
  }

  predicate AllHarmless(rels: seq<Rel>, statements: seq<Statement>) {
    forall i :: 0 <= i < |statements| ==> Harmless(rels, statements[i])
  }

  lemma BothHarmless(rels: seq<Rel>, a: seq<Statement>, b: seq<Statement>)
    requires AllHarmless(rels, a) && AllHarmless(rels, b)
    ensures AllHarmless(rels, a + b)
  {
    hide Harmless;
  }

  lemma RelationAllHarmless(rels: seq<Rel>, rel: Rel, maintain: bool)
    requires Lookup(rels, rel.name) == Some(rel)
    ensures AllHarmless(rels, RelationStatements(rel, maintain))
  {
    RelationIsHarmless(rels, rel, maintain, 0);
    RelationIsHarmless(rels, rel, maintain, 1);
  }

  lemma {:induction false} StatementsAreHarmless(rels: seq<Rel>, n: nat, maintain: bool)
    requires Distinct(rels) && n <= |rels|
    ensures AllHarmless(rels, Statements(rels[..n], maintain))
  {
    if n > 0 {
      StatementsAreHarmless(rels, n - 1, maintain);
      LookupPrefix(rels, n - 1);
      RelationAllHarmless(rels, rels[n - 1], maintain);
      assert rels[..n][..n - 1] == rels[..n - 1];
      hide AllHarmless, RelationStatements;
      BothHarmless(rels, Statements(rels[..n - 1], maintain), RelationStatements(rels[n - 1], maintain));
    }
  }

  /** Nothing held beyond the initial and the documented privileges, and nothing documented lost. */
  predicate Between(rels: seq<Rel>, initial: Held, held: Held) {
    && (forall h :: h in held && Listed(rels, h.0) ==> h in initial || h.1 in Documented(rels, h.0))
    && (forall h :: h in initial && Listed(rels, h.0) && h.1 in Documented(rels, h.0) ==> h in held)
    && (forall h :: h in held && !Listed(rels, h.0) ==> h in initial) && forall h :: h in initial && !Listed(rels, h.0) ==> h in held
  }

  lemma {:induction false} HarmlessKeepsBetween(rels: seq<Rel>, initial: Held, statements: seq<Statement>)
    requires forall i :: 0 <= i < |statements| ==> Harmless(rels, statements[i])
    ensures Between(rels, initial, ExecuteAll(initial, statements))
    decreases |statements|
  {
    hide Documented, Lookup;
    if statements != [] {
      HarmlessKeepsBetween(rels, initial, statements[..|statements| - 1]);
    }
  }

  /** After every prefix of its statements the role holds, on any object, nothing outside its initial and its documented
      privileges, and keeps the documented ones it had; objects not listed are left alone. */
  lemma EveryPrefixIsSafe(rels: seq<Rel>, maintain: bool, initial: Held, n: nat)
    requires Distinct(rels) && n <= |Statements(rels, maintain)|
    ensures Between(rels, initial, ExecuteAll(initial, Statements(rels, maintain)[..n]))
  {
    StatementsAreHarmless(rels, |rels|, maintain);
    assert rels[..|rels|] == rels;
    HarmlessKeepsBetween(rels, initial, Statements(rels, maintain)[..n]);
  }

  // ----- the final privileges -----

  lemma {:induction false} GrantedStays(rels: seq<Rel>, initial: Held, statements: seq<Statement>, k: nat, p: Privilege)
    requires forall i :: 0 <= i < |statements| ==> Harmless(rels, statements[i])
    requires k < |statements| && statements[k].Grant? && p in statements[k].privileges
    ensures (statements[k].target, p) in ExecuteAll(initial, statements)
    decreases |statements|
  {
    hide Documented, Lookup;
    if k < |statements| - 1 {
      GrantedStays(rels, initial, statements[..|statements| - 1], k, p);
    }
  }

  lemma {:induction false} RevokedStays(rels: seq<Rel>, initial: Held, statements: seq<Statement>, k: nat, p: Privilege)
    requires forall i :: 0 <= i < |statements| ==> Harmless(rels, statements[i])
    requires k < |statements| && statements[k].Revoke? && p in statements[k].privileges
    ensures (statements[k].target, p) !in ExecuteAll(initial, statements)
    decreases |statements|
  {
    hide Documented, Lookup;
    if k < |statements| - 1 {
      RevokedStays(rels, initial, statements[..|statements| - 1], k, p);
    }
  }

  /** The first statement grants exactly what is documented, the second revokes everything else the object can carry. */
  lemma RelationIsCovered(rel: Rel, maintain: bool)
    ensures var ss := RelationStatements(rel, maintain);
            && |ss| == 2 && ss[0] == Grant(DocumentedOn(rel), Relation(rel.name))
            && ss[1].Revoke? && ss[1].target == Relation(rel.name)
            && PossibleOn(rel, maintain) <= DocumentedOn(rel) + ss[1].privileges
  {
  }

  lemma {:induction false} StatementCount(rels: seq<Rel>, maintain: bool)
    ensures |Statements(rels, maintain)| == 4 + 2 * |rels|
    decreases |rels|
  {
    if rels != [] {
      StatementCount(rels[..|rels| - 1], maintain);
      RelationIsCovered(rels[|rels| - 1], maintain);
    }
  }

  lemma {:induction false} PositionOf(rels: seq<Rel>, maintain: bool, i: nat)
    requires i < |rels|
    ensures |Statements(rels, maintain)| == 4 + 2 * |rels|
    ensures RelationStatements(rels[i], maintain) == Statements(rels, maintain)[4 + 2 * i..6 + 2 * i]
    decreases |rels|
  {
    var most, last := rels[..|rels| - 1], rels[|rels| - 1];
    StatementCount(rels, maintain);
    StatementCount(most, maintain);
    var before, own := Statements(most, maintain), RelationStatements(last, maintain);
    assert Statements(rels, maintain) == before + own;
    hide RelationStatements, Statements;
    if i < |most| {
      PositionOf(most, maintain, i);
      SliceOfFirst(before, own, 4 + 2 * i);
    } else {
      SliceOfSecond(before, own);
    }
  }

  lemma SliceOfFirst(a: seq<Statement>, b: seq<Statement>, i: nat)
    requires i + 2 <= |a|
    ensures (a + b)[i..i + 2] == a[i..i + 2]
  {
  }

  lemma SliceOfSecond(a: seq<Statement>, b: seq<Statement>)
    ensures (a + b)[|a|..|a| + |b|] == b
  {
  }

  lemma SliceAt(ss: seq<Statement>, i: nat)
    requires i + 2 <= |ss|
    ensures ss[i..i + 2][0] == ss[i] && ss[i..i + 2][1] == ss[i + 1]
  {
  }

  lemma {:induction false} HeadStatements(rels: seq<Rel>, maintain: bool)
    ensures var ss := Statements(rels, maintain);
            && |ss| >= 4 && ss[0] == Grant({Connect}, Database) && ss[1] == Revoke({Temporary, Create}, Database)
            && ss[2] == Grant({Usage}, SchemaPublic) && ss[3] == Revoke({Create}, SchemaPublic)
    decreases |rels|
  {
    hide RelationStatements;
    if rels != [] {
      HeadStatements(rels[..|rels| - 1], maintain);
    }
  }

  lemma {:induction false} LookupIndex(rels: seq<Rel>, name: string) returns (i: nat)
    requires Lookup(rels, name).Some?
    ensures i < |rels| && rels[i].name == name && Lookup(rels, name) == Some(rels[i])
    decreases |rels|
  {
    if rels[|rels| - 1].name == name {
      i := |rels| - 1;
    } else {
      i := LookupIndex(rels[..|rels| - 1], name);
    }
  }

  /** Somewhere the target's documented privileges are granted, and everywhere else that it can carry is revoked. */
  lemma TargetIsCovered(rels: seq<Rel>, maintain: bool, t: Target) returns (grant: nat, revoke: nat)
    requires Listed(rels, t)
    ensures var ss := Statements(rels, maintain);
            && grant < |ss| && ss[grant] == Grant(Documented(rels, t), t)
            && revoke < |ss| && ss[revoke].Revoke? && ss[revoke].target == t
            && Possible(rels, t, maintain) <= Documented(rels, t) + ss[revoke].privileges
  {
    HeadStatements(rels, maintain);
    match t
    case Database => grant, revoke := 0, 1;
    case SchemaPublic => grant, revoke := 2, 3;
    case Relation(name) =>
      var i := LookupIndex(rels, name);
      RelationAt(rels, maintain, i);
      grant, revoke := 4 + 2 * i, 5 + 2 * i;
      hide Statements, DocumentedOn, PossibleOn;
  }

  lemma RelationAt(rels: seq<Rel>, maintain: bool, i: nat)
    requires i < |rels|
    ensures var ss := Statements(rels, maintain);
            && 5 + 2 * i < |ss| && ss[4 + 2 * i] == Grant(DocumentedOn(rels[i]), Relation(rels[i].name))
            && ss[5 + 2 * i].Revoke? && ss[5 + 2 * i].target == Relation(rels[i].name)
            && PossibleOn(rels[i], maintain) <= DocumentedOn(rels[i]) + ss[5 + 2 * i].privileges
  {
    PositionOf(rels, maintain, i);
    RelationIsCovered(rels[i], maintain);
    hide RelationStatements, Statements, DocumentedOn, PossibleOn;
    SliceAt(Statements(rels, maintain), 4 + 2 * i);
  }

  /** In the end the role holds, on the database, the schema and every listed relation, exactly the documented
      privileges, whatever it held before. */
  lemma FinalPrivilegesAreExact(rels: seq<Rel>, maintain: bool, initial: Held, t: Target, p: Privilege)
    requires Distinct(rels) && Listed(rels, t)
    requires forall h :: h in initial && h.0 == t ==> h.1 in Possible(rels, t, maintain)
    ensures (t, p) in ExecuteAll(initial, Statements(rels, maintain)) <==> p in Documented(rels, t)
  {
    var ss := Statements(rels, maintain);
    StatementsAreHarmless(rels, |rels|, maintain);
    assert rels[..|rels|] == rels;
    HarmlessKeepsBetween(rels, initial, ss);
    var grant, revoke := TargetIsCovered(rels, maintain, t);
    hide Documented, Possible, Lookup, Harmless, ExecuteAll, Statements;
    assert (t, p) in initial ==> p in Possible(rels, t, maintain);
    if p in Documented(rels, t) {
      GrantedStays(rels, initial, ss, grant, p);
    } else if p in ss[revoke].privileges {
      RevokedStays(rels, initial, ss, revoke, p);
    }
  }

  /** In particular the role only reads the audit log, only reads and appends witness publications, deletes no record of the
      evidence store, and truncates nothing. */
  lemma WhatTheRoleHolds(rels: seq<Rel>, maintain: bool, initial: Held, name: string, p: Privilege)
    requires Distinct(rels) && TableLike(name) in rels
    requires forall h :: h in initial && h.0 == Relation(name) ==>
               h.1 in {Select, Insert, Update, Delete, Truncate, References, Trigger} || (h.1 == Maintain && maintain)
    ensures var readOnly := ["audit_log", "audit_witness_arming", "alembic_version"];
            var appendOnly := readOnly + ["audit_witness_publications"];
            var kept := appendOnly + ["evidence_store_objects", "evidence_documents", "evidence_store_sync_runs", "evidence_store_retention_floors"];
            (Relation(name), p) in ExecuteAll(initial, Statements(rels, maintain)) <==>
            p == Select || (p == Insert && name !in readOnly) || (p == Update && name !in appendOnly) || (p == Delete && name !in kept)
  {
    var i :| 0 <= i < |rels| && rels[i] == TableLike(name);
    LookupPrefix(rels, i);
    FinalPrivilegesAreExact(rels, maintain, initial, Relation(name), p);
    hide ExecuteAll, Statements;
  }
}
