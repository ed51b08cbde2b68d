/** `app/services/audit_witness.py`: publishing chain heads to a write-once bucket, reading them back, and checking
    them against the database. */
module AuditWitness {
  import opened Records
  import opened AuditChain
  import opened ChainIntegrity

  // ----- publishing -----

  /** The object at a head key: a head this code could have written, other bytes, or bytes that cannot be read. */
  datatype Stored = HeadBody(head: Head) | OtherBytes(text: string) | Unreadable

  /** How S3 answers one `PutObject`: as asked, with an error, or with an error after storing the object; or as asked, but
      an existing object cannot be read back. */
  datatype Fault = NoFault | ErrorOnly | ErrorAfterWrite | ReadBackFails

  datatype Outcome = Published | Already | Conflict | PutFailed

  /** 9999-12-31T23:59:59, the last representable second, counted from 0001-01-01T00:00:00. */
  const LAST_SECOND := 315_537_897_599
  const CONFLICT_RETRIES := 3

  function KeyOf(head: Head): HeadKey {
    HeadKey(head.chain, head.publishedAt, head.id)
  }

  /** The head as published `n` seconds later. */
  function Later(head: Head, n: nat): Head {
    head.(publishedAt := head.publishedAt + n)
  }

  datatype Publication =
    | Skipped
    | Raised
    | Done(key: HeadKey, head: Head, already: bool, conflicts: seq<HeadKey>)
    | AllConflicted(conflicts: seq<HeadKey>)

  class Bucket {
    var objects: map<HeadKey, Stored>

    /** `_put_once`: `If-None-Match: *` (section 13.1.2 of RFC 9110), then a read-back of an existing object. */
    method PutOnce(key: HeadKey, head: Head, fault: Fault) returns (outcome: Outcome)
      modifies this
      ensures objects == if key !in old(objects) && fault != ErrorOnly then old(objects)[key := HeadBody(head)] else old(objects)
      ensures outcome == PutFailed <==> fault in {ErrorOnly, ErrorAfterWrite}
      ensures outcome == Published <==> key !in old(objects) && fault !in {ErrorOnly, ErrorAfterWrite}
      ensures outcome == Already <==> key in old(objects) && old(objects)[key] == HeadBody(head) && fault == NoFault
    {
      var created := key !in objects;
      if created && fault != ErrorOnly {
        objects := objects[key := HeadBody(head)];
      }
      outcome := if fault == ErrorOnly || fault == ErrorAfterWrite then PutFailed
                 else if created then Published
                 else if objects[key] == HeadBody(head) && fault != ReadBackFails then Already else Conflict;
    }

    /** `publish_head`: the head's key, then the keys of the next seconds while a different object is in the way. */
    method PublishHead(disabled: bool, armed: bool, head0: Option<Head>, faults: seq<Fault>) returns (p: Publication)
      requires |faults| == CONFLICT_RETRIES + 1
      requires head0.Some? ==> 0 <= head0.value.publishedAt <= LAST_SECOND
      modifies this
      ensures forall k :: k in old(objects) ==> k in objects && objects[k] == old(objects)[k]
      ensures p.Skipped? <==> disabled || !armed || head0.None?
      ensures p.Skipped? || p.AllConflicted? ==> objects == old(objects)
      ensures p.Done? || p.AllConflicted? ==>
                && |p.conflicts| <= CONFLICT_RETRIES + 1
                && forall i :: 0 <= i < |p.conflicts| ==>
                     && p.conflicts[i] == HeadKey(head0.value.chain, head0.value.publishedAt + i, head0.value.id)
                     && p.conflicts[i] in old(objects)
                     && (old(objects)[p.conflicts[i]] != HeadBody(head0.value.(publishedAt := p.conflicts[i].at)) || faults[i] == ReadBackFails)
      ensures p.Done? ==>
                && |p.conflicts| <= CONFLICT_RETRIES
                && p.key == HeadKey(head0.value.chain, head0.value.publishedAt + |p.conflicts|, head0.value.id)
                && p.head == Head(head0.value.chain, head0.value.id, head0.value.rowHash, p.key.at, head0.value.origin)
                && objects == old(objects)[p.key := HeadBody(p.head)]
                && (p.already <==> p.key in old(objects))
      ensures p.Done? && head0.value.id >= 1 && Hex64(head0.value.rowHash) ==>
                forall size :: 0 <= size <= 4096 ==> Scanned([VersionOf(p.key, objects[p.key], size)]) == HeadScan([Entry(p.key, p.head)], [])
      ensures p.AllConflicted? ==> |p.conflicts| == CONFLICT_RETRIES + 1
      ensures p.Raised? ==>
                && head0.Some?
                && ((exists i :: 0 <= i < |faults| && faults[i] in {ErrorOnly, ErrorAfterWrite})
                    || head0.value.publishedAt + CONFLICT_RETRIES >= LAST_SECOND)
    {
      if disabled || !armed || head0.None? {
        return Skipped;
      }
      var head := head0.value;
      var conflicts: seq<HeadKey> := [];
      while |conflicts| <= CONFLICT_RETRIES
        invariant objects == old(objects)
        invariant |conflicts| <= CONFLICT_RETRIES + 1
        invariant head == Later(head0.value, |conflicts|) && head.publishedAt <= LAST_SECOND
        invariant forall i :: 0 <= i < |conflicts| ==>
                    && conflicts[i] == KeyOf(Later(head0.value, i)) && conflicts[i] in objects
                    && (objects[conflicts[i]] != HeadBody(Later(head0.value, i)) || faults[i] == ReadBackFails)
        decreases CONFLICT_RETRIES + 1 - |conflicts|
      {
        var key := KeyOf(head);
        var outcome := PutOnce(key, head, faults[|conflicts|]);
        if outcome == PutFailed {
          return Raised;
        }
        if outcome != Conflict {
          if head.id >= 1 && Hex64(head.rowHash) {
            forall size: nat | size <= 4096
              ensures Scanned([VersionOf(key, HeadBody(head), size)]) == HeadScan([Entry(key, head)], [])
            {
              PublishedIsScanned(head, size);
            }
          }
          return Done(key, head, outcome == Already, conflicts);
        }
        if head.publishedAt == LAST_SECOND {
          return Raised;
        }
        conflicts := conflicts + [key];
        head := Later(head, 1);
      }
      p := AllConflicted(conflicts);
    }
  }

  // ----- reading heads: the key is authoritative -----

  const MAX_HEAD_BYTES := 4096

  datatype ObjectKey = HeadForm(key: HeadKey) | NotHeadForm(under: Option<ChainId>, text: string)
  datatype Json = HeadJson(head: Head) | OtherJson(text: string)
  datatype ObjectVersion = ObjectVersion(key: ObjectKey, size: nat, readable: bool, body: Json)

  /** `parse_head`: the head, when the body has a head's shape and agrees with its key. */
  function ParseHead(key: ObjectKey, size: nat, body: Json): Option<Head> {
    if key.HeadForm? && size <= MAX_HEAD_BYTES && body.HeadJson?
       && body.head.id >= 1 && Hex64(body.head.rowHash)
       && body.head.chain == key.key.chain && body.head.id == key.key.id
    then Some(body.head) else None
  }

  function HeadIn(v: ObjectVersion): Option<Head> {
    if v.readable then ParseHead(v.key, v.size, v.body) else None
  }

  function ChainPrefix(key: ObjectKey): Option<ChainId> {
    if key.HeadForm? then Some(key.key.chain) else key.under
  }

  predicate Agrees(e: Entry) {
    e.key.chain == e.head.chain && e.key.id == e.head.id && e.head.id >= 1 && Hex64(e.head.rowHash)
  }

  /** The bad object reported for a version that holds no valid head. */
  function Invalid(v: ObjectVersion): BadObject {
    BadObject(ChainPrefix(v.key),
              if v.key.NotHeadForm? then "key is not of the chain head form"
              else if v.size > MAX_HEAD_BYTES then "object too large"
              else if !v.readable then "unreadable" else "not this key's head")
  }

  function Scanned(versions: seq<ObjectVersion>): (scan: HeadScan)
    ensures |scan.valid| + |scan.invalid| == |versions|
    ensures forall e :: e in scan.valid ==> Agrees(e)
  {
    if versions == [] then HeadScan([], [])
    else
      var v, before := versions[|versions| - 1], Scanned(versions[..|versions| - 1]);
      if HeadIn(v).Some? then before.(valid := before.valid + [Entry(v.key.key, HeadIn(v).value)])
      else before.(invalid := before.invalid + [Invalid(v)])
  }

  /** `scan_heads`: every object version becomes exactly one entry, valid or invalid; no read failure is lost. */
  method ScanHeads(versions: seq<ObjectVersion>) returns (scan: HeadScan)
    ensures scan == Scanned(versions)
  {
    scan := HeadScan([], []);
    for i := 0 to |versions|
      invariant scan == Scanned(versions[..i])
    {
      var v := versions[i];
      assert versions[..i + 1][..i] == versions[..i];
      var head := None;
      if v.key.HeadForm? && v.size <= MAX_HEAD_BYTES && v.readable {
        head := ParseHead(v.key, v.size, v.body);
      }
      if head.None? {
        scan := scan.(invalid := scan.invalid + [Invalid(v)]);
      } else {
        scan := scan.(valid := scan.valid + [Entry(v.key.key, head.value)]);
      }
    }
    assert versions[..|versions|] == versions;
  }

  /** The valid entries: some version under a key of the head form, within 4 KiB, can be read as a head of the key's chain
      and row with a positive id and a 64-digit hash. */
  lemma {:induction false} ValidMeans(versions: seq<ObjectVersion>, e: Entry)
    ensures e in Scanned(versions).valid <==>
            && (exists v :: v in versions && v == ObjectVersion(HeadForm(e.key), v.size, true, HeadJson(e.head)) && v.size <= 4096)
            && e.head.chain == e.key.chain && e.head.id == e.key.id >= 1 && Hex64(e.head.rowHash)
  {
    if versions != [] {
      var last := |versions| - 1;
      var v := versions[last];
      assert versions == versions[..last] + [v];
      ValidMeans(versions[..last], e);
      assert HeadIn(v).Some? && e == Entry(v.key.key, HeadIn(v).value) <==>
             && v == ObjectVersion(HeadForm(e.key), v.size, true, HeadJson(e.head)) && v.size <= 4096
             && e.head.chain == e.key.chain && e.head.id == e.key.id >= 1 && Hex64(e.head.rowHash);
    }
  }

  /** Every version is in the scan once: as the valid head it holds, or as an invalid object under its chain's prefix. */
  lemma {:induction false} EveryVersionIsReported(versions: seq<ObjectVersion>, v: ObjectVersion)
    requires v in versions
    ensures if v.readable && v.size <= 4096 && v.key.HeadForm? && v.body.HeadJson? && v.body.head.chain == v.key.key.chain
               && v.body.head.id == v.key.key.id >= 1 && Hex64(v.body.head.rowHash)
            then Entry(v.key.key, v.body.head) in Scanned(versions).valid
            else exists b :: b in Scanned(versions).invalid && b.under == if v.key.HeadForm? then Some(v.key.key.chain) else v.key.under
  {
    var last := |versions| - 1;
    if v != versions[last] {
      assert versions == versions[..last] + [versions[last]];
      EveryVersionIsReported(versions[..last], v);
    } else if HeadIn(v).None? {
      assert Invalid(v) in Scanned(versions).invalid;
    }
  }

  /** What listing and reading a stored object gives. */
  function VersionOf(key: HeadKey, stored: Stored, size: nat): ObjectVersion {
    match stored
    case HeadBody(head) => ObjectVersion(HeadForm(key), size, true, HeadJson(head))
    case OtherBytes(text) => ObjectVersion(HeadForm(key), size, true, OtherJson(text))
    case Unreadable => ObjectVersion(HeadForm(key), size, false, OtherJson(""))
  }

  /** A published head is read back as what was published. */
  lemma PublishedIsScanned(head: Head, size: nat)
    requires head.id >= 1 && Hex64(head.rowHash) && size <= 4096
    ensures var key := HeadKey(head.chain, head.publishedAt, head.id);
            Scanned([VersionOf(key, HeadBody(head), size)]) == HeadScan([Entry(key, head)], [])
  {
    var version := VersionOf(HeadKey(head.chain, head.publishedAt, head.id), HeadBody(head), size);
    assert [version][..0] == [];
  }

  // ----- checking heads against the database -----

  /** The stored hash of a row; `None` when the row is missing or has no hash. */
  function StoredHash(log: seq<Row>, id: int): Option<Hash> {
    if log == [] then None else if log[0].id == id then log[0].rowHash else StoredHash(log[1..], id)
  }

  predicate HeadMatches(log: seq<Row>, e: Entry) {
    StoredHash(log, e.head.id) == Some(e.head.rowHash)
  }

  function InChain(entries: seq<Entry>, chain: ChainId): (group: seq<Entry>)
    ensures forall e :: e in group <==> e in entries && e.key.chain == chain
  {
    if entries == [] then []
    else
      var e := entries[|entries| - 1];
      InChain(entries[..|entries| - 1], chain) + if e.key.chain == chain then [e] else []
  }

  function ChainsOf(entries: seq<Entry>): set<ChainId> {
    set e | e in entries :: e.key.chain
  }

  datatype Foreign = Foreign(chain: ChainId, lastId: int, lastHash: Hash, heads: nat)
  datatype MismatchKind = RowMissing | RowDiffers | NoneOfThisChain | Replaced
  datatype Mismatch = Mismatch(kind: MismatchKind, chain: Option<ChainId>, id: Option<int>)

  /** The first entry with the largest row id. */
  function LastOf(group: seq<Entry>): (last: Entry)
    requires group != []
    ensures last in group && forall e :: e in group ==> e.head.id <= last.head.id
  {
    var e := group[|group| - 1];
    if |group| == 1 then e
    else
      var last := LastOf(group[..|group| - 1]);
      assert group == group[..|group| - 1] + [e];
      if e.head.id > last.head.id then e else last
  }

  /** What `check_heads` lists for a foreign chain: its last published head and the number of its heads. */
  function SummaryOf(entries: seq<Entry>, c: ChainId): Foreign
    requires InChain(entries, c) != []
  {
    var group := InChain(entries, c);
    Foreign(c, LastOf(group).head.id, LastOf(group).head.rowHash, |group|)
  }

  ghost predicate Summarises(f: Foreign, entries: seq<Entry>) {
    InChain(entries, f.chain) != [] && f == SummaryOf(entries, f.chain)
  }

  /** Entries of the chains in `cs`. */
  ghost function CountIn(entries: seq<Entry>, cs: set<ChainId>): nat {
    if entries == [] then 0
    else CountIn(entries[..|entries| - 1], cs) + if entries[|entries| - 1].key.chain in cs then 1 else 0
  }

  lemma {:induction false} CountMore(entries: seq<Entry>, cs: set<ChainId>, c: ChainId)
    requires c !in cs
    ensures CountIn(entries, cs + {c}) == CountIn(entries, cs) + |InChain(entries, c)|
  {
    if entries != [] {
      CountMore(entries[..|entries| - 1], cs, c);
    }
  }

  lemma {:induction false} CountExtremes(entries: seq<Entry>, cs: set<ChainId>)
    ensures CountIn(entries, {}) == 0
    ensures ChainsOf(entries) <= cs ==> CountIn(entries, cs) == |entries|
  {
    if entries != [] {
      var last := |entries| - 1;
      assert entries == entries[..last] + [entries[last]];
      CountExtremes(entries[..last], cs);
      assert ChainsOf(entries[..last]) <= ChainsOf(entries);
    }
  }

  lemma AbsentChain(entries: seq<Entry>, c: ChainId)
    ensures c !in ChainsOf(entries) ==> InChain(entries, c) == []
  {
    if InChain(entries, c) != [] {
      assert InChain(entries, c)[0] in entries;
    }
  }

  ghost predicate Grouped(entries: seq<Entry>, groups: map<ChainId, seq<Entry>>) {
    && groups.Keys == ChainsOf(entries)
    && forall c :: c in groups ==> groups[c] == InChain(entries, c) && groups[c] != []
  }

  function AddToGroup(groups: map<ChainId, seq<Entry>>, e: Entry): map<ChainId, seq<Entry>> {
    groups[e.key.chain := (if e.key.chain in groups then groups[e.key.chain] else []) + [e]]
  }

  lemma InChainStep(entries: seq<Entry>, i: nat, c: ChainId)
    requires i < |entries|
    ensures InChain(entries[..i + 1], c) ==
            if entries[i].key.chain == c then InChain(entries[..i], c) + [entries[i]] else InChain(entries[..i], c)
  {
    assert entries[..i + 1][..i] == entries[..i];
  }

  lemma ChainsStep(entries: seq<Entry>, i: nat)
    requires i < |entries|
    ensures ChainsOf(entries[..i + 1]) == ChainsOf(entries[..i]) + {entries[i].key.chain}
  {
    assert entries[..i + 1] == entries[..i] + [entries[i]];
  }

  lemma GroupsMore(entries: seq<Entry>, i: nat, groups: map<ChainId, seq<Entry>>)
    requires i < |entries| && Grouped(entries[..i], groups)
    ensures Grouped(entries[..i + 1], AddToGroup(groups, entries[i]))
  {
    hide InChain, ChainsOf;
    var e, more := entries[i], AddToGroup(groups, entries[i]);
    AbsentChain(entries[..i], e.key.chain);
    ChainsStep(entries, i);
    assert more.Keys == ChainsOf(entries[..i + 1]);
    forall c | c in more
      ensures more[c] == InChain(entries[..i + 1], c) && more[c] != []
    {
      InChainStep(entries, i, c);
    }
  }

  method GroupByChain(entries: seq<Entry>) returns (groups: map<ChainId, seq<Entry>>)
    ensures Grouped(entries, groups)
  {
    groups := map[];
    for i := 0 to |entries|
      invariant Grouped(entries[..i], groups)
    {
      GroupsMore(entries, i, groups);
      groups := AddToGroup(groups, entries[i]);
    }
    assert entries[..|entries|] == entries;
  }

  method LastEntry(group: seq<Entry>) returns (last: Entry)
    requires group != []
    ensures last == LastOf(group)
  {
    last := group[0];
    for i := 1 to |group|
      invariant last == LastOf(group[..i])
    {
      assert group[..i + 1][..i] == group[..i];
      if group[i].head.id > last.head.id {
        last := group[i];
      }
    }
    assert group[..|group|] == group;
  }

  method Summary(entries: seq<Entry>, group: seq<Entry>, c: ChainId) returns (f: Foreign)
    requires group == InChain(entries, c) && group != []
    ensures Summarises(f, entries) && f.chain == c && f.heads == |group|
  {
    hide LastOf, InChain;
    var last := LastEntry(group);
    f := Foreign(c, last.head.id, last.head.rowHash, |group|);
  }

  /** The chains of the heads, without the current one. */
  function Others(entries: seq<Entry>, ours: Option<ChainId>): set<ChainId> {
    ChainsOf(entries) - if ours.Some? then {ours.value} else {}
  }

  ghost function Elements(chains: seq<ChainId>): set<ChainId> {
    set c | c in chains
  }

  /** The chains in some order, each once (the order of `sorted` is left open). */
  method Listed(chains: set<ChainId>) returns (list: seq<ChainId>)
    ensures Elements(list) == chains && |list| == |chains|
  {
    list := [];
    var left := chains;
    while left != {}
      invariant left <= chains && Elements(list) == chains - left && |list| + |left| == |chains|
      decreases |left|
    {
      var c :| c in left;
      assert Elements(list + [c]) == Elements(list) + {c};
      list, left := list + [c], left - {c};
    }
  }

  lemma {:induction false} DistinctElements(list: seq<ChainId>)
    ensures |Elements(list)| <= |list|
    ensures |Elements(list)| == |list| ==> forall i, j :: 0 <= i < j < |list| ==> list[i] != list[j]
  {
    if list != [] {
      var n := |list| - 1;
      DistinctElements(list[..n]);
      assert list == list[..n] + [list[n]];
      assert Elements(list) == Elements(list[..n]) + {list[n]};
    }
  }

  function Names(foreign: seq<Foreign>): seq<ChainId> {
    seq(|foreign|, i requires 0 <= i < |foreign| => foreign[i].chain)
  }

  ghost predicate SummarisesAll(foreign: seq<Foreign>, entries: seq<Entry>) {
    forall i :: 0 <= i < |foreign| ==> Summarises(foreign[i], entries)
  }

  lemma SummarisesMore(foreign: seq<Foreign>, f: Foreign, entries: seq<Entry>, chains: seq<ChainId>, i: nat)
    requires i < |chains| && SummarisesAll(foreign, entries) && Names(foreign) == chains[..i]
    requires f.chain == chains[i] && Summarises(f, entries)
    ensures SummarisesAll(foreign + [f], entries) && Names(foreign + [f]) == chains[..i + 1]
    ensures Elements(chains[..i + 1]) == Elements(chains[..i]) + {chains[i]}
  {
    hide Summarises;
  }

  method ForeignChains(entries: seq<Entry>, groups: map<ChainId, seq<Entry>>, chains: seq<ChainId>)
    returns (foreign: seq<Foreign>, heads: nat)
    requires Grouped(entries, groups) && Elements(chains) <= groups.Keys
    requires |Elements(chains)| == |chains|
    ensures SummarisesAll(foreign, entries) && Names(foreign) == chains
    ensures heads == CountIn(entries, Elements(chains))
  {
    foreign, heads := [], 0;
    CountExtremes(entries, {});
    DistinctElements(chains);
    assert forall c :: c in chains ==> c in Elements(chains);
    assert Elements(chains[..0]) == {} && Names([]) == chains[..0];
    hide Summarises, InChain, ChainsOf, CountIn, SummarisesAll, Elements, Names;
    assert SummarisesAll([], entries) by { NothingToSummarise(entries); }
    for i := 0 to |chains|
      invariant SummarisesAll(foreign, entries) && Names(foreign) == chains[..i]
      invariant heads == CountIn(entries, Elements(chains[..i]))
    {
      var c := chains[i];
      var f := Summary(entries, groups[c], c);
      NotYet(chains, i);
      CountMore(entries, Elements(chains[..i]), c);
      SummarisesMore(foreign, f, entries, chains, i);
      foreign, heads := foreign + [f], heads + |groups[c]|;
    }
    assert chains[..|chains|] == chains;
  }

  lemma NothingToSummarise(entries: seq<Entry>)
    ensures SummarisesAll([], entries)
  {
  }

  lemma NotYet(chains: seq<ChainId>, i: nat)
    requires i < |chains| && |Elements(chains)| == |chains|
    ensures chains[i] !in Elements(chains[..i])
  {
    DistinctElements(chains);
  }

  /** The heads of the other chains and of the current one are all the heads. */
  lemma HeadsAddUp(entries: seq<Entry>, ours: Option<ChainId>)
    ensures CountIn(entries, Others(entries, ours)) + (if ours.Some? then |InChain(entries, ours.value)| else 0) == |entries|
  {
    var others := Others(entries, ours);
    if ours.None? {
      CountExtremes(entries, others);
    } else {
      CountMore(entries, others, ours.value);
      CountExtremes(entries, others + {ours.value});
    }
  }

  function MismatchOf(log: seq<Row>, e: Entry): Mismatch {
    Mismatch(if StoredHash(log, e.head.id).None? then RowMissing else RowDiffers, Some(e.key.chain), Some(e.head.id))
  }

  /** The mismatches of the current chain's heads, in order. */
  function Mismatches(log: seq<Row>, current: seq<Entry>): seq<Mismatch> {
    if current == [] then []
    else
      var e := current[|current| - 1];
      Mismatches(log, current[..|current| - 1]) + if HeadMatches(log, e) then [] else [MismatchOf(log, e)]
  }

  lemma {:induction false} NoMismatch(log: seq<Row>, current: seq<Entry>)
    ensures Mismatches(log, current) == [] <==> forall e :: e in current ==> HeadMatches(log, e)
  {
    if current != [] {
      var last := |current| - 1;
      assert current == current[..last] + [current[last]];
      NoMismatch(log, current[..last]);
    }
  }

  /** Every head of the chain that differs is reported once, as missing when the log has no hash for its row. */
  lemma {:induction false} MismatchesMean(log: seq<Row>, current: seq<Entry>, m: Mismatch)
    requires Sorted(log)
    ensures m in Mismatches(log, current) <==>
            exists e :: && e in current && m.chain == Some(e.key.chain) && m.id == Some(e.head.id)
                        && (forall k :: 0 <= k < |log| && log[k].id == e.head.id ==> log[k].rowHash != Some(e.head.rowHash))
                        && m.kind == if exists k :: 0 <= k < |log| && log[k].id == e.head.id && log[k].rowHash.Some? then RowDiffers else RowMissing
    ensures |Mismatches(log, current)| <= |current|
  {
    if current != [] {
      var last := |current| - 1;
      assert current == current[..last] + [current[last]];
      MismatchesMean(log, current[..last], m);
      StoredHashMeans(log, current[last].head.id);
    }
  }

  lemma {:induction false} StoredHashMeans(log: seq<Row>, id: int)
    requires Sorted(log)
    ensures StoredHash(log, id).None? <==> forall k :: 0 <= k < |log| && log[k].id == id ==> log[k].rowHash.None?
    ensures forall k :: 0 <= k < |log| && log[k].id == id ==> StoredHash(log, id) == log[k].rowHash
  {
    if log != [] {
      StoredHashMeans(log[1..], id);
      assert forall k :: 0 < k < |log| ==> log[k] == log[1..][k - 1];
    }
  }

  /** What decides about a foreign chain: the lineage of the verified anchor, and the head an unverified anchor names. */
  datatype Verdict = Continued | Pending | Refused
  datatype LineageEntry = LineageEntry(chain: ChainId, finalId: int, finalHash: Hash)

  function Decide(f: Foreign, lineage: seq<LineageEntry>, pending: Option<Hash>): Verdict {
    if LineageEntry(f.chain, f.lastId, f.lastHash) in lineage then Continued
    else if pending == Some(f.lastHash) then Pending
    else Refused
  }

  function Decided(v: Verdict, foreign: seq<Foreign>, lineage: seq<LineageEntry>, pending: Option<Hash>): (fs: seq<Foreign>)
    ensures forall f :: f in fs <==> f in foreign && Decide(f, lineage, pending) == v
  {
    if foreign == [] then []
    else
      var f := foreign[|foreign| - 1];
      Decided(v, foreign[..|foreign| - 1], lineage, pending) + if Decide(f, lineage, pending) == v then [f] else []
  }

  function Refusals(fs: seq<Foreign>): seq<Mismatch> {
    seq(|fs|, i requires 0 <= i < |fs| => Mismatch(Replaced, Some(fs[i].chain), None))
  }

  method CurrentMismatches(log: seq<Row>, current: seq<Entry>) returns (found: seq<Mismatch>)
    ensures found == Mismatches(log, current)
  {
    found := [];
    for i := 0 to |current|
      invariant found == Mismatches(log, current[..i])
    {
      var e := current[i];
      assert current[..i + 1][..i] == current[..i];
      if StoredHash(log, e.head.id) != Some(e.head.rowHash) {
        found := found + [MismatchOf(log, e)];
      }
    }
    assert current[..|current|] == current;
  }

  method Resolve(chains: seq<Foreign>, lineage: seq<LineageEntry>, pending: Option<Hash>)
    returns (continued: seq<Foreign>, unverified: seq<Foreign>, refused: seq<Foreign>)
    ensures continued == Decided(Continued, chains, lineage, pending)
    ensures unverified == Decided(Pending, chains, lineage, pending)
    ensures refused == Decided(Refused, chains, lineage, pending)
  {
    continued, unverified, refused := [], [], [];
    for i := 0 to |chains|
      invariant continued == Decided(Continued, chains[..i], lineage, pending)
      invariant unverified == Decided(Pending, chains[..i], lineage, pending)
      invariant refused == Decided(Refused, chains[..i], lineage, pending)
    {
      var f := chains[i];
      assert chains[..i + 1][..i] == chains[..i];
      if LineageEntry(f.chain, f.lastId, f.lastHash) in lineage {
        continued := continued + [f];
      } else if pending == Some(f.lastHash) {
        unverified := unverified + [f];
      } else {
        refused := refused + [f];
      }
    }
    assert chains[..|chains|] == chains;
  }

  function CurrentHeads(log: seq<Row>, scan: HeadScan): seq<Entry> {
    if ChainIdOf(log).Some? then InChain(scan.valid, ChainIdOf(log).value) else []
  }

  /** The mismatches `check_heads` reports: heads of this chain that differ from the log, and heads published without
      any of this chain. */
  function AllMismatches(log: seq<Row>, scan: HeadScan): seq<Mismatch> {
    var current := CurrentHeads(log, scan);
    Mismatches(log, current)
    + if (scan.valid != [] || scan.invalid != []) && current == [] then [Mismatch(NoneOfThisChain, ChainIdOf(log), None)]
      else []
  }

  /** One summary per chain other than the log's own, each chain once. */
  ghost predicate SummarisesOthers(foreign: seq<Foreign>, log: seq<Row>, scan: HeadScan) {
    && SummarisesAll(foreign, scan.valid)
    && Elements(Names(foreign)) == Others(scan.valid, ChainIdOf(log)) && |Elements(Names(foreign))| == |foreign|
  }

  method CheckCurrent(log: seq<Row>, scan: HeadScan, groups: map<ChainId, seq<Entry>>)
    returns (current: seq<Entry>, found: seq<Mismatch>)
    requires Grouped(scan.valid, groups)
    ensures current == CurrentHeads(log, scan) && found == AllMismatches(log, scan)
  {
    var ours := ChainIdOf(log);
    current := if ours.Some? && ours.value in groups then groups[ours.value] else [];
    if ours.Some? {
      AbsentChain(scan.valid, ours.value);
    }
    found := CurrentMismatches(log, current);
    if |scan.valid| + |scan.invalid| > 0 && |current| == 0 {
      found := found + [Mismatch(NoneOfThisChain, ours, None)];
    }
  }

  method CheckOthers(log: seq<Row>, scan: HeadScan, groups: map<ChainId, seq<Entry>>)
    returns (foreign: seq<Foreign>, heads: nat)
    requires Grouped(scan.valid, groups)
    ensures SummarisesOthers(foreign, log, scan)
    ensures |CurrentHeads(log, scan)| + heads == |scan.valid|
  {
    hide InChain, CountIn, SummarisesAll, ChainIdOf;
    var ours := ChainIdOf(log);
    var chains := Listed(groups.Keys - if ours.Some? then {ours.value} else {});
    assert Elements(chains) == Others(scan.valid, ours);
    foreign, heads := ForeignChains(scan.valid, groups, chains);
    HeadsAddUp(scan.valid, ours);
  }

  /** The `witness` dictionary `check_heads` builds and `resolve_foreign_chains` completes. */
  class WitnessReport {
    var checked: nat
    var published: nat
    var otherChain: nat
    var foreign: seq<Foreign>
    var continued: seq<Foreign>
    var unverified: seq<Foreign>
    var mismatches: seq<Mismatch>
    var invalid: seq<BadObject>

    /** `check_heads`. */
    constructor (log: seq<Row>, scan: HeadScan)
      ensures checked == |CurrentHeads(log, scan)| && checked + otherChain == |scan.valid|
      ensures published == |scan.valid| + |scan.invalid|
      ensures mismatches == AllMismatches(log, scan)
      ensures SummarisesOthers(foreign, log, scan)
      ensures continued == [] && unverified == [] && invalid == scan.invalid
    {
      hide Grouped, InChain, Mismatches, SummarisesAll, Others;
      var groups := GroupByChain(scan.valid);
      var current, found := CheckCurrent(log, scan, groups);
      var others, heads := CheckOthers(log, scan, groups);
      checked, published, otherChain := |current|, |scan.valid| + |scan.invalid|, heads;
      foreign, continued, unverified, mismatches, invalid := others, [], [], found, scan.invalid;
    }

    /** `resolve_foreign_chains`: each foreign chain is taken out and lands in exactly one list. */
    method ResolveForeignChains(lineage: seq<LineageEntry>, pending: Option<Hash>)
      modifies this
      ensures foreign == []
      ensures continued == old(continued) + Decided(Continued, old(foreign), lineage, pending)
      ensures unverified == old(unverified) + Decided(Pending, old(foreign), lineage, pending)
      ensures mismatches == old(mismatches) + Refusals(Decided(Refused, old(foreign), lineage, pending))
      ensures forall i :: |old(mismatches)| <= i < |mismatches| ==> mismatches[i].kind == Replaced && mismatches[i].id.None?
      ensures checked == old(checked) && published == old(published) && otherChain == old(otherChain)
      ensures invalid == old(invalid)
    {
      var moreContinued, moreUnverified, refused := Resolve(foreign, lineage, pending);
      foreign := [];
      continued, unverified := continued + moreContinued, unverified + moreUnverified;
      mismatches := mismatches + Refusals(refused);
    }
  }
}
