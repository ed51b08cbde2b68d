/** `app/services/audit_archive_dump.py`: the reader of pg_dump's custom format. Its byte-level grammar is given twice,
    as a parser and as a printer. */
module DumpReader {
  import opened Records

  newtype byte = n: int | 0 <= n < 256

  /** A string of the archive, as its bytes; none for the null string. */
  type Str = Option<seq<byte>>

  /** A parser's outcome: DumpError, or a value and the bytes after it. */
  datatype Parsed<+T> = Fail | Done(value: T, rest: seq<byte>) {
    predicate IsFailure() {
      Fail?
    }

    function PropagateFailure<U>(): Parsed<U>
      requires IsFailure()
    {
      Fail
    }

    function Extract(): (T, seq<byte>)
      requires !IsFailure()
    {
      (value, rest)
    }
  }

  /** What a method that raises DumpError (None) or returns must leave behind. */
  ghost predicate Matches<T>(expected: Parsed<T>, got: Option<T>, rest: seq<byte>) {
    match expected
    case Fail => got.None?
    case Done(value, after) => got == Some(value) && rest == after
  }

  const MAGIC: seq<byte> := [0x50, 0x47, 0x44, 0x4D, 0x50]
  const FORMAT_CUSTOM: byte := 1
  const BLK_DATA: byte := 1
  const BLK_BLOBS: byte := 3

  // ----- HashingReader -----

  function ExactFrom(s: seq<byte>, count: nat): Parsed<seq<byte>> {
    if count <= |s| then Done(s[..count], s[count..]) else Fail
  }

  function Min(a: nat, b: nat): nat {
    if a <= b then a else b
  }

  /** `sha256` is represented by the bytes hashed so far. */
  class HashingReader {
    const file: seq<byte>
    var pos: nat
    var sha256: seq<byte>
    var size: nat

    ghost predicate Valid()
      reads this
    {
      pos <= |file| && sha256 == file[..pos] && size == pos
    }

    ghost function Rest(): seq<byte>
      requires Valid()
      reads this
    {
      file[pos..]
    }

    constructor (file: seq<byte>)
      ensures Valid() && this.file == file && Rest() == file
    {
      this.file, pos, sha256, size := file, 0, [], 0;
    }

    method Read(count: nat) returns (data: seq<byte>)
      requires Valid()
      modifies this
      ensures Valid()
      ensures var n := Min(count, |old(Rest())|); data == old(Rest())[..n] && Rest() == old(Rest())[n..]
    {
      var n := Min(count, |file| - pos);
      data := file[pos..pos + n];
      pos := pos + n;
      sha256 := sha256 + data;
      size := size + |data|;
    }

    method Exact(count: nat) returns (data: Option<seq<byte>>)
      requires Valid()
      modifies this
      ensures Valid() && Matches(ExactFrom(old(Rest()), count), data, Rest())
    {
      var read := Read(count);
      data := if |read| == count then Some(read) else None;
    }

    method Finish()
      requires Valid()
      modifies this
      ensures Valid() && sha256 == file && size == |file|
    {
      var data := Read(1048576);
      while data != []
        invariant Valid() && (data == [] ==> pos == |file|)
        decreases |file| - pos, |data|
      {
        data := Read(1048576);
      }
    }
  }

  // ----- integers and strings -----

  /** `int.from_bytes(.., "little")`. */
  function Little(s: seq<byte>): nat {
    if s == [] then 0 else s[0] as nat + 256 * Little(s[1..])
  }

  function IntFrom(s: seq<byte>, intSize: nat): Parsed<int> {
    var sign :- ExactFrom(s, 1);
    var value :- ExactFrom(sign.1, intSize);
    var magnitude: int := Little(value.0);
    Done(if sign.0[0] != 0 then -magnitude else magnitude, value.1)
  }

  function StrFrom(s: seq<byte>, intSize: nat): Parsed<Str> {
    var length :- IntFrom(s, intSize);
    if length.0 < 0 then Done(None, length.1)
    else
      var text :- ExactFrom(length.1, length.0);
      Done(Some(text.0), text.1)
  }

  lemma IntFromShorter(s: seq<byte>, intSize: nat)
    ensures IntFrom(s, intSize).Done? ==> |IntFrom(s, intSize).rest| < |s|
    ensures StrFrom(s, intSize).Done? ==> |StrFrom(s, intSize).rest| < |s|
  {
  }

  /** Values already read, put before the ones still to be read. */
  function Prefixed<T>(done: seq<T>, p: Parsed<seq<T>>): Parsed<seq<T>> {
    match p
    case Fail => Fail
    case Done(more, rest) => Done(done + more, rest)
  }

  lemma PrefixedStep<T>(done: seq<T>, x: T, p: Parsed<seq<T>>)
    ensures Prefixed(done, Prefixed([x], p)) == Prefixed(done + [x], p)
    ensures Prefixed([], p) == p
  {
    if p.Done? {
      assert done + ([x] + p.value) == done + [x] + p.value;
      assert [] + p.value == p.value;
    }
  }

  lemma PrefixedFail<T>(done: seq<T>)
    ensures Prefixed(done, Fail).Fail?
  {
  }

  lemma PrefixedDone<T>(done: seq<T>, rest: seq<byte>)
    ensures Prefixed(done, Done([], rest)) == Done(done, rest)
  {
    assert done + [] == done;
  }

  function IntsFrom(s: seq<byte>, n: nat, intSize: nat): (r: Parsed<seq<int>>)
    ensures r.Done? ==> |r.value| == n
  {
    if n == 0 then Done([], s)
    else
      var first :- IntFrom(s, intSize);
      Prefixed([first.0], IntsFrom(first.1, n - 1, intSize))
  }

  function StrsFrom(s: seq<byte>, n: nat, intSize: nat): (r: Parsed<seq<Str>>)
    ensures r.Done? ==> |r.value| == n
  {
    if n == 0 then Done([], s)
    else
      var first :- StrFrom(s, intSize);
      Prefixed([first.0], StrsFrom(first.1, n - 1, intSize))
  }

  /** Strings up to the null string. */
  function SkipStrs(s: seq<byte>, intSize: nat): Parsed<()>
    decreases |s|
  {
    IntFromShorter(s, intSize);
    var first :- StrFrom(s, intSize);
    if first.0.None? then Done((), first.1) else SkipStrs(first.1, intSize)
  }

  // ----- the table of contents -----

  /** What the header says of the encoding: the minor version, the sizes of integers and of data offsets. */
  datatype Format = Format(minor: byte, intSize: byte, offSize: byte)

  /** What the reader keeps of an entry. */
  datatype TocEntry = TocEntry(dumpId: int, hadDumper: int, tag: Str, desc: Str, defn: Str, copyStmt: Str, namespace: Str,
                         dataState: byte)

  function EntryFrom(s: seq<byte>, f: Format): Parsed<TocEntry> {
    var ids :- IntsFrom(s, 2, f.intSize as nat);
    var names :- StrsFrom(ids.1, 4, f.intSize as nat);
    var section :- IntFrom(names.1, f.intSize as nat);
    var texts :- StrsFrom(section.1, 6, f.intSize as nat);
    var relkind :- IntsFrom(texts.1, if f.minor >= 16 then 1 else 0, f.intSize as nat);
    var owner :- StrsFrom(relkind.1, 2, f.intSize as nat);
    var dependencies :- SkipStrs(owner.1, f.intSize as nat);
    var state :- ExactFrom(dependencies.1, 1);
    var offset :- ExactFrom(state.1, f.offSize as nat);
    Done(TocEntry(ids.0[0], ids.0[1], names.0[2], names.0[3], texts.0[0], texts.0[2], texts.0[3], state.0[0]), offset.1)
  }

  function EntriesFrom(s: seq<byte>, n: nat, f: Format): Parsed<seq<TocEntry>>
    decreases n
  {
    if n == 0 then Done([], s)
    else
      var first :- EntryFrom(s, f);
      Prefixed([first.0], EntriesFrom(first.1, n - 1, f))
  }

  // ----- the header -----

  datatype Compression = Uncompressed | Gzip

  datatype Header = Header(format: Format, compression: Compression, database: Str, serverVersion: Str, dumpVersion: Str,
                           toc: seq<TocEntry>)

  function CompressionFrom(s: seq<byte>, f: Format): Parsed<Compression> {
    if f.minor >= 15 then
      var code :- ExactFrom(s, 1);
      if code.0[0] == 0 then Done(Uncompressed, code.1) else if code.0[0] == 1 then Done(Gzip, code.1) else Fail
    else
      var level :- IntFrom(s, f.intSize as nat);
      Done(if level.0 == 0 then Uncompressed else Gzip, level.1)
  }

  /** The magic, the version (1.12 to 1.16), the two sizes and the format byte. */
  function FormatFrom(s: seq<byte>): Parsed<Format> {
    var magic :- ExactFrom(s, 5);
    if magic.0 != MAGIC then Fail
    else
      var version :- ExactFrom(magic.1, 3);
      if !(version.0[0] == 1 && 12 <= version.0[1] <= 16) then Fail
      else
        var sizes :- ExactFrom(version.1, 2);
        var format :- ExactFrom(sizes.1, 1);
        if format.0[0] != FORMAT_CUSTOM then Fail else Done(Format(version.0[1], sizes.0[0], sizes.0[1]), format.1)
  }

  function HeaderFrom(s: seq<byte>): Parsed<Header> {
    var format :- FormatFrom(s);
    var f := format.0;
    var compression :- CompressionFrom(format.1, f);
    var created :- IntsFrom(compression.1, 7, f.intSize as nat);
    var texts :- StrsFrom(created.1, 3, f.intSize as nat);
    var count :- IntFrom(texts.1, f.intSize as nat);
    var toc :- EntriesFrom(count.1, if count.0 < 0 then 0 else count.0, f);
    Done(Header(f, compression.0, texts.0[0], texts.0[1], texts.0[2], toc.0), toc.1)
  }

  // ----- data blocks -----

  /** The chunks up to a length that is not positive. */
  function ChunksFrom(s: seq<byte>, intSize: nat): (r: Parsed<seq<seq<byte>>>)
    ensures r.Done? ==> |r.rest| < |s|
    decreases |s|
  {
    IntFromShorter(s, intSize);
    var length :- IntFrom(s, intSize);
    if length.0 <= 0 then Done([], length.1)
    else
      var chunk :- ExactFrom(length.1, length.0);
      var more :- ChunksFrom(chunk.1, intSize);
      Done([chunk.0] + more.0, more.1)
  }

  /** The large objects of a block, up to the identifier zero. */
  function SkipBlobs(s: seq<byte>, intSize: nat): (r: Parsed<()>)
    ensures r.Done? ==> |r.rest| < |s|
    decreases |s|
  {
    IntFromShorter(s, intSize);
    var oid :- IntFrom(s, intSize);
    if oid.0 == 0 then Done((), oid.1)
    else
      var chunks :- ChunksFrom(oid.1, intSize);
      SkipBlobs(chunks.1, intSize)
  }

  /** The position of the data of the first data block of `dumpId`, blocks of other kinds and identifiers skipped. */
  function SeekData(s: seq<byte>, dumpId: int, intSize: nat): Parsed<()>
    decreases |s|
  {
    var kind :- ExactFrom(s, 1);
    IntFromShorter(kind.1, intSize);
    var id :- IntFrom(kind.1, intSize);
    if kind.0[0] == BLK_DATA && id.0 == dumpId then Done((), id.1)
    else if kind.0[0] == BLK_BLOBS then
      var blobs :- SkipBlobs(id.1, intSize);
      SeekData(blobs.1, dumpId, intSize)
    else
      var chunks :- ChunksFrom(id.1, intSize);
      SeekData(chunks.1, dumpId, intSize)
  }

  function NextFrom(s: seq<byte>, intSize: nat): Parsed<Option<seq<byte>>> {
    var length :- IntFrom(s, intSize);
    if length.0 <= 0 then Done(None, length.1)
    else
      var chunk :- ExactFrom(length.1, length.0);
      Done(Some(chunk.0), chunk.1)
  }

  function Unit<T>(p: Parsed<T>): Parsed<()> {
    match p
    case Fail => Fail
    case Done(_, rest) => Done((), rest)
  }

  // ----- CustomArchive -----

  /** `r` is the file's reader; the header is what `Open` read. */
  class CustomArchive {
    const r: HashingReader
    var header: Header

    constructor (r: HashingReader)
      ensures this.r == r
    {
      this.r := r;
      header := Header(Format(0, 0, 0), Uncompressed, None, None, None, []);
    }

    method ReadInt(intSize: byte) returns (value: Option<int>)
      requires r.Valid()
      modifies r
      ensures r.Valid() && Matches(IntFrom(old(r.Rest()), intSize as nat), value, r.Rest())
    {
      var sign := r.Exact(1);
      if sign.None? { return None; }
      var bytes := r.Exact(intSize as nat);
      if bytes.None? { return None; }
      var magnitude: int := Little(bytes.value);
      return Some(if sign.value[0] != 0 then -magnitude else magnitude);
    }

    method ReadStr(intSize: byte) returns (text: Option<Str>)
      requires r.Valid()
      modifies r
      ensures r.Valid() && Matches(StrFrom(old(r.Rest()), intSize as nat), text, r.Rest())
    {
      var length := ReadInt(intSize);
      if length.None? { return None; }
      if length.value < 0 { return Some(None); }
      var bytes := r.Exact(length.value);
      return if bytes.None? then None else Some(bytes);
    }

    /** `_chunks`, advanced once: the next chunk, or none at the end of the block. */
    method NextChunk() returns (chunk: Option<Option<seq<byte>>>)
      requires r.Valid()
      modifies r
      ensures r.Valid() && Matches(NextFrom(old(r.Rest()), header.format.intSize as nat), chunk, r.Rest())
    {
      var length := ReadInt(header.format.intSize);
      if length.None? { return None; }
      if length.value <= 0 { return Some(None); }
      var bytes := r.Exact(length.value);
      return if bytes.None? then None else Some(bytes);
    }

    method SkipChunks() returns (ok: Option<()>)
      requires r.Valid()
      modifies r
      ensures r.Valid()
      ensures Matches(Unit(ChunksFrom(old(r.Rest()), header.format.intSize as nat)), ok, r.Rest())
    {
      ghost var start, size := r.Rest(), header.format.intSize as nat;
      while true
        invariant r.Valid() && Unit(ChunksFrom(start, size)) == Unit(ChunksFrom(r.Rest(), size))
        decreases |r.Rest()|
      {
        IntFromShorter(r.Rest(), size);
        var chunk := NextChunk();
        if chunk.None? { return None; }
        if chunk.value.None? { return Some(()); }
      }
    }

    method ReadInts(n: nat, intSize: byte) returns (values: Option<seq<int>>)
      requires r.Valid()
      modifies r
      ensures r.Valid() && Matches(IntsFrom(old(r.Rest()), n, intSize as nat), values, r.Rest())
    {
      hide IntFrom, Prefixed;
      ghost var start, size := r.Rest(), intSize as nat;
      var list: seq<int> := [];
      PrefixedStep(list, 0, IntsFrom(start, n, size));
      for i := 0 to n
        invariant r.Valid() && |list| == i
        invariant IntsFrom(start, n, size) == Prefixed(list, IntsFrom(r.Rest(), n - i, size))
      {
        var value := ReadInt(intSize);
        if value.None? {
          PrefixedFail(list);
          return None;
        }
        PrefixedStep(list, value.value, IntsFrom(r.Rest(), n - i - 1, size));
        list := list + [value.value];
      }
      PrefixedDone(list, r.Rest());
      return Some(list);
    }

    method ReadStrs(n: nat, intSize: byte) returns (values: Option<seq<Str>>)
      requires r.Valid()
      modifies r
      ensures r.Valid() && Matches(StrsFrom(old(r.Rest()), n, intSize as nat), values, r.Rest())
    {
      hide StrFrom, Prefixed;
      ghost var start, size := r.Rest(), intSize as nat;
      var list: seq<Str> := [];
      PrefixedStep(list, None, StrsFrom(start, n, size));
      for i := 0 to n
        invariant r.Valid() && |list| == i
        invariant StrsFrom(start, n, size) == Prefixed(list, StrsFrom(r.Rest(), n - i, size))
      {
        var value := ReadStr(intSize);
        if value.None? {
          PrefixedFail(list);
          return None;
        }
        PrefixedStep(list, value.value, StrsFrom(r.Rest(), n - i - 1, size));
        list := list + [value.value];
      }
      PrefixedDone(list, r.Rest());
      return Some(list);
    }

    method SkipDependencies(intSize: byte) returns (ok: Option<()>)
      requires r.Valid()
      modifies r
      ensures r.Valid() && Matches(SkipStrs(old(r.Rest()), intSize as nat), ok, r.Rest())
    {
      ghost var start, size := r.Rest(), intSize as nat;
      while true
        invariant r.Valid() && SkipStrs(start, size) == SkipStrs(r.Rest(), size)
        decreases |r.Rest()|
      {
        IntFromShorter(r.Rest(), size);
        var text := ReadStr(intSize);
        if text.None? { return None; }
        if text.value.None? { return Some(()); }
      }
    }

    /** `_read_toc_entry`. */
    method ReadTocEntry(f: Format) returns (entry: Option<TocEntry>)
      requires r.Valid()
      modifies r
      ensures r.Valid() && Matches(EntryFrom(old(r.Rest()), f), entry, r.Rest())
    {
      hide IntsFrom, StrsFrom, IntFrom, SkipStrs;
      var ids := ReadInts(2, f.intSize);
      if ids.None? { return None; }
      var names := ReadStrs(4, f.intSize); // table oid, oid, tag, desc
      if names.None? { return None; }
      var section := ReadInt(f.intSize);
      if section.None? { return None; }
      var texts := ReadStrs(6, f.intSize); // definition, drop, copy statement, namespace, tablespace, access method
      if texts.None? { return None; }
      var relkind := ReadInts(if f.minor >= 16 then 1 else 0, f.intSize);
      if relkind.None? { return None; }
      var owner := ReadStrs(2, f.intSize); // owner, "with oids"
      if owner.None? { return None; }
      var dependencies := SkipDependencies(f.intSize);
      if dependencies.None? { return None; }
      var state := r.Exact(1);
      if state.None? { return None; }
      var offset := r.Exact(f.offSize as nat);
      if offset.None? { return None; }
      return Some(TocEntry(ids.value[0], ids.value[1], names.value[2], names.value[3],
                           texts.value[0], texts.value[2], texts.value[3], state.value[0]));
    }

    method ReadToc(n: nat, f: Format) returns (toc: Option<seq<TocEntry>>)
      requires r.Valid()
      modifies r
      ensures r.Valid() && Matches(EntriesFrom(old(r.Rest()), n, f), toc, r.Rest())
    {
      hide EntryFrom, Prefixed;
      ghost var start := r.Rest();
      var list: seq<TocEntry> := [];
      PrefixedStep(list, TocEntry(0, 0, None, None, None, None, None, 0), EntriesFrom(start, n, f));
      for i := 0 to n
        invariant r.Valid() && |list| == i
        invariant EntriesFrom(start, n, f) == Prefixed(list, EntriesFrom(r.Rest(), n - i, f))
      {
        var entry := ReadTocEntry(f);
        if entry.None? {
          PrefixedFail(list);
          return None;
        }
        PrefixedStep(list, entry.value, EntriesFrom(r.Rest(), n - i - 1, f));
        list := list + [entry.value];
      }
      PrefixedDone(list, r.Rest());
      return Some(list);
    }

    method ReadFormat() returns (f: Option<Format>)
      requires r.Valid()
      modifies r
      ensures r.Valid() && Matches(FormatFrom(old(r.Rest())), f, r.Rest())
    {
      var magic := r.Exact(5);
      if magic.None? || magic.value != MAGIC { return None; }
      var version := r.Exact(3);
      if version.None? || !(version.value[0] == 1 && 12 <= version.value[1] <= 16) { return None; }
      var sizes := r.Exact(2);
      if sizes.None? { return None; }
      var format := r.Exact(1);
      if format.None? || format.value[0] != FORMAT_CUSTOM { return None; }
      return Some(Format(version.value[1], sizes.value[0], sizes.value[1]));
    }

    method ReadCompression(f: Format) returns (compression: Option<Compression>)
      requires r.Valid()
      modifies r
      ensures r.Valid() && Matches(CompressionFrom(old(r.Rest()), f), compression, r.Rest())
    {
      if f.minor >= 15 {
        var code := r.Exact(1);
        if code.None? || code.value[0] > 1 { return None; }
        return Some(if code.value[0] == 0 then Uncompressed else Gzip);
      }
      var level := ReadInt(f.intSize);
      if level.None? { return None; }
      return Some(if level.value == 0 then Uncompressed else Gzip);
    }

    /** `__init__`. */
    method Open() returns (ok: Option<Header>)
      requires r.Valid()
      modifies this, r
      ensures r.Valid() && Matches(HeaderFrom(old(r.Rest())), ok, r.Rest())
      ensures ok.Some? ==> header == ok.value
    {
      hide FormatFrom, CompressionFrom, IntsFrom, StrsFrom, IntFrom, EntriesFrom;
      var format := ReadFormat();
      if format.None? { return None; }
      var f := format.value;
      var compression := ReadCompression(f);
      if compression.None? { return None; }
      var created := ReadInts(7, f.intSize);
      if created.None? { return None; }
      var texts := ReadStrs(3, f.intSize);
      if texts.None? { return None; }
      var count := ReadInt(f.intSize);
      if count.None? { return None; }
      var toc := ReadToc(if count.value < 0 then 0 else count.value, f);
      if toc.None? { return None; }
      header := Header(f, compression.value, texts.value[0], texts.value[1], texts.value[2], toc.value);
      return Some(header);
    }

    method SkipLargeObjects() returns (ok: Option<()>)
      requires r.Valid()
      modifies r
      ensures r.Valid() && Matches(SkipBlobs(old(r.Rest()), header.format.intSize as nat), ok, r.Rest())
    {
      ghost var start, size := r.Rest(), header.format.intSize as nat;
      while true
        invariant r.Valid() && SkipBlobs(start, size) == SkipBlobs(r.Rest(), size)
        decreases |r.Rest()|
      {
        IntFromShorter(r.Rest(), size);
        ghost var next := SkipBlobs(r.Rest(), size);
        var oid := ReadInt(header.format.intSize);
        if oid.None? { return None; }
        if oid.value == 0 { return Some(()); }
        var chunks := SkipChunks();
        if chunks.None? { return None; }
      }
    }

    /** `data_stream`, up to the data. */
    method SeekTable(dumpId: int) returns (ok: Option<()>)
      requires r.Valid()
      modifies r
      ensures r.Valid() && Matches(SeekData(old(r.Rest()), dumpId, header.format.intSize as nat), ok, r.Rest())
    {
      ghost var start, size := r.Rest(), header.format.intSize as nat;
      hide IntFrom, ChunksFrom, SkipBlobs;
      while true
        invariant r.Valid() && SeekData(start, dumpId, size) == SeekData(r.Rest(), dumpId, size)
        decreases |r.Rest()|
      {
        var kind := r.Exact(1);
        if kind.None? { return None; }
        IntFromShorter(r.Rest(), size);
        var id := ReadInt(header.format.intSize);
        if id.None? { return None; }
        if kind.value[0] == BLK_DATA && id.value == dumpId { return Some(()); }
        var skipped;
        if kind.value[0] == BLK_BLOBS {
          skipped := SkipLargeObjects();
        } else {
          skipped := SkipChunks();
        }
        if skipped.None? { return None; }
      }
    }
  }

  // ----- decompression -----

  /** A decompressor: what it has put out once it was fed some bytes, and what its flush then adds. */
  datatype Codec = Codec(output: seq<byte> -> seq<byte>, flush: seq<byte> -> seq<byte>)

  /** More input only adds output. */
  ghost predicate Incremental(c: Codec) {
    c.output([]) == [] && forall a, b :: c.output(a) <= c.output(a + b)
  }

  const PLAIN := Codec(s => s, s => [])

  function Flatten(chunks: seq<seq<byte>>): seq<byte> {
    if chunks == [] then [] else chunks[0] + Flatten(chunks[1..])
  }

  /** Everything the decompressor puts out for a whole block. */
  function Decompressed(c: Codec, chunks: seq<seq<byte>>): seq<byte> {
    c.output(Flatten(chunks)) + c.flush(Flatten(chunks))
  }

  /** What is still to come once `fed` was fed. */
  ghost function ToCome(c: Codec, fed: seq<byte>, chunks: seq<seq<byte>>): seq<byte>
    requires Incremental(c)
  {
    var all := fed + Flatten(chunks);
    c.output(all)[|c.output(fed)|..] + c.flush(all)
  }

  lemma ToComeNext(c: Codec, fed: seq<byte>, chunks: seq<seq<byte>>)
    requires Incremental(c) && chunks != []
    ensures c.output(fed) <= c.output(fed + chunks[0])
    ensures ToCome(c, fed, chunks) == c.output(fed + chunks[0])[|c.output(fed)|..] + ToCome(c, fed + chunks[0], chunks[1..])
  {
    var all := fed + Flatten(chunks);
    assert all == (fed + chunks[0]) + Flatten(chunks[1..]);
    assert c.output(fed + chunks[0]) <= c.output((fed + chunks[0]) + Flatten(chunks[1..]));
    var m, n := |c.output(fed)|, |c.output(fed + chunks[0])|;
    assert c.output(all)[m..] == c.output(fed + chunks[0])[m..] + c.output(all)[n..];
  }

  lemma ToComeAtEnd(c: Codec, fed: seq<byte>)
    requires Incremental(c)
    ensures ToCome(c, fed, []) == c.flush(fed)
  {
    assert fed + Flatten([]) == fed;
  }

  lemma ToComeAtStart(c: Codec, chunks: seq<seq<byte>>)
    requires Incremental(c)
    ensures ToCome(c, [], chunks) == Decompressed(c, chunks)
  {
    assert [] + Flatten(chunks) == Flatten(chunks);
  }

  lemma ChunksNext(s: seq<byte>, intSize: nat)
    ensures ChunksFrom(s, intSize)
         == match NextFrom(s, intSize)
            case Fail => Fail
            case Done(None, rest) => Done([], rest)
            case Done(Some(chunk), rest) => Prefixed([chunk], ChunksFrom(rest, intSize))
    ensures NextFrom(s, intSize).Done? ==> |NextFrom(s, intSize).rest| < |s|
  {
    IntFromShorter(s, intSize);
  }

  /** What a stream will return: its buffer and, unless it is done, the rest of the block, decompressed. */
  ghost function Remaining(c: Codec, fed: seq<byte>, buffer: seq<byte>, done: bool, block: Parsed<seq<seq<byte>>>, rest: seq<byte>): Parsed<seq<byte>>
    requires Incremental(c)
  {
    if done then Done(buffer, rest)
    else if block.Fail? then Fail
    else Done(buffer + ToCome(c, fed, block.value), block.rest)
  }

  lemma RemainingNext(c: Codec, fed: seq<byte>, buffer: seq<byte>, chunk: seq<byte>, more: Parsed<seq<seq<byte>>>, s: seq<byte>, rest: seq<byte>)
    requires Incremental(c)
    ensures c.output(fed) <= c.output(fed + chunk)
    ensures Remaining(c, fed, buffer, false, Prefixed([chunk], more), s)
         == Remaining(c, fed + chunk, buffer + c.output(fed + chunk)[|c.output(fed)|..], false, more, rest)
  {
    if more.Done? {
      ToComeNext(c, fed, [chunk] + more.value);
      assert ([chunk] + more.value)[1..] == more.value;
      var out, later := c.output(fed + chunk)[|c.output(fed)|..], ToCome(c, fed + chunk, more.value);
      assert buffer + (out + later) == buffer + out + later;
    } else {
      assert c.output(fed) <= c.output(fed + chunk);
    }
  }

  lemma RemainingAtEnd(c: Codec, fed: seq<byte>, buffer: seq<byte>, s: seq<byte>, rest: seq<byte>)
    requires Incremental(c)
    ensures Remaining(c, fed, buffer, false, Done([], rest), s) == Remaining(c, fed, buffer + c.flush(fed), true, Fail, rest)
  {
    ToComeAtEnd(c, fed);
  }

  /** Reading `n` bytes of the buffer. */
  lemma RemainingTaken(c: Codec, fed: seq<byte>, buffer: seq<byte>, done: bool, block: Parsed<seq<seq<byte>>>, rest: seq<byte>, n: nat)
    requires Incremental(c) && n <= |buffer|
    ensures match Remaining(c, fed, buffer, done, block, rest)
            case Fail => Remaining(c, fed, buffer[n..], done, block, rest).Fail?
            case Done(text, after) =>
              && n <= |text| && text[..n] == buffer[..n]
              && Remaining(c, fed, buffer[n..], done, block, rest) == Done(text[n..], after)
  {
    if !done && block.Done? {
      var later := ToCome(c, fed, block.value);
      assert (buffer + later)[n..] == buffer[n..] + later;
    }
  }

  /** `_DecompressedStream`; `fed` is the state of `zlib.decompressobj`. */
  class DecompressedStream {
    const archive: CustomArchive
    const inflate: Codec
    var fed: seq<byte>
    var buffer: seq<byte>
    var done: bool

    ghost predicate Valid()
      reads this, archive, archive.r
    {
      archive.r.Valid() && Incremental(inflate)
    }

    /** What reads will return from now on, and the file after the block. */
    ghost function Contents(): Parsed<seq<byte>>
      requires Valid()
      reads this, archive, archive.r
    {
      Remaining(inflate, fed, buffer, done, ChunksFrom(archive.r.Rest(), archive.header.format.intSize as nat), archive.r.Rest())
    }

    constructor (archive: CustomArchive, inflate: Codec)
      requires archive.r.Valid() && Incremental(inflate)
      ensures Valid() && this.archive == archive && this.inflate == inflate && !done
      ensures var chunks := ChunksFrom(archive.r.Rest(), archive.header.format.intSize as nat);
              Contents() == if chunks.Fail? then Fail else Done(Decompressed(inflate, chunks.value), chunks.rest)
    {
      this.archive, this.inflate, fed, buffer, done := archive, inflate, [], [], false;
      new;
      var chunks := ChunksFrom(archive.r.Rest(), archive.header.format.intSize as nat);
      if chunks.Done? {
        ToComeAtStart(inflate, chunks.value);
        assert [] + ToCome(inflate, [], chunks.value) == ToCome(inflate, [], chunks.value);
      }
    }

    /** One round of the loop in `read`: a chunk more in the buffer, or the end. */
    method Pull() returns (ok: bool)
      requires Valid() && !done
      modifies this, archive.r
      ensures Valid()
      ensures ok ==> Contents() == old(Contents()) && |archive.r.Rest()| < |old(archive.r.Rest())|
      ensures !ok ==> old(Contents()).Fail?
    {
      ghost var s, size := archive.r.Rest(), archive.header.format.intSize as nat;
      ChunksNext(s, size);
      hide ChunksFrom, NextFrom, IntFrom, ToCome;
      var next := archive.NextChunk();
      if next.None? {
        return false;
      }
      ghost var rest := archive.r.Rest();
      if next.value.None? {
        RemainingAtEnd(inflate, fed, buffer, s, rest);
        buffer := buffer + inflate.flush(fed);
        done := true;
      } else {
        var chunk := next.value.value;
        RemainingNext(inflate, fed, buffer, chunk, ChunksFrom(rest, size), s, rest);
        buffer := buffer + inflate.output(fed + chunk)[|inflate.output(fed)|..];
        fed := fed + chunk;
      }
      return true;
    }

    /** `read`; a negative size reads everything. */
    method Read(size: int) returns (data: Option<seq<byte>>)
      requires Valid()
      modifies this, archive.r
      ensures Valid()
      ensures match old(Contents())
              case Fail => data.Some? ==> Contents().Fail? && |data.value| == size
              case Done(text, rest) =>
                && data == Some(if size < 0 then text else text[..Min(size, |text|)])
                && Contents() == Done(text[|data.value|..], rest)
      ensures data == Some([]) && size != 0 ==> Contents().Done? && Contents().value == []
      ensures var r := archive.r; data.Some? ==>
                || |r.Rest()| < |old(archive.r.Rest())|
                || (|r.Rest()| == |old(archive.r.Rest())| && |old(buffer)| == |data.value| + |buffer|)
    {
      hide ChunksFrom, ToCome, Incremental;
      ghost var contents := Contents();
      while !done && (size < 0 || |buffer| < size)
        invariant Valid() && Contents() == contents && |archive.r.Rest()| <= |old(archive.r.Rest())|
        invariant |archive.r.Rest()| < |old(archive.r.Rest())| || buffer == old(buffer)
        decreases |archive.r.Rest()|
      {
        var ok := Pull();
        if !ok {
          return None;
        }
      }
      var n := if size < 0 || size >= |buffer| then |buffer| else size;
      ghost var block := ChunksFrom(archive.r.Rest(), archive.header.format.intSize as nat);
      RemainingTaken(inflate, fed, buffer, done, block, archive.r.Rest(), n);
      assert done ==> contents == Done(buffer, archive.r.Rest());
      assert buffer[..|buffer|] == buffer;
      data := Some(buffer[..n]);
      buffer := buffer[n..];
    }
  }

  // ----- loading one table -----

  const TABLE: seq<byte> := [0x54, 0x41, 0x42, 0x4C, 0x45]
  const TABLE_DATA: seq<byte> := TABLE + [0x20, 0x44, 0x41, 0x54, 0x41]

  predicate IsEntry(e: TocEntry, desc: seq<byte>, namespace: seq<byte>, tag: seq<byte>) {
    e.desc == Some(desc) && e.namespace == Some(namespace) && e.tag == Some(tag)
  }

  /** The first entry of that description and name. */
  function Find(toc: seq<TocEntry>, desc: seq<byte>, namespace: seq<byte>, tag: seq<byte>): Option<TocEntry> {
    if toc == [] then None
    else if IsEntry(toc[0], desc, namespace, tag) then Some(toc[0])
    else Find(toc[1..], desc, namespace, tag)
  }

  function CodecOf(c: Compression, gzip: Codec): Codec {
    if c == Gzip then gzip else PLAIN
  }

  /** The table's data in a dump, decompressed. */
  function TableFrom(file: seq<byte>, namespace: seq<byte>, tag: seq<byte>, gzip: Codec): Parsed<seq<byte>> {
    var start :- HeaderFrom(file);
    var header := start.0;
    var data := Find(header.toc, TABLE_DATA, namespace, tag);
    if Find(header.toc, TABLE, namespace, tag).None? || data.None? then Fail
    else
      var found :- SeekData(start.1, data.value.dumpId, header.format.intSize as nat);
      var chunks :- ChunksFrom(found.1, header.format.intSize as nat);
      Done(Decompressed(CodecOf(header.compression, gzip), chunks.0), chunks.1)
  }

  datatype Loaded = Loaded(data: seq<byte>, sha256: seq<byte>, size: nat)

  lemma PlainIsIncremental()
    ensures Incremental(PLAIN)
  {
  }

  /** `load_audit_log`: the copied data, and the hash and size of the whole file; the copy reads in any sizes it likes. */
  method LoadTable(file: seq<byte>, namespace: seq<byte>, tag: seq<byte>, gzip: Codec) returns (loaded: Option<Loaded>)
    requires Incremental(gzip)
    ensures loaded == match TableFrom(file, namespace, tag, gzip)
                      case Fail => None
                      case Done(text, _) => Some(Loaded(text, file, |file|))
  {
    hide HeaderFrom, SeekData, ChunksFrom, Find, Incremental, Remaining;
    var reader := new HashingReader(file);
    var archive := new CustomArchive(reader);
    var start := archive.Open();
    if start.None? { return None; }
    var header := start.value;
    var table, data := Find(header.toc, TABLE, namespace, tag), Find(header.toc, TABLE_DATA, namespace, tag);
    if table.None? || data.None? { return None; }
    var found := archive.SeekTable(data.value.dumpId);
    if found.None? { return None; }
    PlainIsIncremental();
    var stream := new DecompressedStream(archive, CodecOf(header.compression, gzip));
    ghost var contents := stream.Contents();
    var copied := CopyAll(stream);
    if copied.None? { return None; }
    reader.Finish();
    return Some(Loaded(copied.value, reader.sha256, reader.size));
  }

  /** `all` was read of the contents and `left` is still to come. */
  predicate Copied(contents: Parsed<seq<byte>>, all: seq<byte>, left: Parsed<seq<byte>>) {
    match contents
    case Fail => left.Fail?
    case Done(text, rest) => left.Done? && text == all + left.value && left.rest == rest
  }

  lemma CopiedNext(contents: Parsed<seq<byte>>, all: seq<byte>, before: Parsed<seq<byte>>, data: seq<byte>, left: Parsed<seq<byte>>)
    requires Copied(contents, all, before)
    requires match before
             case Fail => left.Fail?
             case Done(text, rest) => data <= text && left == Done(text[|data|..], rest)
    ensures Copied(contents, all + data, left)
  {
    if before.Done? {
      assert before.value == data + left.value;
      assert all + (data + left.value) == all + data + left.value;
    }
  }

  /** Reads of any positive sizes until one returns nothing. */
  method CopyAll(stream: DecompressedStream) returns (copied: Option<seq<byte>>)
    requires stream.Valid()
    modifies stream, stream.archive.r
    ensures stream.Valid()
    ensures match old(stream.Contents()) case Fail => copied.None? case Done(text, _) => copied == Some(text)
  {
    hide ChunksFrom, ToCome, Incremental, Copied;
    ghost var contents := stream.Contents();
    var all := [];
    CopiedStart(contents);
    while true
      invariant stream.Valid() && Copied(contents, all, stream.Contents())
      decreases |stream.archive.r.Rest()|, |stream.buffer|
    {
      var size: int :| size > 0;
      ghost var before := stream.Contents();
      var data := stream.Read(size);
      if data.None? {
        CopiedFails(contents, all, before);
        return None;
      }
      CopiedNext(contents, all, before, data.value, stream.Contents());
      all := all + data.value;
      if data.value == [] {
        CopiedAll(contents, all, stream.Contents());
        return Some(all);
      }
    }
  }

  lemma CopiedStart(contents: Parsed<seq<byte>>)
    ensures Copied(contents, [], contents)
  {
  }

  lemma CopiedFails(contents: Parsed<seq<byte>>, all: seq<byte>, left: Parsed<seq<byte>>)
    requires Copied(contents, all, left) && left.Fail?
    ensures contents.Fail?
  {
  }

  lemma CopiedAll(contents: Parsed<seq<byte>>, all: seq<byte>, left: Parsed<seq<byte>>)
    requires Copied(contents, all, left) && left.Done? && left.value == []
    ensures contents.Done? && contents.value == all
  {
  }

  // ----- the writer, each part printed in front of the bytes that follow it -----

  function Power(size: nat): (p: nat)
    ensures p > 0
  {
    if size == 0 then 1 else 256 * Power(size - 1)
  }

  function Magnitude(v: int): nat {
    if v < 0 then -v else v
  }

  /** The value fits an integer of `size` bytes, whose sign is a byte of its own. */
  predicate Fits(v: int, size: nat) {
    Magnitude(v) < Power(size)
  }

  function PutLittle(v: nat, size: nat): (s: seq<byte>)
    ensures |s| == size
  {
    if size == 0 then [] else [(v % 256) as byte] + PutLittle(v / 256, size - 1)
  }

  function PutInt(v: int, size: nat, rest: seq<byte>): seq<byte> {
    [if v < 0 then 1 else 0] + (PutLittle(Magnitude(v), size) + rest)
  }

  predicate StrFits(t: Str, size: nat) {
    if t.None? then Fits(-1, size) else Fits(|t.value|, size)
  }

  function PutStr(t: Str, size: nat, rest: seq<byte>): seq<byte> {
    if t.None? then PutInt(-1, size, rest) else PutInt(|t.value|, size, t.value + rest)
  }

  function PutInts(vs: seq<int>, size: nat, rest: seq<byte>): seq<byte> {
    if vs == [] then rest else PutInt(vs[0], size, PutInts(vs[1..], size, rest))
  }

  function PutStrs(ts: seq<Str>, size: nat, rest: seq<byte>): seq<byte> {
    if ts == [] then rest else PutStr(ts[0], size, PutStrs(ts[1..], size, rest))
  }

  lemma {:induction false} LittleInvertsPut(v: nat, size: nat)
    requires v < Power(size)
    ensures Little(PutLittle(v, size)) == v
  {
    if size > 0 {
      LittleInvertsPut(v / 256, size - 1);
      assert PutLittle(v, size)[1..] == PutLittle(v / 256, size - 1);
    }
  }

  lemma ExactTakes(first: seq<byte>, rest: seq<byte>)
    ensures ExactFrom(first + rest, |first|) == Done(first, rest)
  {
    assert (first + rest)[..|first|] == first && (first + rest)[|first|..] == rest;
  }

  lemma IntInvertsPut(v: int, size: nat, rest: seq<byte>)
    requires Fits(v, size)
    ensures IntFrom(PutInt(v, size, rest), size) == Done(v, rest)
  {
    LittleInvertsPut(Magnitude(v), size);
    ExactTakes([if v < 0 then 1 else 0], PutLittle(Magnitude(v), size) + rest);
    ExactTakes(PutLittle(Magnitude(v), size), rest);
  }

  lemma StrInvertsPut(t: Str, size: nat, rest: seq<byte>)
    requires StrFits(t, size)
    ensures StrFrom(PutStr(t, size, rest), size) == Done(t, rest)
  {
    if t.None? {
      IntInvertsPut(-1, size, rest);
    } else {
      IntInvertsPut(|t.value|, size, t.value + rest);
      ExactTakes(t.value, rest);
    }
  }

  lemma {:induction false} IntsInvertPut(vs: seq<int>, size: nat, rest: seq<byte>)
    requires forall v :: v in vs ==> Fits(v, size)
    ensures IntsFrom(PutInts(vs, size, rest), |vs|, size) == Done(vs, rest)
    decreases |vs|
  {
    if vs != [] {
      IntInvertsPut(vs[0], size, PutInts(vs[1..], size, rest));
      IntsInvertPut(vs[1..], size, rest);
      assert [vs[0]] + vs[1..] == vs;
    }
  }

  lemma {:induction false} StrsInvertPut(ts: seq<Str>, size: nat, rest: seq<byte>)
    requires forall t :: t in ts ==> StrFits(t, size)
    ensures StrsFrom(PutStrs(ts, size, rest), |ts|, size) == Done(ts, rest)
    decreases |ts|
  {
    if ts != [] {
      StrInvertsPut(ts[0], size, PutStrs(ts[1..], size, rest));
      StrsInvertPut(ts[1..], size, rest);
      assert [ts[0]] + ts[1..] == ts;
    }
  }

  // ----- entries and header, as pg_dump writes them -----

  datatype Written = Written(
    kept: TocEntry, tableOid: Str, oid: Str, section: int, drop: Str, tablespace: Str, accessMethod: Str, relkind: int,
    owner: Str, withOids: Str, dependencies: seq<seq<byte>>, offset: seq<byte>)

  function Dependencies(ds: seq<seq<byte>>, size: nat, rest: seq<byte>): seq<byte> {
    if ds == [] then PutStr(None, size, rest) else PutStr(Some(ds[0]), size, Dependencies(ds[1..], size, rest))
  }

  function Names(w: Written): seq<Str> {
    [w.tableOid, w.oid, w.kept.tag, w.kept.desc]
  }

  function Texts(w: Written): seq<Str> {
    [w.kept.defn, w.drop, w.kept.copyStmt, w.kept.namespace, w.tablespace, w.accessMethod]
  }

  function Relkind(w: Written, f: Format): seq<int> {
    if f.minor >= 16 then [w.relkind] else []
  }

  predicate EntryFits(w: Written, f: Format) {
    var size := f.intSize as nat;
    && Fits(-1, size) && Fits(w.kept.dumpId, size) && Fits(w.kept.hadDumper, size) && Fits(w.section, size)
    && Fits(w.relkind, size) && |w.offset| == f.offSize as nat
    && (forall t :: t in Names(w) + Texts(w) + [w.owner, w.withOids] ==> StrFits(t, size))
    && forall d :: d in w.dependencies ==> Fits(|d|, size)
  }

  function PutEntry(w: Written, f: Format, rest: seq<byte>): seq<byte> {
    var size := f.intSize as nat;
    PutInts([w.kept.dumpId, w.kept.hadDumper], size, PutStrs(Names(w), size, PutInt(w.section, size,
      PutStrs(Texts(w), size, PutInts(Relkind(w, f), size, PutStrs([w.owner, w.withOids], size,
        Dependencies(w.dependencies, size, [w.kept.dataState] + (w.offset + rest))))))))
  }

  lemma {:induction false} DependenciesAreSkipped(ds: seq<seq<byte>>, size: nat, rest: seq<byte>)
    requires Fits(-1, size) && forall d :: d in ds ==> Fits(|d|, size)
    ensures SkipStrs(Dependencies(ds, size, rest), size) == Done((), rest)
    decreases |ds|
  {
    if ds == [] {
      StrInvertsPut(None, size, rest);
    } else {
      StrInvertsPut(Some(ds[0]), size, Dependencies(ds[1..], size, rest));
      DependenciesAreSkipped(ds[1..], size, rest);
    }
  }

  /** The reader gets back what it keeps of an entry and stops right behind it. */
  lemma EntryInvertsPut(w: Written, f: Format, rest: seq<byte>)
    requires EntryFits(w, f)
    ensures EntryFrom(PutEntry(w, f, rest), f) == Done(w.kept, rest)
  {
    var size := f.intSize as nat;
    EntryStrsFit(w, f);
    NamesAndTexts(w, f);
    hide Names, Texts, Relkind, IntsFrom, StrsFrom, IntFrom, SkipStrs, ExactFrom, PutInts, PutStrs, PutInt, Dependencies, StrFits, EntryFits, Fits;
    var atState := [w.kept.dataState] + (w.offset + rest);
    var atDependencies := Dependencies(w.dependencies, size, atState);
    var atOwner := PutStrs([w.owner, w.withOids], size, atDependencies);
    var atRelkind := PutInts(Relkind(w, f), size, atOwner);
    var atTexts := PutStrs(Texts(w), size, atRelkind);
    var atSection := PutInt(w.section, size, atTexts);
    var atNames := PutStrs(Names(w), size, atSection);
    IntsInvertPut([w.kept.dumpId, w.kept.hadDumper], size, atNames);
    StrsInvertPut(Names(w), size, atSection);
    IntInvertsPut(w.section, size, atTexts);
    StrsInvertPut(Texts(w), size, atRelkind);
    IntsInvertPut(Relkind(w, f), size, atOwner);
    StrsInvertPut([w.owner, w.withOids], size, atDependencies);
    DependenciesAreSkipped(w.dependencies, size, atState);
    ExactTakes([w.kept.dataState], w.offset + rest);
    ExactTakes(w.offset, rest);
  }

  lemma NamesAndTexts(w: Written, f: Format)
    ensures |Names(w)| == 4 && Names(w)[2] == w.kept.tag && Names(w)[3] == w.kept.desc
    ensures |Texts(w)| == 6 && Texts(w)[0] == w.kept.defn && Texts(w)[2] == w.kept.copyStmt && Texts(w)[3] == w.kept.namespace
    ensures |Relkind(w, f)| == if f.minor >= 16 then 1 else 0
  {
  }

  lemma EntryStrsFit(w: Written, f: Format)
    requires EntryFits(w, f)
    ensures var size := f.intSize as nat;
            && Fits(-1, size) && (forall v :: v in [w.kept.dumpId, w.kept.hadDumper] ==> Fits(v, size)) && Fits(w.section, size)
            && (forall t :: t in Names(w) ==> StrFits(t, size)) && (forall t :: t in Texts(w) ==> StrFits(t, size))
            && (forall t :: t in [w.owner, w.withOids] ==> StrFits(t, size)) && (forall v :: v in Relkind(w, f) ==> Fits(v, size))
            && (forall d :: d in w.dependencies ==> Fits(|d|, size)) && |w.offset| == f.offSize as nat
  {
  }

  function Kept(ws: seq<Written>): (toc: seq<TocEntry>)
    ensures |toc| == |ws|
  {
    if ws == [] then [] else [ws[0].kept] + Kept(ws[1..])
  }

  function PutEntries(ws: seq<Written>, f: Format, rest: seq<byte>): seq<byte> {
    if ws == [] then rest else PutEntry(ws[0], f, PutEntries(ws[1..], f, rest))
  }

  lemma {:induction false} EntriesInvertPut(ws: seq<Written>, f: Format, rest: seq<byte>)
    requires forall w :: w in ws ==> EntryFits(w, f)
    ensures EntriesFrom(PutEntries(ws, f, rest), |ws|, f) == Done(Kept(ws), rest)
    decreases |ws|
  {
    hide EntryFrom, PutEntry, EntryFits;
    if ws != [] {
      EntryInvertsPut(ws[0], f, PutEntries(ws[1..], f, rest));
      EntriesInvertPut(ws[1..], f, rest);
    }
  }

  /** A header as pg_dump writes it: any revision, creation time and, before version 1.15, compression level. */
  datatype WrittenHeader = WrittenHeader(
    format: Format, revision: byte, compression: Compression, level: int, created: seq<int>, database: Str,
    serverVersion: Str, dumpVersion: Str, entries: seq<Written>)

  function PutCompression(h: WrittenHeader, rest: seq<byte>): seq<byte> {
    if h.format.minor >= 15 then [if h.compression == Gzip then 1 else 0] + rest
    else PutInt(h.level, h.format.intSize as nat, rest)
  }

  function PutFormat(h: WrittenHeader, rest: seq<byte>): seq<byte> {
    MAGIC + ([1, h.format.minor, h.revision] + ([h.format.intSize, h.format.offSize] + ([FORMAT_CUSTOM] + rest)))
  }

  function PutHeader(h: WrittenHeader, rest: seq<byte>): seq<byte> {
    var size := h.format.intSize as nat;
    PutFormat(h, PutCompression(h, PutInts(h.created, size, PutStrs([h.database, h.serverVersion, h.dumpVersion], size,
      PutInt(|h.entries|, size, PutEntries(h.entries, h.format, rest))))))
  }

  predicate HeaderFits(h: WrittenHeader) {
    var size := h.format.intSize as nat;
    && 12 <= h.format.minor <= 16 && |h.created| == 7 && Fits(h.level, size) && (h.compression == Gzip <==> h.level != 0)
    && (forall v :: v in h.created ==> Fits(v, size)) && Fits(|h.entries|, size)
    && StrFits(h.database, size) && StrFits(h.serverVersion, size) && StrFits(h.dumpVersion, size)
    && forall w :: w in h.entries ==> EntryFits(w, h.format)
  }

  function KeptHeader(h: WrittenHeader): Header {
    Header(h.format, h.compression, h.database, h.serverVersion, h.dumpVersion, Kept(h.entries))
  }

  lemma FormatInvertsPut(h: WrittenHeader, rest: seq<byte>)
    requires 12 <= h.format.minor <= 16
    ensures FormatFrom(PutFormat(h, rest)) == Done(h.format, rest)
  {
    hide ExactFrom;
    var atFormat := [FORMAT_CUSTOM] + rest;
    var atSizes := [h.format.intSize, h.format.offSize] + atFormat;
    ExactTakes(MAGIC, [1, h.format.minor, h.revision] + atSizes);
    ExactTakes([1, h.format.minor, h.revision], atSizes);
    ExactTakes([h.format.intSize, h.format.offSize], atFormat);
    ExactTakes([FORMAT_CUSTOM], rest);
  }

  lemma CompressionInvertsPut(h: WrittenHeader, rest: seq<byte>)
    requires Fits(h.level, h.format.intSize as nat) && (h.compression == Gzip <==> h.level != 0)
    ensures CompressionFrom(PutCompression(h, rest), h.format) == Done(h.compression, rest)
  {
    if h.format.minor >= 15 {
      ExactTakes([if h.compression == Gzip then 1 else 0], rest);
    } else {
      IntInvertsPut(h.level, h.format.intSize as nat, rest);
    }
  }

  /** The header that is read is the one written, with the same table of contents. */
  lemma HeaderInvertsPut(h: WrittenHeader, rest: seq<byte>)
    requires HeaderFits(h)
    ensures HeaderFrom(PutHeader(h, rest)) == Done(KeptHeader(h), rest)
  {
    hide IntsFrom, StrsFrom, IntFrom, EntriesFrom, FormatFrom, CompressionFrom, EntryFits, Fits, StrFits, PutFormat, PutCompression, PutInts, PutStrs, PutInt, PutEntries;
    var size := h.format.intSize as nat;
    var texts := [h.database, h.serverVersion, h.dumpVersion];
    var atEntries := PutEntries(h.entries, h.format, rest);
    var atCount := PutInt(|h.entries|, size, atEntries);
    var atTexts := PutStrs(texts, size, atCount);
    var atCreated := PutInts(h.created, size, atTexts);
    FormatInvertsPut(h, PutCompression(h, atCreated));
    CompressionInvertsPut(h, atCreated);
    IntsInvertPut(h.created, size, atTexts);
    StrsInvertPut(texts, size, atCount);
    IntInvertsPut(|h.entries|, size, atEntries);
    EntriesInvertPut(h.entries, h.format, rest);
  }

  // ----- the layout, spelled out -----

  /** An integer of four bytes: a sign byte, and the magnitude with its lowest byte first. */
  lemma IntLayout(sign: byte, a: byte, b: byte, c: byte, d: byte, rest: seq<byte>)
    ensures var magnitude := a as int + 0x100 * b as int + 0x1_0000 * c as int + 0x100_0000 * d as int;
            IntFrom([sign, a, b, c, d] + rest, 4) == Done(if sign == 0 then magnitude else -magnitude, rest)
  {
    ExactTakes([sign], [a, b, c, d] + rest);
    ExactTakes([a, b, c, d], rest);
    assert [sign, a, b, c, d] + rest == [sign] + ([a, b, c, d] + rest);
    assert [a, b, c, d][1..] == [b, c, d] && [b, c, d][1..] == [c, d] && [c, d][1..] == [d] && [d][1..] == [];
    assert Little([d]) == d as nat && Little([c, d]) == c as nat + 256 * Little([d]);
    assert Little([b, c, d]) == b as nat + 256 * Little([c, d]) && Little([a, b, c, d]) == a as nat + 256 * Little([b, c, d]);
  }

  /** The first eleven bytes: `PGDMP`, version 1.12 to 1.16 with any revision, the two sizes, and the custom format. */
  lemma FormatLayout(magic: seq<byte>, major: byte, minor: byte, revision: byte, intSize: byte, offSize: byte, format: byte, rest: seq<byte>)
    requires |magic| == 5
    ensures FormatFrom(magic + ([major, minor, revision] + ([intSize, offSize] + ([format] + rest)))) ==
            if magic == [0x50, 0x47, 0x44, 0x4D, 0x50] && major == 1 && 12 <= minor <= 16 && format == 1
            then Done(Format(minor, intSize, offSize), rest) else Fail
  {
    var atFormat := [format] + rest;
    var atSizes := [intSize, offSize] + atFormat;
    var atVersion := [major, minor, revision] + atSizes;
    ExactTakes(magic, atVersion);
    ExactTakes([major, minor, revision], atSizes);
    ExactTakes([intSize, offSize], atFormat);
    ExactTakes([format], rest);
    hide ExactFrom;
  }

  /** From version 1.15 on a byte says how the data is compressed, 0 not and 1 by gzip; before, a level that is not 0. */
  lemma CompressionLayout(f: Format, code: byte, level: int, rest: seq<byte>)
    ensures f.minor >= 15 ==> CompressionFrom([code] + rest, f) ==
                              if code == 0 then Done(Uncompressed, rest) else if code == 1 then Done(Gzip, rest) else Fail
    ensures f.minor < 15 && Fits(level, f.intSize as nat) ==>
              CompressionFrom(PutInt(level, f.intSize as nat, rest), f) == Done(if level == 0 then Uncompressed else Gzip, rest)
  {
    ExactTakes([code], rest);
    if f.minor < 15 && Fits(level, f.intSize as nat) {
      IntInvertsPut(level, f.intSize as nat, rest);
    }
  }

  lemma TwoInts(a: int, b: int, size: nat, rest: seq<byte>)
    ensures PutInts([a, b], size, rest) == PutInt(a, size, PutInt(b, size, rest))
  {
    assert [a, b][1..] == [b] && [b][1..] == [];
    assert PutInts([b], size, rest) == PutInt(b, size, PutInts([], size, rest));
  }

  lemma {:induction false} SomeStrs(ts: seq<Str>, more: seq<Str>, size: nat, rest: seq<byte>)
    ensures PutStrs(ts + more, size, rest) == PutStrs(ts, size, PutStrs(more, size, rest))
    decreases |ts|
  {
    if ts == [] {
      assert ts + more == more;
    } else {
      assert (ts + more)[0] == ts[0] && (ts + more)[1..] == ts[1..] + more;
      SomeStrs(ts[1..], more, size, rest);
    }
  }

  lemma TwoStrs(a: Str, b: Str, size: nat, rest: seq<byte>)
    ensures PutStrs([a, b], size, rest) == PutStr(a, size, PutStr(b, size, rest))
  {
    assert [a, b][1..] == [b] && [b][1..] == [];
    assert PutStrs([b], size, rest) == PutStr(b, size, PutStrs([], size, rest));
  }

  lemma FourStrs(a: Str, b: Str, c: Str, d: Str, size: nat, rest: seq<byte>)
    ensures PutStrs([a, b, c, d], size, rest) == PutStr(a, size, PutStr(b, size, PutStr(c, size, PutStr(d, size, rest))))
  {
    assert [a, b, c, d] == [a, b] + [c, d];
    SomeStrs([a, b], [c, d], size, rest);
    TwoStrs(a, b, size, PutStrs([c, d], size, rest));
    TwoStrs(c, d, size, rest);
  }

  lemma SixStrs(a: Str, b: Str, c: Str, d: Str, e: Str, f: Str, size: nat, rest: seq<byte>)
    ensures PutStrs([a, b, c, d, e, f], size, rest)
         == PutStr(a, size, PutStr(b, size, PutStr(c, size, PutStr(d, size, PutStr(e, size, PutStr(f, size, rest))))))
  {
    assert [a, b, c, d, e, f] == [a, b, c, d] + [e, f];
    SomeStrs([a, b, c, d], [e, f], size, rest);
    FourStrs(a, b, c, d, size, PutStrs([e, f], size, rest));
    TwoStrs(e, f, size, rest);
  }

  /** An entry, field by field in the order of the format, is read as what the reader keeps of it. */
  lemma EntryLayout(w: Written, f: Format, rest: seq<byte>)
    requires EntryFits(w, f)
    ensures var n, e := f.intSize as nat, w.kept;
            var end := PutStr(w.owner, n, PutStr(w.withOids, n, Dependencies(w.dependencies, n, [e.dataState] + (w.offset + rest))));
            var bytes := PutInt(e.dumpId, n, PutInt(e.hadDumper, n, PutStr(w.tableOid, n, PutStr(w.oid, n, PutStr(e.tag, n,
              PutStr(e.desc, n, PutInt(w.section, n, PutStr(e.defn, n, PutStr(w.drop, n, PutStr(e.copyStmt, n, PutStr(e.namespace, n,
              PutStr(w.tablespace, n, PutStr(w.accessMethod, n, if f.minor >= 16 then PutInt(w.relkind, n, end) else end)))))))))))));
            EntryFrom(bytes, f) == Done(e, rest)
  {
    var n, e := f.intSize as nat, w.kept;
    EntryInvertsPut(w, f, rest);
    hide EntryFrom, PutInt, PutStr, Dependencies, EntryFits;
    var atDependencies := Dependencies(w.dependencies, n, [e.dataState] + (w.offset + rest));
    TwoStrs(w.owner, w.withOids, n, atDependencies);
    var end := PutStrs([w.owner, w.withOids], n, atDependencies);
    assert [w.relkind][1..] == [] && PutInts([], n, end) == end;
    var atRelkind := PutInts(Relkind(w, f), n, end);
    SixStrs(e.defn, w.drop, e.copyStmt, e.namespace, w.tablespace, w.accessMethod, n, atRelkind);
    var atSection := PutInt(w.section, n, PutStrs(Texts(w), n, atRelkind));
    FourStrs(w.tableOid, w.oid, e.tag, e.desc, n, atSection);
    TwoInts(e.dumpId, e.hadDumper, n, PutStrs(Names(w), n, atSection));
  }

  // ----- blocks, as pg_dump writes them -----

  datatype Block =
    | DataBlock(id: int, chunks: seq<seq<byte>>)
    | BlobsBlock(id: int, blobs: seq<(int, seq<seq<byte>>)>)
    | OtherBlock(kind: byte, id: int, chunks: seq<seq<byte>>)

  function PutChunks(chunks: seq<seq<byte>>, size: nat, rest: seq<byte>): seq<byte> {
    if chunks == [] then PutInt(0, size, rest)
    else PutInt(|chunks[0]|, size, chunks[0] + PutChunks(chunks[1..], size, rest))
  }

  function PutBlobs(blobs: seq<(int, seq<seq<byte>>)>, size: nat, rest: seq<byte>): seq<byte> {
    if blobs == [] then PutInt(0, size, rest)
    else PutInt(blobs[0].0, size, PutChunks(blobs[0].1, size, PutBlobs(blobs[1..], size, rest)))
  }

  function PutBlock(b: Block, size: nat, rest: seq<byte>): seq<byte> {
    match b
    case DataBlock(id, chunks) => [BLK_DATA] + PutInt(id, size, PutChunks(chunks, size, rest))
    case BlobsBlock(id, blobs) => [BLK_BLOBS] + PutInt(id, size, PutBlobs(blobs, size, rest))
    case OtherBlock(kind, id, chunks) => [kind] + PutInt(id, size, PutChunks(chunks, size, rest))
  }

  function PutBlocks(bs: seq<Block>, size: nat, rest: seq<byte>): seq<byte> {
    if bs == [] then rest else PutBlock(bs[0], size, PutBlocks(bs[1..], size, rest))
  }

  predicate ChunksFit(chunks: seq<seq<byte>>, size: nat) {
    forall c :: c in chunks ==> c != [] && Fits(|c|, size)
  }

  predicate BlockFits(b: Block, size: nat) {
    && Fits(b.id, size)
    && match b
       case DataBlock(_, chunks) => ChunksFit(chunks, size)
       case BlobsBlock(_, blobs) => forall o :: o in blobs ==> o.0 != 0 && Fits(o.0, size) && ChunksFit(o.1, size)
       case OtherBlock(kind, _, chunks) => kind != BLK_DATA && kind != BLK_BLOBS && ChunksFit(chunks, size)
  }

  /** The chunks of the first data block of the identifier. */
  function FirstData(bs: seq<Block>, dumpId: int): Option<seq<seq<byte>>> {
    if bs == [] then None
    else if bs[0].DataBlock? && bs[0].id == dumpId then Some(bs[0].chunks)
    else FirstData(bs[1..], dumpId)
  }

  lemma {:induction false} ChunksInvertPut(chunks: seq<seq<byte>>, size: nat, rest: seq<byte>)
    requires ChunksFit(chunks, size)
    ensures ChunksFrom(PutChunks(chunks, size, rest), size) == Done(chunks, rest)
    decreases |chunks|
  {
    if chunks == [] {
      IntInvertsPut(0, size, rest);
    } else {
      var after := PutChunks(chunks[1..], size, rest);
      assert chunks[0] in chunks;
      IntInvertsPut(|chunks[0]|, size, chunks[0] + after);
      ExactTakes(chunks[0], after);
      ChunksInvertPut(chunks[1..], size, rest);
      assert [chunks[0]] + chunks[1..] == chunks;
    }
  }

  lemma {:induction false} BlobsAreSkipped(blobs: seq<(int, seq<seq<byte>>)>, size: nat, rest: seq<byte>)
    requires forall o :: o in blobs ==> o.0 != 0 && Fits(o.0, size) && ChunksFit(o.1, size)
    ensures SkipBlobs(PutBlobs(blobs, size, rest), size) == Done((), rest)
    decreases |blobs|
  {
    hide IntFrom, PutInt, ChunksFrom, PutChunks, ChunksFit;
    if blobs == [] {
      assert Fits(0, size);
      IntInvertsPut(0, size, rest);
    } else {
      var after := PutBlobs(blobs[1..], size, rest);
      IntInvertsPut(blobs[0].0, size, PutChunks(blobs[0].1, size, after));
      ChunksInvertPut(blobs[0].1, size, after);
      BlobsAreSkipped(blobs[1..], size, rest);
    }
  }

  /** A block is skipped whole, unless it is the data block sought. */
  lemma BlockIsSkipped(b: Block, dumpId: int, size: nat, rest: seq<byte>)
    requires BlockFits(b, size)
    ensures SeekData(PutBlock(b, size, rest), dumpId, size)
         == if b.DataBlock? && b.id == dumpId then Done((), PutChunks(b.chunks, size, rest)) else SeekData(rest, dumpId, size)
  {
    hide IntFrom, PutInt, ChunksFrom, PutChunks, SkipBlobs, PutBlobs, Fits, ChunksFit;
    match b
    case DataBlock(id, chunks) =>
      ExactTakes([BLK_DATA], PutInt(id, size, PutChunks(chunks, size, rest)));
      IntInvertsPut(id, size, PutChunks(chunks, size, rest));
      ChunksInvertPut(chunks, size, rest);
    case BlobsBlock(id, blobs) =>
      ExactTakes([BLK_BLOBS], PutInt(id, size, PutBlobs(blobs, size, rest)));
      IntInvertsPut(id, size, PutBlobs(blobs, size, rest));
      BlobsAreSkipped(blobs, size, rest);
    case OtherBlock(kind, id, chunks) =>
      ExactTakes([kind], PutInt(id, size, PutChunks(chunks, size, rest)));
      IntInvertsPut(id, size, PutChunks(chunks, size, rest));
      ChunksInvertPut(chunks, size, rest);
  }

  /** The data of the first matching block is found; without one, the dump ends before the table's data. */
  lemma {:induction false} SeekFindsFirst(bs: seq<Block>, dumpId: int, size: nat)
    requires forall b :: b in bs ==> BlockFits(b, size)
    ensures match FirstData(bs, dumpId)
            case None => SeekData(PutBlocks(bs, size, []), dumpId, size).Fail?
            case Some(chunks) =>
              && ChunksFit(chunks, size)
              && SeekData(PutBlocks(bs, size, []), dumpId, size).Done?
              && exists rest :: SeekData(PutBlocks(bs, size, []), dumpId, size).rest == PutChunks(chunks, size, rest)
    decreases |bs|
  {
    hide PutBlock, PutChunks;
    if bs != [] {
      BlockIsSkipped(bs[0], dumpId, size, PutBlocks(bs[1..], size, []));
      if !(bs[0].DataBlock? && bs[0].id == dumpId) {
        hide SeekData;
        SeekFindsFirst(bs[1..], dumpId, size);
      }
    }
  }

  lemma {:induction false} FindsFirst(ws: seq<Written>, desc: seq<byte>, namespace: seq<byte>, tag: seq<byte>, i: nat)
    requires i <= |ws|
    requires forall j :: 0 <= j < i ==> !(ws[j].kept.desc == Some(desc) && ws[j].kept.namespace == Some(namespace) && ws[j].kept.tag == Some(tag))
    requires i < |ws| ==> ws[i].kept.desc == Some(desc) && ws[i].kept.namespace == Some(namespace) && ws[i].kept.tag == Some(tag)
    ensures Find(Kept(ws), desc, namespace, tag) == if i < |ws| then Some(ws[i].kept) else None
    decreases |ws|
  {
    if ws != [] {
      assert Kept(ws)[1..] == Kept(ws[1..]);
      if i > 0 {
        FindsFirst(ws[1..], desc, namespace, tag, i - 1);
      }
    }
  }

  lemma {:induction false} FindsAny(ws: seq<Written>, desc: seq<byte>, namespace: seq<byte>, tag: seq<byte>)
    ensures Find(Kept(ws), desc, namespace, tag).Some? <==>
            exists w :: w in ws && w.kept.desc == Some(desc) && w.kept.namespace == Some(namespace) && w.kept.tag == Some(tag)
  {
    if ws != [] {
      assert ws == [ws[0]] + ws[1..] && Kept(ws)[1..] == Kept(ws[1..]);
      FindsAny(ws[1..], desc, namespace, tag);
    }
  }

  lemma {:induction false} FirstDataIs(bs: seq<Block>, dumpId: int, k: nat)
    requires k <= |bs| && forall j :: 0 <= j < k ==> !(bs[j].DataBlock? && bs[j].id == dumpId)
    requires k < |bs| ==> bs[k].DataBlock? && bs[k].id == dumpId
    ensures FirstData(bs, dumpId) == if k < |bs| then Some(bs[k].chunks) else None
  {
    if k > 0 {
      FirstDataIs(bs[1..], dumpId, k - 1);
    }
  }

  /** Joined, in order. */
  lemma {:induction false} FlattenJoins(a: seq<seq<byte>>, c: seq<byte>, b: seq<seq<byte>>)
    ensures Flatten([]) == [] && Flatten([c]) == c && Flatten(a + b) == Flatten(a) + Flatten(b)
    decreases |a|
  {
    if a == [] {
      assert a + b == b;
    } else {
      assert (a + b)[1..] == a[1..] + b;
      FlattenJoins(a[1..], c, b);
    }
  }

  /** Loading a table of a dump. With the table among the entries, its data's first entry at `d`, and the first data block of
      that entry at `k`, it yields that block's chunks joined, as they are or decompressed as the header says; without any
      of the three (`d` or `k` at the end, then) it fails. */
  lemma DumpRoundTrip(h: WrittenHeader, bs: seq<Block>, namespace: seq<byte>, tag: seq<byte>, gzip: Codec, d: nat, k: nat)
    requires HeaderFits(h) && forall b :: b in bs ==> BlockFits(b, h.format.intSize as nat)
    requires d <= |h.entries| && forall i :: 0 <= i < d ==>
               !(h.entries[i].kept.desc == Some(TABLE_DATA) && h.entries[i].kept.namespace == Some(namespace) && h.entries[i].kept.tag == Some(tag))
    requires d < |h.entries| ==>
               && h.entries[d].kept.desc == Some(TABLE_DATA) && h.entries[d].kept.namespace == Some(namespace) && h.entries[d].kept.tag == Some(tag)
               && k <= |bs| && (forall j :: 0 <= j < k ==> !(bs[j].DataBlock? && bs[j].id == h.entries[d].kept.dumpId))
               && (k < |bs| ==> bs[k].DataBlock? && bs[k].id == h.entries[d].kept.dumpId)
    ensures var loaded := TableFrom(PutHeader(h, PutBlocks(bs, h.format.intSize as nat, [])), namespace, tag, gzip);
            if d < |h.entries| && k < |bs|
               && exists w :: w in h.entries && w.kept.desc == Some(TABLE) && w.kept.namespace == Some(namespace) && w.kept.tag == Some(tag)
            then var all := Flatten(bs[k].chunks);
                 loaded.Done? && loaded.value == if h.compression == Uncompressed then all else gzip.output(all) + gzip.flush(all)
            else loaded.Fail?
  {
    LoadedIs(h, bs, namespace, tag, gzip);
    FindsAny(h.entries, TABLE, namespace, tag);
    FindsFirst(h.entries, TABLE_DATA, namespace, tag, d);
    if d < |h.entries| {
      FirstDataIs(bs, h.entries[d].kept.dumpId, k);
    }
    hide TableFrom, PutHeader, PutBlocks, BlockFits, HeaderFits, Find, FirstData, Kept, Flatten;
  }

  lemma LoadedIs(h: WrittenHeader, bs: seq<Block>, namespace: seq<byte>, tag: seq<byte>, gzip: Codec)
    requires HeaderFits(h) && forall b :: b in bs ==> BlockFits(b, h.format.intSize as nat)
    ensures var toc := Kept(h.entries);
            var table, data := Find(toc, TABLE, namespace, tag), Find(toc, TABLE_DATA, namespace, tag);
            var loaded := TableFrom(PutHeader(h, PutBlocks(bs, h.format.intSize as nat, [])), namespace, tag, gzip);
            if table.None? || data.None? || FirstData(bs, data.value.dumpId).None? then loaded.Fail?
            else loaded.Done? && loaded.value == Decompressed(CodecOf(h.compression, gzip), FirstData(bs, data.value.dumpId).value)
  {
    var size := h.format.intSize as nat;
    hide HeaderFrom, PutHeader, SeekData, PutBlocks, ChunksFrom, PutChunks, Find, FirstData, Decompressed, BlockFits, HeaderFits, ChunksFit;
    HeaderInvertsPut(h, PutBlocks(bs, size, []));
    var data := Find(Kept(h.entries), TABLE_DATA, namespace, tag);
    if data.Some? {
      SeekFindsFirst(bs, data.value.dumpId, size);
      var chunks := FirstData(bs, data.value.dumpId);
      if chunks.Some? {
        var rest :| SeekData(PutBlocks(bs, size, []), data.value.dumpId, size).rest == PutChunks(chunks.value, size, rest);
        ChunksInvertPut(chunks.value, size, rest);
      }
    }
  }
}
