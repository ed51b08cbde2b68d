/** `app/services/chunked_files.py`: a file stored as byte slices beside a manifest. The digest is a parameter: any
    function from bytes to 64 hexadecimal digits. */
module ChunkedFiles {
  import opened Records
  import opened HeadKeys

  newtype byte = n: int | 0 <= n < 256

  const MAX_MANIFEST_BYTES := 1048576
  const MAX_PARTS := 32
  const MAX_TOTAL_BYTES := 134217728
  const FORMAT := "chunked-file/v1"

  /** A decoded JSON value. */
  datatype Json =
    | JString(text: string)
    | JInt(n: int)
    | JList(items: seq<Json>)
    | JObject(fields: map<string, Json>)
    | JOther

  /** A manifest as its bytes: how many there are, and the JSON they hold, if any. */
  datatype ManifestFile = ManifestFile(length: nat, doc: Option<Json>)

  datatype ChunkPart = ChunkPart(name: string, size: nat, sha256: string)

  datatype ChunkManifest = ChunkManifest(name: string, size: nat, sha256: string, parts: seq<ChunkPart>)

  type Digest = seq<byte> -> string

  // ----- names and digests -----

  predicate HasDots(s: string) {
    exists i :: 0 <= i < |s| - 1 && s[i] == '.' && s[i + 1] == '.'
  }

  /** `_check_basename`. */
  predicate Basename(s: string) {
    s != "" && NoSeparators(s) && !HasDots(s)
  }

  predicate NoSeparators(s: string) {
    forall i :: 0 <= i < |s| ==> s[i] != '/' && s[i] != '\\' && s[i] != '\0'
  }

  /** `^[0-9a-f]{64}$`: `$` also matches before one final newline. */
  predicate HexDigest(s: string) {
    (|s| == 64 || (|s| == 65 && s[64] == '\n')) && forall i :: 0 <= i < 64 ==> IsHexDigit(s[i])
  }

  ghost predicate IsDigest(sha: Digest) {
    forall d :: |sha(d)| == 64 && HexDigest(sha(d))
  }

  /** `part_name`. */
  function PartName(name: string, index: nat): string {
    name + ".part-" + if index < 10000 then Padded(index, 4) else Decimal(index)
  }

  // ----- parse_manifest -----

  function Field(d: map<string, Json>, key: string): Json {
    if key in d then d[key] else JOther
  }

  function TotalSize(parts: seq<ChunkPart>): nat {
    if parts == [] then 0 else TotalSize(parts[..|parts| - 1]) + parts[|parts| - 1].size
  }

  predicate IsPart(raw: Json, p: ChunkPart, name: string, index: nat) {
    && raw.JObject? && Field(raw.fields, "name") == JString(p.name) && Field(raw.fields, "size") == JInt(p.size)
    && Field(raw.fields, "sha256") == JString(p.sha256)
    && p.name == PartName(name, index) && Basename(p.name) && p.size > 0 && HexDigest(p.sha256)
  }

  /** The manifest's rules, outright: which documents describe which manifest. */
  predicate Describes(doc: Json, m: ChunkManifest) {
    && doc.JObject?
    && var d := doc.fields;
    && Field(d, "format") == JString(FORMAT) && Field(d, "name") == JString(m.name) && Field(d, "size") == JInt(m.size)
    && Field(d, "sha256") == JString(m.sha256) && Field(d, "parts").JList?
    && Basename(m.name) && HexDigest(m.sha256) && m.size <= MAX_TOTAL_BYTES && |m.parts| <= MAX_PARTS
    && |Field(d, "parts").items| == |m.parts|
    && (forall i :: 0 <= i < |m.parts| ==> IsPart(Field(d, "parts").items[i], m.parts[i], m.name, i + 1))
    && TotalSize(m.parts) == m.size
  }

  method ParsePart(raw: Json, name: string, index: nat) returns (part: Option<ChunkPart>)
    ensures part.Some? ==> IsPart(raw, part.value, name, index)
    ensures part.None? ==> forall p :: !IsPart(raw, p, name, index)
  {
    if !raw.JObject? { return None; }
    var pname := Field(raw.fields, "name");
    if !pname.JString? || !Basename(pname.text) || pname.text != PartName(name, index) { return None; }
    var psize := Field(raw.fields, "size");
    if !psize.JInt? || psize.n <= 0 { return None; }
    var sha := Field(raw.fields, "sha256");
    if !sha.JString? || !HexDigest(sha.text) { return None; }
    return Some(ChunkPart(pname.text, psize.n, sha.text));
  }

  /** `parse_manifest`; None is ChunkedFileError. */
  method ParseManifest(file: ManifestFile) returns (manifest: Option<ChunkManifest>)
    ensures manifest.Some? ==> file.length <= MAX_MANIFEST_BYTES && file.doc.Some? && Describes(file.doc.value, manifest.value)
    ensures manifest.None? ==> file.length > MAX_MANIFEST_BYTES || file.doc.None? || forall m :: !Describes(file.doc.value, m)
  {
    if file.length > MAX_MANIFEST_BYTES || file.doc.None? { return None; }
    var doc := file.doc.value;
    if !doc.JObject? || Field(doc.fields, "format") != JString(FORMAT) { return None; }
    var name := Field(doc.fields, "name");
    if !name.JString? || !Basename(name.text) { return None; }
    var size := Field(doc.fields, "size");
    if !size.JInt? || size.n < 0 || size.n > MAX_TOTAL_BYTES { return None; }
    var sha := Field(doc.fields, "sha256");
    if !sha.JString? || !HexDigest(sha.text) { return None; }
    var raw := Field(doc.fields, "parts");
    if !raw.JList? || |raw.items| > MAX_PARTS { return None; }
    if raw.items == [] && size.n > 0 {
      assert forall m :: Describes(doc, m) ==> m.parts == [];
      return None;
    }
    var parts: seq<ChunkPart> := [];
    for i := 0 to |raw.items|
      invariant |parts| == i
      invariant forall j :: 0 <= j < i ==> IsPart(raw.items[j], parts[j], name.text, j + 1)
    {
      var part := ParsePart(raw.items[i], name.text, i + 1);
      if part.None? {
        assert forall m :: Describes(doc, m) ==> !IsPart(raw.items[i], m.parts[i], name.text, i + 1);
        return None;
      }
      parts := parts + [part.value];
    }
    var m := ChunkManifest(name.text, size.n, sha.text, parts);
    var total := SumSizes(parts);
    if total != size.n {
      forall other | Describes(doc, other)
        ensures false
      {
        DescribedOnce(doc, other, parts);
      }
      return None;
    }
    return Some(m);
  }

  method SumSizes(parts: seq<ChunkPart>) returns (total: nat)
    ensures total == TotalSize(parts)
  {
    total := 0;
    for i := 0 to |parts|
      invariant total == TotalSize(parts[..i])
    {
      assert parts[..i + 1][..i] == parts[..i];
      total := total + parts[i].size;
    }
    assert parts[..|parts|] == parts;
  }

  /** A document describes at most one list of parts. */
  lemma DescribedOnce(doc: Json, m: ChunkManifest, parts: seq<ChunkPart>)
    requires Describes(doc, m)
    requires |parts| == |Field(doc.fields, "parts").items|
    requires forall i :: 0 <= i < |parts| ==> IsPart(Field(doc.fields, "parts").items[i], parts[i], m.name, i + 1)
    ensures m.parts == parts
  {
    forall i | 0 <= i < |parts|
      ensures m.parts[i] == parts[i]
    {
      assert IsPart(Field(doc.fields, "parts").items[i], m.parts[i], m.name, i + 1);
    }
  }

  // ----- split -----

  function Min(a: nat, b: nat): nat {
    if a <= b then a else b
  }

  /** How many slices of `partSize` bytes the data takes. */
  function SliceCount(n: nat, partSize: nat): nat
    requires partSize > 0
  {
    (n + partSize - 1) / partSize
  }

  function Flatten(chunks: seq<seq<byte>>): seq<byte> {
    if chunks == [] then [] else Flatten(chunks[..|chunks| - 1]) + chunks[|chunks| - 1]
  }

  datatype Part = Part(name: string, data: seq<byte>)

  function Datas(parts: seq<Part>): (chunks: seq<seq<byte>>)
    ensures |chunks| == |parts|
  {
    seq(|parts|, i requires 0 <= i < |parts| => parts[i].data)
  }

  /** What `split` puts in the parts list of the manifest. */
  function Entries(parts: seq<Part>, sha: Digest): (entries: seq<ChunkPart>)
    ensures |entries| == |parts|
  {
    seq(|parts|, i requires 0 <= i < |parts| => ChunkPart(parts[i].name, |parts[i].data|, sha(parts[i].data)))
  }

  function Encoded(p: ChunkPart): Json {
    JObject(map["name" := JString(p.name), "size" := JInt(p.size), "sha256" := JString(p.sha256)])
  }

  function EncodedParts(parts: seq<ChunkPart>): (items: seq<Json>)
    ensures |items| == |parts|
  {
    seq(|parts|, i requires 0 <= i < |parts| => Encoded(parts[i]))
  }

  /** The document `split` writes for a manifest. */
  function Document(m: ChunkManifest): Json {
    JObject(map["format" := JString(FORMAT), "name" := JString(m.name), "size" := JInt(m.size),
                "sha256" := JString(m.sha256), "parts" := JList(EncodedParts(m.parts))])
  }

  /** How many characters `json.dumps` takes for a character of a string. */
  function EscapedChar(c: char): nat {
    if c == '"' || c == '\\' || c in "\n\r\t" || c as int == 8 || c as int == 12 then 2
    else if ' ' <= c <= '~' then 1
    else if c as int < 0x10000 then 6
    else 12
  }

  function EscapedLength(s: string): nat {
    if s == "" then 0 else EscapedLength(s[..|s| - 1]) + EscapedChar(s[|s| - 1])
  }

  /** The bytes of one part with `indent=2`, without the comma that follows it. */
  function PartLength(p: ChunkPart): nat {
    129 + EscapedLength(p.name) + |Decimal(p.size)|
  }

  function PartsLength(parts: seq<ChunkPart>): nat {
    if parts == [] then 0 else PartsLength(parts[..|parts| - 1]) + PartLength(parts[|parts| - 1])
  }

  /** The bytes of the manifest as `split` writes it. */
  function ManifestLength(m: ChunkManifest): nat {
    151 + EscapedLength(m.name) + |Decimal(m.size)|
    + if m.parts == [] then 4 else PartsLength(m.parts) + |m.parts| - 1 + 7
  }

  datatype Split = Split(manifest: ChunkManifest, file: ManifestFile, parts: seq<Part>)

  predicate Splittable(name: string, n: nat, partSize: int) {
    Basename(name) && partSize > 0 && n <= MAX_TOTAL_BYTES && SliceCount(n, partSize) <= MAX_PARTS
  }

  /** `split`; None is an error. The parts are the consecutive slices of the data. */
  method SplitFile(name: string, data: seq<byte>, partSize: int, sha: Digest) returns (split: Option<Split>)
    ensures split.Some? <==> Splittable(name, |data|, partSize)
    ensures split.Some? ==>
              var m := ChunkManifest(name, |data|, sha(data), Entries(split.value.parts, sha));
              && split.value.manifest == m && split.value.file == ManifestFile(ManifestLength(m), Some(Document(m)))
              && SlicesOf(split.value.parts, name, data, partSize)
  {
    if !Basename(name) || partSize <= 0 || |data| > MAX_TOTAL_BYTES || SliceCount(|data|, partSize) > MAX_PARTS {
      return None;
    }
    var parts: seq<Part> := [];
    var offset := 0;
    hide SliceCount, ManifestLength, Document, Entries, SlicesOf, Full;
    SlicesOfNothing(name, data, partSize);
    while offset < |data|
      invariant SlicesOf(parts, name, data[..Min(offset, |data|)], partSize)
      invariant offset < |data| ==> Full(parts, partSize)
      decreases |data| - offset
    {
      var chunk := data[offset..Min(offset + partSize, |data|)];
      SlicesNext(parts, name, data, partSize, offset);
      parts := parts + [Part(PartName(name, |parts| + 1), chunk)];
      offset := offset + partSize;
    }
    assert data[..|data|] == data;
    var m := ChunkManifest(name, |data|, sha(data), Entries(parts, sha));
    return Some(Split(m, ManifestFile(ManifestLength(m), Some(Document(m))), parts));
  }

  /** Consecutive slices of the data, numbered from 1, of `partSize` bytes, only the last perhaps shorter. */
  predicate SlicesOf(parts: seq<Part>, name: string, data: seq<byte>, partSize: int) {
    && Flatten(Datas(parts)) == data
    && forall i :: 0 <= i < |parts| ==>
         && parts[i].name == PartName(name, i + 1) && 0 < |parts[i].data| <= partSize
         && (i < |parts| - 1 ==> |parts[i].data| == partSize)
  }

  predicate Full(parts: seq<Part>, partSize: int) {
    forall i :: 0 <= i < |parts| ==> |parts[i].data| == partSize
  }

  lemma SlicesOfNothing(name: string, data: seq<byte>, partSize: int)
    ensures SlicesOf([], name, data[..0], partSize) && Full([], partSize)
  {
  }

  lemma SlicesNext(parts: seq<Part>, name: string, data: seq<byte>, partSize: int, offset: nat)
    requires partSize > 0 && offset < |data| && SlicesOf(parts, name, data[..offset], partSize) && Full(parts, partSize)
    ensures var end := Min(offset + partSize, |data|);
            var next := parts + [Part(PartName(name, |parts| + 1), data[offset..end])];
            SlicesOf(next, name, data[..end], partSize) && (end < |data| ==> Full(next, partSize))
  {
    var end := Min(offset + partSize, |data|);
    var part := Part(PartName(name, |parts| + 1), data[offset..end]);
    var next := parts + [part];
    assert Datas(next)[..|parts|] == Datas(parts);
    assert data[..offset] + data[offset..end] == data[..end];
  }

  // ----- reassemble -----

  /** `read_part`: at most that many bytes of a part, or nothing when it cannot be read. */
  type ReadPart = (string, nat) -> Option<seq<byte>>

  function Answer(read: ReadPart, p: ChunkPart): seq<byte> {
    match read(p.name, p.size + 1) case Some(data) => data case None => []
  }

  /** What reading every part returns, joined. */
  function Joined(read: ReadPart, parts: seq<ChunkPart>): seq<byte> {
    if parts == [] then [] else Joined(read, parts[..|parts| - 1]) + Answer(read, parts[|parts| - 1])
  }

  predicate PartMatches(read: ReadPart, p: ChunkPart, sha: Digest) {
    read(p.name, p.size + 1).Some? && |Answer(read, p)| == p.size && sha(Answer(read, p)) == p.sha256
  }

  predicate Reassembles(m: ChunkManifest, read: ReadPart, sha: Digest) {
    && (forall i :: 0 <= i < |m.parts| ==> PartMatches(read, m.parts[i], sha))
    && |Joined(read, m.parts)| == m.size && sha(Joined(read, m.parts)) == m.sha256
  }

  /** `reassemble`; None is ChunkedFileError. `asked` counts the bytes requested. */
  method Reassemble(m: ChunkManifest, read: ReadPart, sha: Digest) returns (whole: Option<seq<byte>>, asked: nat)
    ensures whole == if Reassembles(m, read, sha) then Some(Joined(read, m.parts)) else None
    ensures asked <= TotalSize(m.parts) + |m.parts|
  {
    hide Joined, TotalSize;
    var chunks: seq<byte> := [];
    asked := 0;
    NothingJoined(read, m.parts);
    for i := 0 to |m.parts|
      invariant chunks == Joined(read, m.parts[..i]) && asked == TotalSize(m.parts[..i]) + i
      invariant forall j :: 0 <= j < i ==> PartMatches(read, m.parts[j], sha)
    {
      var part := m.parts[i];
      JoinedNext(read, m.parts, i);
      var data := read(part.name, part.size + 1);
      asked := asked + part.size + 1;
      if data.None? || |data.value| != part.size || sha(data.value) != part.sha256 {
        assert !PartMatches(read, part, sha);
        return None, asked;
      }
      chunks := chunks + data.value;
    }
    assert m.parts[..|m.parts|] == m.parts;
    if |chunks| != m.size || sha(chunks) != m.sha256 {
      return None, asked;
    }
    return Some(chunks), asked;
  }

  lemma NothingJoined(read: ReadPart, parts: seq<ChunkPart>)
    ensures Joined(read, parts[..0]) == [] && TotalSize(parts[..0]) == 0
  {
  }

  lemma JoinedNext(read: ReadPart, parts: seq<ChunkPart>, i: nat)
    requires i < |parts|
    ensures Joined(read, parts[..i + 1]) == Joined(read, parts[..i]) + Answer(read, parts[i])
    ensures TotalSize(parts[..i + 1]) == TotalSize(parts[..i]) + parts[i].size <= TotalSize(parts)
  {
    SizesGrow(parts, i + 1);
    assert parts[..i + 1][..i] == parts[..i];
  }

  lemma {:induction false} SizesGrow(parts: seq<ChunkPart>, n: nat)
    requires n <= |parts|
    ensures TotalSize(parts[..n]) <= TotalSize(parts)
    decreases |parts|
  {
    if n < |parts| {
      SizesGrow(parts[..|parts| - 1], n);
      assert parts[..|parts| - 1][..n] == parts[..n];
    } else {
      assert parts[..n] == parts;
    }
  }

  // ----- what split wrote, read back -----

  /** A suffix that starts with its only dot and has no separators. */
  predicate Suffix(s: string) {
    s != "" && s[0] == '.' && NoSeparators(s) && forall i :: 0 < i < |s| ==> s[i] != '.'
  }

  lemma PartSuffix(digits: string)
    requires AllDigits(digits)
    ensures Suffix(".part-" + digits)
  {
    var s := ".part-" + digits;
    forall i | 0 <= i < |s|
      ensures s[i] != '/' && s[i] != '\\' && s[i] != '\0' && (i > 0 ==> s[i] != '.')
    {
      if i >= 6 {
        assert s[i] == digits[i - 6];
      }
    }
  }

  lemma SuffixedIsBasename(name: string, suffix: string)
    requires Basename(name) && Suffix(suffix)
    ensures Basename(name + suffix) <==> name[|name| - 1] != '.'
  {
    var s := name + suffix;
    assert NoSeparators(s);
    if name[|name| - 1] == '.' {
      assert s[|name| - 1] == '.' && s[|name| - 1 + 1] == '.';
    } else {
      forall i | 0 <= i < |s| - 1
        ensures !(s[i] == '.' && s[i + 1] == '.')
      {
        if i < |name| - 1 {
          assert s[i] == name[i] && s[i + 1] == name[i + 1];
        }
      }
    }
  }

  lemma PartNameIsBasename(name: string, index: nat)
    requires Basename(name) && index < 10000
    ensures Basename(PartName(name, index)) <==> name[|name| - 1] != '.'
  {
    hide Basename, Suffix, Padded;
    PartSuffix(Padded(index, 4));
    SuffixedIsBasename(name, ".part-" + Padded(index, 4));
    assert PartName(name, index) == name + (".part-" + Padded(index, 4));
  }

  lemma {:induction false} EntriesTotal(parts: seq<Part>, sha: Digest)
    ensures TotalSize(Entries(parts, sha)) == |Flatten(Datas(parts))|
    decreases |parts|
  {
    if parts != [] {
      var most := parts[..|parts| - 1];
      EntriesTotal(most, sha);
      assert Entries(parts, sha)[..|most|] == Entries(most, sha);
      assert Datas(parts)[..|most|] == Datas(most);
    }
  }

  lemma SlicesBound(parts: seq<Part>, name: string, data: seq<byte>, partSize: int)
    requires partSize > 0 && SlicesOf(parts, name, data, partSize)
    ensures if parts == [] then data == [] else (|parts| - 1) * partSize < |data| <= |parts| * partSize
  {
    if parts != [] {
      LastData(parts, name, data, partSize);
      hide SlicesOf;
      assert |parts| * partSize == (|parts| - 1) * partSize + partSize;
    }
  }

  lemma {:induction false} FullSlices(parts: seq<Part>, partSize: int)
    requires Full(parts, partSize)
    ensures |Flatten(Datas(parts))| == |parts| * partSize
    decreases |parts|
  {
    if parts != [] {
      var most := parts[..|parts| - 1];
      FullSlices(most, partSize);
      assert Datas(parts)[..|most|] == Datas(most);
    }
  }

  lemma Multiplied(a: int, b: int, d: nat)
    ensures a <= b ==> a * d <= b * d
  {
  }

  lemma QuotientIs(n: nat, d: nat, q: nat)
    requires q * d <= n < (q + 1) * d
    ensures n / d == q
  {
    var r := n / d;
    assert r * d <= n < (r + 1) * d;
    Multiplied(r + 1, q, d);
    Multiplied(q + 1, r, d);
  }

  lemma PartCount(parts: seq<Part>, name: string, data: seq<byte>, partSize: int)
    requires partSize > 0 && SlicesOf(parts, name, data, partSize)
    ensures |parts| == SliceCount(|data|, partSize)
  {
    SlicesBound(parts, name, data, partSize);
    hide SlicesOf;
    var k := |parts|;
    assert (k - 1) * partSize == k * partSize - partSize && (k + 1) * partSize == k * partSize + partSize;
    if k == 0 {
      assert k * partSize == 0;
    }
    QuotientIs(|data| + partSize - 1, partSize, k);
  }

  /** The manifest `split` writes for the data and its slices. */
  function Written(name: string, data: seq<byte>, parts: seq<Part>, sha: Digest): ChunkManifest {
    ChunkManifest(name, |data|, sha(data), Entries(parts, sha))
  }

  lemma WrittenPart(name: string, parts: seq<Part>, sha: Digest, i: nat, data: seq<byte>, partSize: int)
    requires i < |parts| && i < MAX_PARTS && IsDigest(sha) && SlicesOf(parts, name, data, partSize) && Basename(name)
    ensures IsPart(Encoded(Entries(parts, sha)[i]), Entries(parts, sha)[i], name, i + 1) <==> name[|name| - 1] != '.'
  {
    PartNameIsBasename(name, i + 1);
  }

  /** The document `split` writes describes its manifest unless the name ends in a dot and there is a part: the part's
      name then has two dots in a row. */
  lemma WrittenIsDescribedIff(name: string, data: seq<byte>, partSize: int, parts: seq<Part>, sha: Digest)
    requires Splittable(name, |data|, partSize) && SlicesOf(parts, name, data, partSize) && IsDigest(sha)
    ensures var m := Written(name, data, parts, sha);
            if data == [] || name[|name| - 1] != '.' then Describes(Document(m), m)
            else forall other :: !Describes(Document(m), other)
  {
    var m := Written(name, data, parts, sha);
    PartCount(parts, name, data, partSize);
    EntriesTotal(parts, sha);
    hide SliceCount, SlicesOf, PartName, Entries, TotalSize, IsPart, HasDots, Document, Describes;
    forall i | 0 <= i < |parts|
      ensures IsPart(Encoded(m.parts[i]), m.parts[i], name, i + 1) <==> name[|name| - 1] != '.'
    {
      WrittenPart(name, parts, sha, i, data, partSize);
    }
    if data == [] {
      NoParts(parts, name, data, partSize);
      DocumentDescribes(m);
    } else if name[|name| - 1] == '.' {
      SomeParts(parts, name, data, partSize);
      forall other | Describes(Document(m), other)
        ensures false
      {
        OtherHasPart(m, other);
        NoSuchPart(m.parts[0], other.parts[0], name);
      }
    } else {
      DocumentDescribes(m);
    }
  }

  lemma DocumentDescribes(m: ChunkManifest)
    requires Basename(m.name) && HexDigest(m.sha256) && m.size <= MAX_TOTAL_BYTES && |m.parts| <= MAX_PARTS
    requires TotalSize(m.parts) == m.size
    requires forall i :: 0 <= i < |m.parts| ==> IsPart(Encoded(m.parts[i]), m.parts[i], m.name, i + 1)
    ensures Describes(Document(m), m)
  {
    hide Basename, HexDigest, IsPart, Encoded, TotalSize;
    var d := Document(m).fields;
    assert Field(d, "format") == JString(FORMAT) && Field(d, "name") == JString(m.name);
    assert Field(d, "size") == JInt(m.size) && Field(d, "sha256") == JString(m.sha256);
    assert Field(d, "parts") == JList(EncodedParts(m.parts));
  }

  lemma OtherHasPart(m: ChunkManifest, other: ChunkManifest)
    requires Describes(Document(m), other) && m.parts != []
    ensures other.parts != [] && IsPart(Encoded(m.parts[0]), other.parts[0], m.name, 1)
  {
    hide Basename, HexDigest, IsPart, Encoded, TotalSize;
    var d := Document(m).fields;
    assert Field(d, "name") == JString(m.name) && Field(d, "parts") == JList(EncodedParts(m.parts));
    assert IsPart(EncodedParts(m.parts)[0], other.parts[0], other.name, 0 + 1);
  }

  lemma NoParts(parts: seq<Part>, name: string, data: seq<byte>, partSize: int)
    requires partSize > 0 && SlicesOf(parts, name, data, partSize) && data == []
    ensures parts == []
  {
    PartCount(parts, name, data, partSize);
    QuotientIs(partSize - 1, partSize, 0);
  }

  lemma SomeParts(parts: seq<Part>, name: string, data: seq<byte>, partSize: int)
    requires SlicesOf(parts, name, data, partSize) && data != []
    ensures parts != []
  {
  }

  lemma NoSuchPart(p: ChunkPart, other: ChunkPart, name: string)
    requires Basename(name) && name[|name| - 1] == '.'
    ensures !IsPart(Encoded(p), other, name, 1)
  {
    PartNameIsBasename(name, 1);
  }

  /** The document `split` writes describes its own manifest and no other, unless the name ends in a dot and there is a
      part: then it describes none. */
  lemma ManifestReadBack(name: string, data: seq<byte>, partSize: int, parts: seq<Part>, sha: Digest, m: ChunkManifest)
    requires Splittable(name, |data|, partSize) && SlicesOf(parts, name, data, partSize) && IsDigest(sha)
    ensures Describes(Document(Written(name, data, parts, sha)), m)
            <==> m == Written(name, data, parts, sha) && (data == [] || name[|name| - 1] != '.')
  {
    var w := Written(name, data, parts, sha);
    WrittenIsDescribedIff(name, data, partSize, parts, sha);
    if Describes(Document(w), m) && (data == [] || name[|name| - 1] != '.') {
      SameManifest(Document(w), w, m);
    }
  }

  lemma SameManifest(doc: Json, m: ChunkManifest, n: ChunkManifest)
    requires Describes(doc, m) && Describes(doc, n)
    ensures m == n
  {
    assert m.name == n.name && m.size == n.size && m.sha256 == n.sha256;
    DescribedOnce(doc, m, n.parts);
  }

  lemma {:induction false} JoinedIsFlattened(parts: seq<Part>, sha: Digest, read: ReadPart)
    requires forall i :: 0 <= i < |parts| ==> Answer(read, Entries(parts, sha)[i]) == parts[i].data
    ensures Joined(read, Entries(parts, sha)) == Flatten(Datas(parts))
    decreases |parts|
  {
    if parts != [] {
      var most := parts[..|parts| - 1];
      assert Entries(parts, sha)[..|most|] == Entries(most, sha);
      assert Datas(parts)[..|most|] == Datas(most);
      forall i | 0 <= i < |most|
        ensures Answer(read, Entries(most, sha)[i]) == most[i].data
      {
        assert Entries(parts, sha)[i] == Entries(most, sha)[i];
      }
      JoinedIsFlattened(most, sha, read);
    }
  }

  /** A part's name is the file's, `.part-` and the index with at least four digits; so parts never overwrite each other. */
  lemma PartNameMeans(name: string, index: nat) returns (digits: string)
    ensures PartName(name, index) == name + ".part-" + digits
    ensures AllDigits(digits) && Value(digits) == index && |digits| >= 4 && (|digits| > 4 ==> digits[0] != '0')
  {
    digits := if index < 10000 then Padded(index, 4) else Decimal(index);
    DecimalInverts(index);
    assert Power10(4) == 10000;
    if index < 10000 {
      PaddedInverts(index, 4);
    } else {
      ValueBelow(digits);
      PowerGrows(if |digits| < 4 then |digits| else 4, 4);
    }
  }

  lemma PartNamesDiffer(name: string, i: nat, j: nat)
    requires i != j
    ensures PartName(name, i) != PartName(name, j)
  {
    var s := PartNameMeans(name, i);
    var t := PartNameMeans(name, j);
    var n := |name + ".part-"|;
    assert PartName(name, i)[n..] == s && PartName(name, j)[n..] == t;
  }

  /** What `split` accepts: a plain file name, and data within its limits. */
  lemma SplittableMeans(name: string, n: nat, partSize: int)
    ensures Splittable(name, n, partSize) <==>
            && name != "" && (forall i :: 0 <= i < |name| ==> name[i] != '/' && name[i] != '\\' && name[i] != '\0')
            && (forall i :: 0 <= i < |name| - 1 ==> name[i] != '.' || name[i + 1] != '.')
            && 0 < partSize && n <= 134217728 && n <= 32 * partSize
  {
    if partSize > 0 {
      var q := SliceCount(n, partSize);
      assert q * partSize <= n + partSize - 1 < (q + 1) * partSize;
      Multiplied(q, 32, partSize);
      if q > 32 {
        Multiplied(33, q, partSize);
      }
    }
  }

  /** No accepted manifest leads out of its directory, whatever the document: its own and its parts' names are plain file
      names, its digests 64 hexadecimal digits, its parts not empty and their sizes the whole. */
  lemma DescribedIsPlain(doc: Json, m: ChunkManifest, p: ChunkPart)
    requires Describes(doc, m) && (p in m.parts || p == ChunkPart(m.name, 1, m.sha256))
    ensures p.name != "" && forall i :: 0 <= i < |p.name| ==> p.name[i] != '/' && p.name[i] != '\\' && p.name[i] != '\0'
    ensures forall i :: 0 <= i < |p.name| - 1 ==> p.name[i] != '.' || p.name[i + 1] != '.'
    ensures |p.sha256| >= 64 && (forall i :: 0 <= i < 64 ==> '0' <= p.sha256[i] <= '9' || 'a' <= p.sha256[i] <= 'f')
    ensures |p.sha256| == 64 || p.sha256[64..] == "\n"
    ensures p.size > 0 && m.size == TotalSize(m.parts) <= 134217728 && |m.parts| <= 32
  {
    if p in m.parts {
      var i :| 0 <= i < |m.parts| && m.parts[i] == p;
      assert IsPart(Field(doc.fields, "parts").items[i], m.parts[i], m.name, i + 1);
    }
  }

  /** Reading its parts back reassembles the data. */
  lemma PartsReassemble(name: string, data: seq<byte>, partSize: int, parts: seq<Part>, sha: Digest, read: ReadPart)
    requires SlicesOf(parts, name, data, partSize)
    requires forall i :: 0 <= i < |parts| ==> read(parts[i].name, |parts[i].data| + 1) == Some(parts[i].data)
    ensures Reassembles(Written(name, data, parts, sha), read, sha)
    ensures Joined(read, Entries(parts, sha)) == data
  {
    hide Joined, Flatten, Datas;
    forall i | 0 <= i < |parts|
      ensures PartMatches(read, Entries(parts, sha)[i], sha) && Answer(read, Entries(parts, sha)[i]) == parts[i].data
    {
    }
    JoinedIsFlattened(parts, sha, read);
  }

  /** Whatever `read_part` answers, a file that reassembles is the data, unless some part's answer is a second preimage
      of the digest of that slice, of the same length. */
  lemma ReassembledIsTheData(name: string, data: seq<byte>, partSize: int, parts: seq<Part>, sha: Digest, read: ReadPart)
    requires SlicesOf(parts, name, data, partSize) && Reassembles(Written(name, data, parts, sha), read, sha)
    ensures || Joined(read, Entries(parts, sha)) == data
            || exists i :: 0 <= i < |parts| && SecondPreimage(Answer(read, Entries(parts, sha)[i]), parts[i].data, sha)
  {
    hide Joined, Flatten, Datas;
    if forall i :: 0 <= i < |parts| ==> Answer(read, Entries(parts, sha)[i]) == parts[i].data {
      JoinedIsFlattened(parts, sha, read);
    } else {
      var i :| 0 <= i < |parts| && Answer(read, Entries(parts, sha)[i]) != parts[i].data;
      assert PartMatches(read, Entries(parts, sha)[i], sha);
    }
  }

  predicate SecondPreimage(other: seq<byte>, data: seq<byte>, sha: Digest) {
    other != data && |other| == |data| && sha(other) == sha(data)
  }

  // ----- names short enough for the manifest limit -----

  lemma {:induction false} PlainLength(name: string, suffix: string)
    requires forall i :: 0 <= i < |suffix| ==> suffix[i] == '.' || suffix[i] == '-' || IsDigit(suffix[i]) || 'a' <= suffix[i] <= 'z'
    ensures EscapedLength(name + suffix) == EscapedLength(name) + |suffix|
    decreases |suffix|
  {
    if suffix == "" {
      assert name + suffix == name;
    } else {
      var most := suffix[..|suffix| - 1];
      PlainLength(name, most);
      assert (name + suffix)[..|name + suffix| - 1] == name + most;
    }
  }

  lemma PartNameLength(name: string, index: nat)
    requires index < 10000
    ensures EscapedLength(PartName(name, index)) == EscapedLength(name) + 10
  {
    var digits := Padded(index, 4);
    var suffix := ".part-" + digits;
    forall i | 0 <= i < |suffix|
      ensures suffix[i] == '.' || suffix[i] == '-' || IsDigit(suffix[i]) || 'a' <= suffix[i] <= 'z'
    {
      if i >= 6 {
        assert suffix[i] == digits[i - 6];
      }
    }
    hide Padded, EscapedLength;
    PlainLength(name, suffix);
    assert PartName(name, index) == name + suffix;
  }

  lemma SizeLength(n: nat)
    requires n <= MAX_TOTAL_BYTES
    ensures |Decimal(n)| <= 9
  {
    DecimalLength(n, 9);
  }

  lemma {:induction false} PartsLengthBound(parts: seq<ChunkPart>, most: nat)
    requires forall i :: 0 <= i < |parts| ==> PartLength(parts[i]) <= most
    ensures PartsLength(parts) <= |parts| * most
    decreases |parts|
  {
    hide PartLength;
    if parts != [] {
      PartsLengthBound(parts[..|parts| - 1], most);
      assert |parts| * most == (|parts| - 1) * most + most;
    }
  }

  lemma PartLengthBound(entries: seq<ChunkPart>, parts: seq<Part>, name: string, data: seq<byte>, partSize: int, sha: Digest, i: nat)
    requires SlicesOf(parts, name, data, partSize) && entries == Entries(parts, sha) && i < |entries| && i < MAX_PARTS
    requires TotalSize(entries) <= MAX_TOTAL_BYTES
    ensures PartLength(entries[i]) <= 148 + EscapedLength(name)
  {
    hide EscapedLength, Decimal, PartName, TotalSize, Flatten;
    PartIsSmall(entries, i);
    PartNameLength(name, i + 1);
    SizeLength(entries[i].size);
  }

  /** The manifest of a splittable file is within the size limit when its name takes at most 31,000 bytes in JSON. */
  lemma ShortNamesFit(name: string, data: seq<byte>, partSize: int, parts: seq<Part>, sha: Digest)
    requires Splittable(name, |data|, partSize) && SlicesOf(parts, name, data, partSize) && EscapedLength(name) <= 31000
    ensures ManifestLength(Written(name, data, parts, sha)) <= MAX_MANIFEST_BYTES
  {
    PartCount(parts, name, data, partSize);
    EntriesTotal(parts, sha);
    var entries, most := Entries(parts, sha), 148 + EscapedLength(name);
    hide EscapedLength, Decimal, PartLength, TotalSize, PartsLength, Flatten, SliceCount, Entries, SlicesOf;
    forall i | 0 <= i < |entries|
      ensures PartLength(entries[i]) <= most
    {
      PartLengthBound(entries, parts, name, data, partSize, sha, i);
    }
    PartsLengthBound(entries, most);
    SizeLength(|data|);
    Multiplied(|entries|, MAX_PARTS, most);
  }

  lemma PartIsSmall(parts: seq<ChunkPart>, i: nat)
    requires i < |parts|
    ensures parts[i].size <= TotalSize(parts)
  {
    SizesGrow(parts, i + 1);
  }

  // ----- the manifest's text -----

  function HexDigitOf(n: nat): char
    requires n < 16
  {
    "0123456789abcdef"[n]
  }

  function UnicodeEscape(n: nat): (s: string)
    requires n < 0x10000
    ensures |s| == 6
  {
    "\\u" + [HexDigitOf(n / 0x1000), HexDigitOf(n / 0x100 % 16), HexDigitOf(n / 0x10 % 16), HexDigitOf(n % 16)]
  }

  /** A character of a string, as `json.dumps` writes it. */
  function Escaped(c: char): string {
    var n := c as int;
    if c == '"' then "\\\"" else if c == '\\' then "\\\\" else if c == '\n' then "\\n" else if c == '\r' then "\\r"
    else if c == '\t' then "\\t" else if n == 8 then "\\b" else if n == 12 then "\\f"
    else if ' ' <= c <= '~' then [c]
    else if n < 0x10000 then UnicodeEscape(n)
    else UnicodeEscape(0xD800 + (n - 0x10000) / 0x400) + UnicodeEscape(0xDC00 + (n - 0x10000) % 0x400)
  }

  function EscapedText(s: string): string {
    if s == "" then "" else EscapedText(s[..|s| - 1]) + Escaped(s[|s| - 1])
  }

  function Quoted(s: string): string {
    "\"" + EscapedText(s) + "\""
  }

  function PartText(p: ChunkPart): string {
    "    {\n      \"name\": " + Quoted(p.name) + ",\n      \"size\": " + Decimal(p.size) + ",\n      \"sha256\": " + Quoted(p.sha256) + "\n    }"
  }

  function PartTexts(parts: seq<ChunkPart>): string {
    if parts == [] then ""
    else PartTexts(parts[..|parts| - 1]) + (if |parts| == 1 then "" else ",\n") + PartText(parts[|parts| - 1])
  }

  /** The manifest as `split` writes it: `json.dumps` with `indent=2`, and a newline. */
  function ManifestText(m: ChunkManifest): string {
    "{\n  \"format\": \"chunked-file/v1\",\n  \"name\": " + Quoted(m.name) + ",\n  \"size\": " + Decimal(m.size)
    + ",\n  \"sha256\": " + Quoted(m.sha256) + ",\n  \"parts\": "
    + (if m.parts == [] then "[]" else "[\n" + PartTexts(m.parts) + "\n  ]") + "\n}\n"
  }

  lemma {:induction false} EscapedTextLength(s: string)
    ensures |EscapedText(s)| == EscapedLength(s)
  {
    if s != "" {
      EscapedTextLength(s[..|s| - 1]);
    }
  }

  lemma {:induction false} HexLength(s: string)
    requires forall i :: 0 <= i < |s| ==> IsHexDigit(s[i])
    ensures EscapedLength(s) == |s|
  {
    if s != "" {
      HexLength(s[..|s| - 1]);
    }
  }

  lemma PartTextLength(p: ChunkPart)
    requires |p.sha256| == 64 && HexDigest(p.sha256)
    ensures |PartText(p)| + 1 == PartLength(p)
  {
    EscapedTextLength(p.name);
    EscapedTextLength(p.sha256);
    HexLength(p.sha256);
  }

  lemma {:induction false} PartTextsLength(parts: seq<ChunkPart>)
    requires forall i :: 0 <= i < |parts| ==> |parts[i].sha256| == 64 && HexDigest(parts[i].sha256)
    ensures parts != [] ==> |PartTexts(parts)| == PartsLength(parts) + |parts| - 2
    decreases |parts|
  {
    if parts != [] {
      hide PartText, PartLength;
      PartTextsLength(parts[..|parts| - 1]);
      PartTextLength(parts[|parts| - 1]);
    }
  }

  /** `ManifestLength` is the length of that text. */
  lemma ManifestTextLength(m: ChunkManifest)
    requires |m.sha256| == 64 && HexDigest(m.sha256)
    requires forall i :: 0 <= i < |m.parts| ==> |m.parts[i].sha256| == 64 && HexDigest(m.parts[i].sha256)
    ensures |ManifestText(m)| == ManifestLength(m)
  {
    EscapedTextLength(m.name);
    EscapedTextLength(m.sha256);
    HexLength(m.sha256);
    PartTextsLength(m.parts);
    hide EscapedText, EscapedLength, PartTexts, PartsLength, Decimal;
  }

  // ----- when what split wrote is read back -----

  /** The size of the last slice. */
  function LastSlice(n: nat, partSize: int): nat
    requires n > 0 && partSize > 0
  {
    (n - 1) % partSize + 1
  }

  /** The bytes of the manifest `split` writes, from its arguments alone. */
  function WrittenLength(name: string, n: nat, partSize: int): int
    requires partSize > 0
  {
    var count := SliceCount(n, partSize);
    151 + EscapedLength(name) + |Decimal(n)|
    + if n == 0 || count == 0 then 4
      else count * (139 + EscapedLength(name)) + (count - 1) * |Decimal(partSize)| + |Decimal(LastSlice(n, partSize))| + count + 6
  }

  /** What a caller can check before the call: the manifest will be within its limit, and no part name will hold two dots
      in a row. */
  predicate ReadableBack(name: string, n: nat, partSize: int)
    requires partSize > 0
  {
    WrittenLength(name, n, partSize) <= MAX_MANIFEST_BYTES && (n == 0 || name == "" || name[|name| - 1] != '.')
  }

  lemma {:induction false} EqualPartsLength(entries: seq<ChunkPart>, each: nat)
    requires forall i :: 0 <= i < |entries| ==> PartLength(entries[i]) == each
    ensures PartsLength(entries) == |entries| * each
    decreases |entries|
  {
    hide PartLength;
    if entries != [] {
      EqualPartsLength(entries[..|entries| - 1], each);
      assert |entries| * each == (|entries| - 1) * each + each;
    }
  }

  lemma RemainderIs(n: nat, d: nat, q: nat, last: nat)
    requires n == q * d + last && 0 < last <= d
    ensures (n - 1) % d + 1 == last
  {
    assert (q + 1) * d == q * d + d;
    QuotientIs(n - 1, d, q);
    assert (n - 1) == ((n - 1) / d) * d + (n - 1) % d;
  }

  lemma LastData(parts: seq<Part>, name: string, data: seq<byte>, partSize: int)
    requires partSize > 0 && SlicesOf(parts, name, data, partSize) && parts != []
    ensures |data| == (|parts| - 1) * partSize + |parts[|parts| - 1].data| && 0 < |parts[|parts| - 1].data| <= partSize
  {
    var most := parts[..|parts| - 1];
    assert Datas(parts)[..|most|] == Datas(most);
    FullSlices(most, partSize);
  }

  lemma LastSliceIs(parts: seq<Part>, name: string, data: seq<byte>, partSize: int)
    requires partSize > 0 && SlicesOf(parts, name, data, partSize) && parts != []
    ensures |data| > 0 && |parts[|parts| - 1].data| == LastSlice(|data|, partSize)
  {
    hide SlicesOf;
    LastData(parts, name, data, partSize);
    Multiplied(0, |parts| - 1, partSize);
    assert 0 * partSize == 0;
    RemainderIs(|data|, partSize, |parts| - 1, |parts[|parts| - 1].data|);
  }

  lemma EntriesOfSlices(name: string, data: seq<byte>, partSize: int, parts: seq<Part>, sha: Digest, i: nat)
    requires partSize > 0 && SlicesOf(parts, name, data, partSize) && i < |parts|
    ensures var e := Entries(parts, sha)[i];
            e.name == PartName(name, i + 1) && e.size == if i < |parts| - 1 then partSize else LastSlice(|data|, partSize)
  {
    LastSliceIs(parts, name, data, partSize);
  }

  lemma NamedPartLength(p: ChunkPart, name: string, index: nat)
    requires index < 10000 && p.name == PartName(name, index)
    ensures PartLength(p) == 139 + EscapedLength(name) + |Decimal(p.size)|
  {
    PartNameLength(name, index);
  }

  lemma LengthFrom(entries: seq<ChunkPart>, name: string, partSize: nat, last: nat)
    requires 0 < |entries| <= MAX_PARTS
    requires forall i :: 0 <= i < |entries| ==> entries[i].name == PartName(name, i + 1)
    requires forall i :: 0 <= i < |entries| - 1 ==> entries[i].size == partSize
    requires entries[|entries| - 1].size == last
    ensures PartsLength(entries) ==
            |entries| * (139 + EscapedLength(name)) + (|entries| - 1) * |Decimal(partSize)| + |Decimal(last)|
  {
    hide EscapedLength, PartName, Decimal, PartLength;
    var k, e, d := |entries|, 139 + EscapedLength(name), |Decimal(partSize)|;
    var most := entries[..k - 1];
    assert PartsLength(entries) == PartsLength(most) + PartLength(entries[k - 1]);
    hide PartsLength;
    forall i | 0 <= i < |most|
      ensures PartLength(most[i]) == e + d
    {
      NamedPartLength(entries[i], name, i + 1);
    }
    EqualPartsLength(most, e + d);
    NamedPartLength(entries[k - 1], name, k);
    Distributed(k, e, d, e + d);
  }

  lemma Distributed(k: nat, e: nat, d: nat, each: nat)
    requires each == e + d
    ensures (k - 1) * each + e == k * e + (k - 1) * d
  {
  }

  lemma AllPartsLength(name: string, data: seq<byte>, partSize: int, parts: seq<Part>, sha: Digest)
    requires partSize > 0 && SlicesOf(parts, name, data, partSize) && 0 < |parts| <= MAX_PARTS && |data| > 0
    ensures PartsLength(Entries(parts, sha)) ==
            |parts| * (139 + EscapedLength(name)) + (|parts| - 1) * |Decimal(partSize)| + |Decimal(LastSlice(|data|, partSize))|
  {
    hide EscapedLength, PartName, Decimal, SlicesOf, Entries, LastSlice, PartsLength;
    forall i | 0 <= i < |parts|
      ensures Entries(parts, sha)[i].name == PartName(name, i + 1)
      ensures Entries(parts, sha)[i].size == if i < |parts| - 1 then partSize else LastSlice(|data|, partSize)
    {
      EntriesOfSlices(name, data, partSize, parts, sha, i);
    }
    LengthFrom(Entries(parts, sha), name, partSize, LastSlice(|data|, partSize));
  }

  lemma WrittenLengthIs(name: string, data: seq<byte>, partSize: int, parts: seq<Part>, sha: Digest)
    requires Splittable(name, |data|, partSize) && SlicesOf(parts, name, data, partSize)
    ensures ManifestLength(Written(name, data, parts, sha)) == WrittenLength(name, |data|, partSize)
  {
    PartCount(parts, name, data, partSize);
    hide EscapedLength, Decimal, PartsLength, SliceCount, LastSlice, Flatten, Datas;
    if data == [] {
      NoParts(parts, name, data, partSize);
    } else {
      SomeParts(parts, name, data, partSize);
      hide SlicesOf;
      AllPartsLength(name, data, partSize, parts, sha);
    }
  }

  /** The round trip: what `split` wrote is parsed as the manifest it wrote exactly when the manifest is within the size
      limit and the name does not end in a dot or there is no part; otherwise it is refused. */
  method SplitThenParse(name: string, data: seq<byte>, partSize: int, sha: Digest)
      returns (split: Option<Split>, back: Option<ChunkManifest>)
    requires IsDigest(sha)
    ensures split.Some? <==> Splittable(name, |data|, partSize)
    ensures split.Some? ==> back == if ReadableBack(name, |data|, partSize) then Some(split.value.manifest) else None
  {
    hide Describes, Document, SlicesOf, ManifestLength, WrittenLength, IsDigest, SliceCount, Basename, HasDots;
    split := SplitFile(name, data, partSize, sha);
    if split.None? {
      return split, None;
    }
    var s := split.value;
    back := ParseManifest(s.file);
    WrittenLengthIs(name, data, partSize, s.parts, sha);
    assert name != "" by {
      NameIsThere(name, |data|, partSize);
    }
    ManifestReadBack(name, data, partSize, s.parts, sha, s.manifest);
    if back.Some? {
      ManifestReadBack(name, data, partSize, s.parts, sha, back.value);
    }
  }

  lemma NameIsThere(name: string, n: nat, partSize: int)
    requires Splittable(name, n, partSize)
    ensures name != ""
  {
  }

  function Repeat(c: char, n: nat): (s: string)
    ensures |s| == n && forall i :: 0 <= i < n ==> s[i] == c
  {
    seq(n, i => c)
  }

  lemma {:induction false} RepeatedLength(n: nat)
    ensures EscapedLength(Repeat('a', n)) == n
  {
    if n > 0 {
      RepeatedLength(n - 1);
      assert Repeat('a', n)[..n - 1] == Repeat('a', n - 1);
    }
  }

  /** A file of 32 bytes with a name of 40,000 letters, split into parts of one byte, cannot be read back: `split` accepts
      it, and its manifest is over the size limit. */
  lemma LongNameIsRefused()
    ensures var name := Repeat('a', 40000); Splittable(name, 32, 1) && !ReadableBack(name, 32, 1) && name[|name| - 1] != '.'
  {
    var name := Repeat('a', 40000);
    assert Basename(name);
    RepeatedLength(40000);
    assert SliceCount(32, 1) == 32;
    hide EscapedLength, Decimal, Repeat;
    assert WrittenLength(name, 32, 1) >= 32 * (139 + EscapedLength(name));
  }

  /** A file whose name ends in a dot cannot be read back: `split` accepts it and `parse_manifest` rejects its manifest. */
  lemma TrailingDotIsRefused(sha: Digest)
    requires IsDigest(sha)
    ensures Splittable("v1.", 1, 1)
    ensures var parts := [Part(PartName("v1.", 1), [0])];
            SlicesOf(parts, "v1.", [0], 1) && forall m :: !Describes(Document(Written("v1.", [0], parts, sha)), m)
  {
    var parts := [Part(PartName("v1.", 1), [0])];
    OneSlice("v1.", 0);
    ShortName();
    hide SlicesOf, Splittable, Describes, Document, Written, PartName, IsDigest;
    forall m
      ensures !Describes(Document(Written("v1.", [0], parts, sha)), m)
    {
      ManifestReadBack("v1.", [0], 1, parts, sha, m);
    }
  }

  lemma ShortName()
    ensures Splittable("v1.", 1, 1)
  {
    assert !HasDots("v1.");
  }

  lemma OneSlice(name: string, b: byte)
    ensures SlicesOf([Part(PartName(name, 1), [b])], name, [b], 1)
  {
    var parts := [Part(PartName(name, 1), [b])];
    assert Datas(parts) == [[b]] && Datas(parts)[..0] == [];
  }
}
