/** The records the audit modules share: hashes, audit rows, published heads,
    anchors and archive manifests. */
module Records {

  datatype Option<+T> = None | Some(value: T)

  /** A value of the `row_hash` / `previous_hash` columns.

      SHA-256 (FIPS 180-4) is idealised as a free constructor: `Sha256(p, t)` is the digest of the
      previous hash `p` (COALESCEd to the empty text when null) followed by the text `t`, and differs
      from the digest of every other pair and from the 64 zeros. `Text(t)` is any other column value. */
  datatype Hash =
    | Genesis
    | Sha256(previous: Option<Hash>, payload: string)
    | Text(text: string)

  /** Python truthiness of a nullable hash column: neither NULL nor the empty text. */
  predicate Truthy(h: Option<Hash>) {
    h.Some? && h.value != Text("")
  }

  predicate IsHexDigit(c: char) {
    '0' <= c <= '9' || 'a' <= c <= 'f'
  }

  /** `^[0-9a-f]{64}$`: `$` also matches before one final newline. */
  predicate Hex64(h: Hash) {
    match h
    case Text(t) => (|t| == 64 || (|t| == 65 && t[64] == '\n')) && forall i :: 0 <= i < 64 ==> IsHexDigit(t[i])
    case _ => true
  }

  /** How many digests a hash was chained through. */
  function Depth(h: Option<Hash>): nat {
    if h.Some? && h.value.Sha256? then 1 + Depth(h.value.previous) else 0
  }

  /** The chain id is the first 16 hex characters of the chain's first row hash. Like the digest itself,
      the truncation is idealised as collision-free, so the id is represented by that hash. */
  type ChainId = Hash

  /** `archives/<chain>/<name>.manifest.json`, `archives/<chain>/<name>`, or any other object key. */
  datatype Key =
    | ManifestKey(chain: ChainId, name: string)
    | ArchiveKey(chain: ChainId, name: string)
    | OtherKey(text: string)

  /** The SHA-256 of an object's bytes, idealised like `Hash`. */
  datatype BodyHash = Of(body: Body) | OtherDigest(text: string)

  /** What an object under a manifest key holds. */
  datatype Body =
    | Document(manifest: Manifest)
    | NotAManifest(text: string)
    | Oversized(text: string)

  datatype Manifest = Manifest(
    archiveId: string,
    archiveKey: Key,
    archiveVersion: Option<string>,
    archiveSize: int,
    archiveSha: string,
    chainId: ChainId,
    finalRowId: int,
    finalRowHash: Hash,
    entries: int,
    source: Option<Anchor>)

  /** What an anchor says about the archive it continues. Fields missing from the row are `None`. */
  datatype Anchor = Anchor(
    archiveId: Option<string>,
    archiveSha: Option<string>,
    archivedHead: Option<Hash>,
    archivedEntries: Option<int>,
    manifestKey: Option<Key>,
    manifestSha: Option<BodyHash>)

  /** An `audit_log` row. `payload` is everything the row hash covers after the previous hash; `details`
      are the recorded values of an ANCHOR row; `serialized` is `hash_version = 2`. */
  datatype Row = Row(
    id: int,
    previous: Option<Hash>,
    rowHash: Option<Hash>,
    payload: string,
    serialized: bool,
    details: Option<Anchor>)

  /** A published chain head (an object body), the key of a head object, and an object that parsed as a head. */
  datatype Head = Head(chain: ChainId, id: int, rowHash: Hash, publishedAt: int, origin: string)
  datatype HeadKey = HeadKey(chain: ChainId, at: int, id: int)
  datatype Entry = Entry(key: HeadKey, head: Head)

  /** An object that is not a valid head; `under` is the chain whose prefix its key lies under, if any. */
  datatype BadObject = BadObject(under: Option<ChainId>, reason: string)
  datatype HeadScan = HeadScan(valid: seq<Entry>, invalid: seq<BadObject>)
}
