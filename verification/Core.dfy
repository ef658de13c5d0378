/** Object identities and their stable tags (crates/reflink-forest-core). */
module Core {
  import opened Bytes

  type u16 = x: int | 0 <= x <= U16_MAX
  type u32 = x: int | 0 <= x <= U32_MAX
  type u64 = x: int | 0 <= x <= U64_MAX

  datatype ObjectKind = Commit | Tree | Blob | Tag

  function KindTag(kind: ObjectKind): byte {
    match kind
    case Commit => 1
    case Tree => 2
    case Blob => 3
    case Tag => 4
  }

  function KindFromTag(tag: byte): Option<ObjectKind> {
    match tag
    case 1 => Some(Commit)
    case 2 => Some(Tree)
    case 3 => Some(Blob)
    case 4 => Some(Tag)
    case _ => None
  }

  datatype HashAlgorithm = Sha1 | Sha256

  function AlgorithmTag(algorithm: HashAlgorithm): byte {
    match algorithm
    case Sha1 => 1
    case Sha256 => 2
  }

  function AlgorithmFromTag(tag: byte): Option<HashAlgorithm> {
    match tag
    case 1 => Some(Sha1)
    case 2 => Some(Sha256)
    case _ => None
  }

  function OidLen(algorithm: HashAlgorithm): byte {
    match algorithm
    case Sha1 => 20
    case Sha256 => 32
  }

  datatype RawOid = GitOid(algorithm: HashAlgorithm, bytes: seq<byte>)

  // A native Git object ID has exactly its algorithm's length.
  type Oid = o: RawOid | |o.bytes| == OidLen(o.algorithm) witness GitOid(Sha1, Zeros(20))

  type ContentId = s: seq<byte> | |s| == 32 witness Zeros(32)

  type Id16 = s: seq<byte> | |s| == 16 witness Zeros(16)
}
