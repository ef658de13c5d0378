/** Version-1 chunk headers and object records (crates/reflink-forest-format). */
module RecordFormat {
  import opened Bytes
  import opened Core
  import opened Crc32c

  const FORMAT_VERSION: u16 := 1
  const CHUNK_HEADER_LEN: nat := 64
  const RECORD_HEADER_LEN: nat := 128
  const RECORD_FOOTER_LEN: nat := 20
  const RECORD_ALIGNMENT: nat := 8
  const RECORD_CRC_OFFSET: nat := 94
  const CHUNK_CRC_OFFSET: nat := 36

  // "RFSCHNK\0", "ROBJ" and "RENDOBJ\0"
  const CHUNK_MAGIC: seq<byte> := [0x52, 0x46, 0x53, 0x43, 0x48, 0x4e, 0x4b, 0]
  const RECORD_MAGIC: seq<byte> := [0x52, 0x4f, 0x42, 0x4a]
  const RECORD_END_MAGIC: seq<byte> := [0x52, 0x45, 0x4e, 0x44, 0x4f, 0x42, 0x4a, 0]

  datatype Codec = Raw | Zstd

  function CodecTag(codec: Codec): byte {
    match codec
    case Raw => 0
    case Zstd => 1
  }

  function CodecFromTag(tag: byte): Option<Codec> {
    match tag
    case 0 => Some(Raw)
    case 1 => Some(Zstd)
    case _ => None
  }

  // The tags are part of the format: no release may renumber them.
  lemma StableTags()
    ensures KindTag(Commit) == 1 && KindTag(Tree) == 2 && KindTag(Blob) == 3 && KindTag(Tag) == 4
    ensures AlgorithmTag(Sha1) == 1 && AlgorithmTag(Sha256) == 2 && CodecTag(Raw) == 0 && CodecTag(Zstd) == 1
  {
  }

  datatype ObjectRecord = ObjectRecord(
    kind: ObjectKind,
    codec: Codec,
    flags: u16,
    rawLength: u64,
    contentId: ContentId,
    primaryOid: Oid,
    payload: seq<byte>)

  datatype RecordMetadata = RecordMetadata(
    kind: ObjectKind,
    codec: Codec,
    flags: u16,
    rawLength: u64,
    storedLength: u64,
    contentId: ContentId,
    primaryOid: Oid)

  datatype ChunkHeader = ChunkHeader(generation: u32, chunkId: u64, createdUnixSecs: u64, flags: u32)

  datatype FormatError =
    | Truncated
    | BadMagic
    | UnsupportedVersion(version: u16)
    | InvalidHeaderLength(expected: nat, actual: nat)
    | HeaderCrcMismatch
    | PayloadCrcMismatch
    | FooterMagicMismatch
    | InvalidObjectKind(tag: byte)
    | InvalidCodec(tag: byte)
    | InvalidHashAlgorithm(tag: byte)
    | InvalidOidLength
    | InvalidRecordLength
    | NonZeroReserved
    | NonZeroPadding
    | LengthOverflow

  // ---------- Reading integers ----------

  function ReadU16(bytes: seq<byte>, offset: nat): (v: u16)
    requires offset + 2 <= |bytes|
  {
    Pow256Widths();
    FromBigEndian(bytes[offset..offset + 2])
  }

  function ReadU32(bytes: seq<byte>, offset: nat): (v: u32)
    requires offset + 4 <= |bytes|
  {
    Pow256Widths();
    FromBigEndian(bytes[offset..offset + 4])
  }

  function ReadU64(bytes: seq<byte>, offset: nat): (v: u64)
    requires offset + 8 <= |bytes|
  {
    Pow256Widths();
    FromBigEndian(bytes[offset..offset + 8])
  }

  // A field holds a value exactly when its bytes are that value's encoding.
  lemma FieldHolds(field: seq<byte>, n: nat, width: nat)
    requires |field| == width && n < Pow256(width)
    ensures FromBigEndian(field) == n <==> field == BigEndian(n, width)
  {
    DecodeBigEndian(n, width);
    EncodeBigEndian(field);
  }

  // A checked addition of seven, then the low three bits masked off.
  function Align(value: nat): (r: Result<nat, FormatError>)
    ensures r.Ok? <==> value + 7 <= USIZE_MAX
    ensures r.Ok? ==> r.value % 8 == 0 && value <= r.value < value + 8
    ensures r.Err? ==> r.error == LengthOverflow
  {
    if value + (RECORD_ALIGNMENT - 1) > USIZE_MAX then Err(LengthOverflow)
    else Ok((value + (RECORD_ALIGNMENT - 1)) / RECORD_ALIGNMENT * RECORD_ALIGNMENT)
  }

  // ---------- Record layout ----------

  function Metadata(r: ObjectRecord): RecordMetadata
    requires |r.payload| <= U64_MAX
  {
    RecordMetadata(r.kind, r.codec, r.flags, r.rawLength, |r.payload|, r.contentId, r.primaryOid)
  }

  function OidFixed(oid: Oid): (s: seq<byte>)
    ensures |s| == 34
  {
    [AlgorithmTag(oid.algorithm), OidLen(oid.algorithm)] + oid.bytes + Zeros(32 - |oid.bytes|)
  }

  // The fixed record header with the given four bytes in its checksum field.
  function Header(m: RecordMetadata, crc: seq<byte>): (h: seq<byte>)
    requires |crc| == 4
    ensures |h| == RECORD_HEADER_LEN
  {
    (RECORD_MAGIC + BigEndian(FORMAT_VERSION, 2) + BigEndian(RECORD_HEADER_LEN, 2))
    + ([KindTag(m.kind), CodecTag(m.codec)] + BigEndian(m.flags, 2))
    + (BigEndian(m.rawLength, 8) + BigEndian(m.storedLength, 8))
    + m.contentId
    + OidFixed(m.primaryOid)
    + crc
    + Zeros(30)
  }

  function HeaderCrc(m: RecordMetadata): u32 { Crc(Header(m, Zeros(4))) }

  function EncodedHeader(m: RecordMetadata): (h: seq<byte>)
    ensures |h| == RECORD_HEADER_LEN
  {
    Header(m, BigEndian(HeaderCrc(m), 4))
  }

  function Footer(payload: seq<byte>, total: nat): (f: seq<byte>)
    ensures |f| == RECORD_FOOTER_LEN
  {
    BigEndian(Crc(payload), 4) + BigEndian(total, 8) + RECORD_END_MAGIC
  }

  function TotalLength(payload: seq<byte>): nat { RECORD_HEADER_LEN + |payload| + RECORD_FOOTER_LEN }

  // The bytes of a record whose padded length fits a `usize`.
  function Encoded(r: ObjectRecord): (s: seq<byte>)
    requires TotalLength(r.payload) + 7 <= USIZE_MAX
    ensures |s| == Align(TotalLength(r.payload)).value
  {
    var total := TotalLength(r.payload);
    EncodedHeader(Metadata(r)) + r.payload + Footer(r.payload, total) + Zeros(Align(total).value - total)
  }

  function Encode(r: ObjectRecord): Result<seq<byte>, FormatError> {
    if TotalLength(r.payload) + 7 > USIZE_MAX then Err(LengthOverflow) else Ok(Encoded(r))
  }

  // ---------- Decoding ----------

  function DecodeOidFixed(bytes: seq<byte>): Result<Oid, FormatError>
    requires |bytes| == 34
  {
    var algorithm := AlgorithmFromTag(bytes[0]);
    if algorithm.None? then Err(InvalidHashAlgorithm(bytes[0]))
    else if bytes[1] != OidLen(algorithm.value) || !AllZero(bytes[2 + bytes[1]..]) then Err(InvalidOidLength)
    else Ok(GitOid(algorithm.value, bytes[2..2 + bytes[1]]))
  }

  function ZeroField(bytes: seq<byte>, offset: nat): (z: seq<byte>)
    requires offset + 4 <= |bytes|
    ensures |z| == |bytes|
  {
    bytes[..offset] + Zeros(4) + bytes[offset + 4..]
  }

  function DecodeMetadata(bytes: seq<byte>): Result<RecordMetadata, FormatError> {
    if |bytes| < RECORD_HEADER_LEN then Err(Truncated) else DecodeHeader(bytes[..RECORD_HEADER_LEN])
  }

  function DecodeHeader(h: seq<byte>): Result<RecordMetadata, FormatError>
    requires |h| == RECORD_HEADER_LEN
  {
    if h[..4] != RECORD_MAGIC then Err(BadMagic)
    else if ReadU16(h, 4) != FORMAT_VERSION then Err(UnsupportedVersion(ReadU16(h, 4)))
    else if ReadU16(h, 6) != RECORD_HEADER_LEN then Err(InvalidHeaderLength(RECORD_HEADER_LEN, ReadU16(h, 6)))
    else if ReadU32(h, RECORD_CRC_OFFSET) != Crc(ZeroField(h, RECORD_CRC_OFFSET)) then Err(HeaderCrcMismatch)
    else if !AllZero(h[98..]) then Err(NonZeroReserved)
    else if KindFromTag(h[8]).None? then Err(InvalidObjectKind(h[8]))
    else if CodecFromTag(h[9]).None? then Err(InvalidCodec(h[9]))
    else
      var oid := DecodeOidFixed(h[60..94]);
      if oid.Err? then Err(oid.error)
      else Ok(RecordMetadata(KindFromTag(h[8]).value, CodecFromTag(h[9]).value, ReadU16(h, 10), ReadU64(h, 12),
                             ReadU64(h, 20), h[28..60], oid.value))
  }

  function Decode(bytes: seq<byte>): Result<(ObjectRecord, nat), FormatError> {
    var metadata := DecodeMetadata(bytes);
    if metadata.Err? then Err(metadata.error) else
    var m := metadata.value;
    var total := RECORD_HEADER_LEN + m.storedLength + RECORD_FOOTER_LEN;
    var footer := RECORD_HEADER_LEN + m.storedLength;
    if total > USIZE_MAX then Err(LengthOverflow)
    else if |bytes| < total then Err(Truncated)
    else if ReadU64(bytes, footer + 4) != total then Err(InvalidRecordLength)
    else if bytes[footer + 12..total] != RECORD_END_MAGIC then Err(FooterMagicMismatch)
    else
      var payload := bytes[RECORD_HEADER_LEN..footer];
      if ReadU32(bytes, footer) != Crc(payload) then Err(PayloadCrcMismatch)
      else
        var consumed := Align(total);
        if consumed.Err? then Err(consumed.error)
        else if |bytes| < consumed.value then Err(Truncated)
        else if !AllZero(bytes[total..consumed.value]) then Err(NonZeroPadding)
        else Ok((ObjectRecord(m.kind, m.codec, m.flags, m.rawLength, m.contentId, m.primaryOid, payload), consumed.value))
  }

  function EncodedLenFromHeader(bytes: seq<byte>): Result<nat, FormatError> {
    var metadata := DecodeMetadata(bytes);
    if metadata.Err? then Err(metadata.error) else
    var total := RECORD_HEADER_LEN + metadata.value.storedLength + RECORD_FOOTER_LEN;
    if total > USIZE_MAX then Err(LengthOverflow) else Align(total)
  }

  function EncodedLenFromMetadata(m: RecordMetadata): Result<nat, FormatError> {
    var total := RECORD_HEADER_LEN + m.storedLength + RECORD_FOOTER_LEN;
    if total > U64_MAX then Err(LengthOverflow) else Align(total)
  }

  function ValidateFooter(bytes: seq<byte>, payloadCrc: u32, unpaddedLength: u64): Result<(), FormatError> {
    if |bytes| < RECORD_FOOTER_LEN then Err(Truncated)
    else if ReadU32(bytes, 0) != payloadCrc then Err(PayloadCrcMismatch)
    else if ReadU64(bytes, 4) != unpaddedLength then Err(InvalidRecordLength)
    else if bytes[12..20] != RECORD_END_MAGIC then Err(FooterMagicMismatch)
    else Ok(())
  }

  // Each refusal of a header says what is wrong with it.
  lemma HeaderErrorMeans(h: seq<byte>)
    requires |h| == RECORD_HEADER_LEN && DecodeHeader(h).Err?
    ensures match DecodeHeader(h).error
            case BadMagic => h[..4] != [0x52, 0x4f, 0x42, 0x4a]
            case UnsupportedVersion(version) => version == FromBigEndian(h[4..6]) != 1
            case InvalidHeaderLength(expected, actual) => expected == 128 && actual == FromBigEndian(h[6..8]) != 128
            case HeaderCrcMismatch => FromBigEndian(h[94..98]) != Crc(h[..94] + [0, 0, 0, 0] + h[98..])
            case NonZeroReserved => exists i :: 98 <= i < 128 && h[i] != 0
            case InvalidObjectKind(tag) => tag == h[8] && tag !in {1, 2, 3, 4}
            case InvalidCodec(tag) => tag == h[9] && tag !in {0, 1}
            case InvalidHashAlgorithm(tag) => tag == h[60] && tag !in {1, 2}
            case InvalidOidLength => h[61] != OidLen(AlgorithmFromTag(h[60]).value) || exists i :: 62 + h[61] <= i < 94 && h[i] != 0
            case _ => false
  {
    hide Crc;
    assert ZeroField(h, 94) == h[..94] + [0, 0, 0, 0] + h[98..];
  }

  // ... and so does each refusal of a record whose header is good.
  lemma RecordErrorMeans(bytes: seq<byte>)
    requires DecodeMetadata(bytes).Ok? && Decode(bytes).Err?
    ensures var footer := 128 + DecodeMetadata(bytes).value.storedLength;
            match Decode(bytes).error
            case LengthOverflow => footer + 20 + 7 > USIZE_MAX
            case Truncated => |bytes| < footer + 20 || |bytes| < Align(footer + 20).value
            case InvalidRecordLength => FromBigEndian(bytes[footer + 4..footer + 12]) != footer + 20
            case FooterMagicMismatch => bytes[footer + 12..footer + 20] != [0x52, 0x45, 0x4e, 0x44, 0x4f, 0x42, 0x4a, 0]
            case PayloadCrcMismatch => FromBigEndian(bytes[footer..footer + 4]) != Crc(bytes[128..footer])
            case NonZeroPadding => exists i :: footer + 20 <= i < Align(footer + 20).value && bytes[i] != 0
            case _ => false
  {
    hide Crc, DecodeHeader;
  }

  // ---------- Headers: decoding accepts exactly the encodings ----------

  lemma HeaderSlices(m: RecordMetadata, crc: seq<byte>)
    requires |crc| == 4
    ensures var h := Header(m, crc);
            && h[..4] == RECORD_MAGIC && h[4..6] == BigEndian(FORMAT_VERSION, 2)
            && h[6..8] == BigEndian(RECORD_HEADER_LEN, 2)
            && h[8] == KindTag(m.kind) && h[9] == CodecTag(m.codec) && h[10..12] == BigEndian(m.flags, 2)
            && h[12..20] == BigEndian(m.rawLength, 8) && h[20..28] == BigEndian(m.storedLength, 8)
            && h[28..60] == m.contentId && h[60..94] == OidFixed(m.primaryOid)
            && h[94..98] == crc && h[98..] == Zeros(30)
  {
    var a := RECORD_MAGIC + BigEndian(FORMAT_VERSION, 2) + BigEndian(RECORD_HEADER_LEN, 2);
    var b := [KindTag(m.kind), CodecTag(m.codec)] + BigEndian(m.flags, 2);
    var c := BigEndian(m.rawLength, 8) + BigEndian(m.storedLength, 8);
    var h := Header(m, crc);
    assert h[..8] == a && h[8..12] == b && h[12..28] == c;
    assert h[..4] == a[..4] && h[4..6] == a[4..6] && h[6..8] == a[6..8];
    assert h[8] == b[0] && h[9] == b[1] && h[10..12] == b[2..4];
    assert h[12..20] == c[..8] && h[20..28] == c[8..16];
  }

  lemma ZeroedHeader(m: RecordMetadata, crc: seq<byte>)
    requires |crc| == 4
    ensures ZeroField(Header(m, crc), RECORD_CRC_OFFSET) == Header(m, Zeros(4))
  {
  }

  lemma OidFixedRoundTrip(oid: Oid)
    ensures DecodeOidFixed(OidFixed(oid)) == Ok(oid)
  {
    var s := OidFixed(oid);
    assert s[2..2 + s[1]] == oid.bytes;
    assert s[2 + s[1]..] == Zeros(32 - |oid.bytes|);
  }

  lemma OidFixedCanonical(bytes: seq<byte>)
    requires |bytes| == 34 && DecodeOidFixed(bytes).Ok?
    ensures OidFixed(DecodeOidFixed(bytes).value) == bytes
  {
    var n := bytes[1];
    AllZeroIsZeros(bytes[2 + n..]);
    assert bytes == bytes[..2] + bytes[2..2 + n] + bytes[2 + n..];
  }

  lemma HeaderReads(m: RecordMetadata, crc: u32)
    ensures var h := Header(m, BigEndian(crc, 4));
            && ReadU16(h, 4) == FORMAT_VERSION && ReadU16(h, 6) == RECORD_HEADER_LEN
            && ReadU16(h, 10) == m.flags && ReadU64(h, 12) == m.rawLength && ReadU64(h, 20) == m.storedLength
            && ReadU32(h, RECORD_CRC_OFFSET) == crc
  {
    HeaderSlices(m, BigEndian(crc, 4));
    Pow256Widths();
    DecodeBigEndian(FORMAT_VERSION, 2);
    DecodeBigEndian(RECORD_HEADER_LEN, 2);
    DecodeBigEndian(m.flags, 2);
    DecodeBigEndian(m.rawLength, 8);
    DecodeBigEndian(m.storedLength, 8);
    DecodeBigEndian(crc, 4);
  }

  lemma HeaderRoundTrip(m: RecordMetadata)
    ensures DecodeHeader(EncodedHeader(m)) == Ok(m)
  {
    hide Crc;
    var crc := BigEndian(HeaderCrc(m), 4);
    HeaderReads(m, HeaderCrc(m));
    HeaderSlices(m, crc);
    ZeroedHeader(m, crc);
    OidFixedRoundTrip(m.primaryOid);
  }

  lemma HeaderFields(h: seq<byte>)
    requires |h| == RECORD_HEADER_LEN && DecodeHeader(h).Ok?
    ensures var m := DecodeHeader(h).value;
            && h[..4] == RECORD_MAGIC && h[4..6] == BigEndian(FORMAT_VERSION, 2)
            && h[6..8] == BigEndian(RECORD_HEADER_LEN, 2)
            && h[8] == KindTag(m.kind) && h[9] == CodecTag(m.codec) && h[10..12] == BigEndian(m.flags, 2)
            && h[12..20] == BigEndian(m.rawLength, 8) && h[20..28] == BigEndian(m.storedLength, 8)
            && h[28..60] == m.contentId && h[60..94] == OidFixed(m.primaryOid) && h[98..] == Zeros(30)
  {
    hide Crc;
    var m := DecodeHeader(h).value;
    Pow256Widths();
    FieldHolds(h[4..6], FORMAT_VERSION, 2);
    FieldHolds(h[6..8], RECORD_HEADER_LEN, 2);
    FieldHolds(h[10..12], m.flags, 2);
    FieldHolds(h[12..20], m.rawLength, 8);
    FieldHolds(h[20..28], m.storedLength, 8);
    OidFixedCanonical(h[60..94]);
    AllZeroIsZeros(h[98..]);
  }

  // A header with the fields of `m` is `m`'s header with whatever its checksum field holds.
  lemma HeaderAssembles(h: seq<byte>, m: RecordMetadata)
    requires |h| == RECORD_HEADER_LEN
    requires h[..4] == RECORD_MAGIC && h[4..6] == BigEndian(FORMAT_VERSION, 2)
    requires h[6..8] == BigEndian(RECORD_HEADER_LEN, 2)
    requires h[8] == KindTag(m.kind) && h[9] == CodecTag(m.codec) && h[10..12] == BigEndian(m.flags, 2)
    requires h[12..20] == BigEndian(m.rawLength, 8) && h[20..28] == BigEndian(m.storedLength, 8)
    requires h[28..60] == m.contentId && h[60..94] == OidFixed(m.primaryOid) && h[98..] == Zeros(30)
    ensures h == Header(m, h[94..98])
  {
    hide BigEndian, OidFixed, Zeros;
    assert h == (h[..4] + h[4..6] + h[6..8]) + ([h[8], h[9]] + h[10..12]) + (h[12..20] + h[20..28])
                + h[28..60] + h[60..94] + h[94..98] + h[98..];
  }

  lemma HeaderCanonical(h: seq<byte>)
    requires |h| == RECORD_HEADER_LEN && DecodeHeader(h).Ok?
    ensures h == EncodedHeader(DecodeHeader(h).value)
  {
    hide Crc;
    var m := DecodeHeader(h).value;
    HeaderFields(h);
    HeaderAssembles(h, m);
    ZeroedHeader(m, h[94..98]);
    Pow256Widths();
    FieldHolds(h[94..98], HeaderCrc(m), 4);
  }

  // ---------- Records ----------

  lemma EncodedSlices(r: ObjectRecord, tail: seq<byte>)
    requires TotalLength(r.payload) + 7 <= USIZE_MAX
    ensures var s, total, f := Encoded(r) + tail, TotalLength(r.payload), RECORD_HEADER_LEN + |r.payload|;
            && s[..RECORD_HEADER_LEN] == EncodedHeader(Metadata(r))
            && s[RECORD_HEADER_LEN..f] == r.payload
            && s[f..f + 4] == BigEndian(Crc(r.payload), 4) && s[f + 4..f + 12] == BigEndian(total, 8)
            && s[f + 12..total] == RECORD_END_MAGIC
            && s[total..|Encoded(r)|] == Zeros(|Encoded(r)| - total)
  {
    hide Crc, EncodedHeader, BigEndian;
    var s, total, f := Encoded(r) + tail, TotalLength(r.payload), RECORD_HEADER_LEN + |r.payload|;
    var footer := Footer(r.payload, total);
    assert s[f..total] == footer;
    assert s[f..f + 4] == footer[..4] && s[f + 4..f + 12] == footer[4..12] && s[f + 12..total] == footer[12..];
  }

  // Decoding undoes encoding, whatever follows the record.
  lemma DecodeUndoesEncode(r: ObjectRecord, tail: seq<byte>)
    requires Encode(r).Ok?
    ensures Decode(Encode(r).value + tail) == Ok((r, |Encode(r).value|))
  {
    hide Crc, DecodeHeader, EncodedHeader;
    var s := Encoded(r) + tail;
    EncodedSlices(r, tail);
    HeaderRoundTrip(Metadata(r));
    Pow256Widths();
    DecodeBigEndian(Crc(r.payload), 4);
    DecodeBigEndian(TotalLength(r.payload), 8);
  }

  lemma RecordAssembles(bytes: seq<byte>, r: ObjectRecord)
    requires TotalLength(r.payload) + 7 <= USIZE_MAX && |Encoded(r)| <= |bytes|
    requires var total, f := TotalLength(r.payload), RECORD_HEADER_LEN + |r.payload|;
             && bytes[..RECORD_HEADER_LEN] == EncodedHeader(Metadata(r))
             && bytes[RECORD_HEADER_LEN..f] == r.payload
             && bytes[f..f + 4] == BigEndian(Crc(r.payload), 4) && bytes[f + 4..f + 12] == BigEndian(total, 8)
             && bytes[f + 12..total] == RECORD_END_MAGIC
             && bytes[total..|Encoded(r)|] == Zeros(|Encoded(r)| - total)
    ensures bytes[..|Encoded(r)|] == Encoded(r)
  {
    hide Crc, EncodedHeader, BigEndian, Align, Zeros;
    var n, total, f := |Encoded(r)|, TotalLength(r.payload), RECORD_HEADER_LEN + |r.payload|;
    InParts(bytes, RECORD_HEADER_LEN, f, f + 4, f + 12, total, n);
  }

  lemma InParts(s: seq<byte>, a: nat, b: nat, c: nat, d: nat, e: nat, n: nat)
    requires a <= b <= c <= d <= e <= n <= |s|
    ensures s[..n] == s[..a] + s[a..b] + (s[b..c] + s[c..d] + s[d..e]) + s[e..n]
  {
    assert s[..b] == s[..a] + s[a..b];
    assert s[b..d] == s[b..c] + s[c..d];
    assert s[b..e] == s[b..d] + s[d..e];
    assert s[..e] == s[..b] + s[b..e];
    assert s[..n] == s[..e] + s[e..n];
  }

  // Every accepted record re-encodes to exactly the bytes it was decoded from.
  lemma EncodeUndoesDecode(bytes: seq<byte>)
    requires Decode(bytes).Ok?
    ensures var (r, n) := Decode(bytes).value; n <= |bytes| && Encode(r) == Ok(bytes[..n])
  {
    hide Crc, DecodeHeader, EncodedHeader, Align;
    var (r, n) := Decode(bytes).value;
    var total, f := TotalLength(r.payload), RECORD_HEADER_LEN + |r.payload|;
    HeaderCanonical(bytes[..RECORD_HEADER_LEN]);
    Pow256Widths();
    FieldHolds(bytes[f..f + 4], Crc(r.payload), 4);
    FieldHolds(bytes[f + 4..f + 12], total, 8);
    AllZeroIsZeros(bytes[total..n]);
    RecordAssembles(bytes, r);
  }

  // The decoder, the header-only and the metadata-only length computations agree.
  lemma LengthsAgree(bytes: seq<byte>)
    ensures DecodeMetadata(bytes).Ok? ==>
              EncodedLenFromHeader(bytes) == EncodedLenFromMetadata(DecodeMetadata(bytes).value)
    ensures Decode(bytes).Ok? ==>
              var (r, n) := Decode(bytes).value;
              && EncodedLenFromHeader(bytes) == Ok(n)
              && EncodedLenFromMetadata(Metadata(r)) == Ok(n)
              && Encode(r).Ok? && |Encode(r).value| == n
    ensures Decode(bytes).Ok? ==> Decode(bytes[..Decode(bytes).value.1]) == Decode(bytes)
  {
    hide Crc, DecodeHeader;
    if Decode(bytes).Ok? {
      var (r, n) := Decode(bytes).value;
      EncodeUndoesDecode(bytes);
      DecodeUndoesEncode(r, []);
      assert bytes[..n] + [] == bytes[..n];
    }
  }

  // The streaming readers' footer check is the decoder's.
  lemma FooterCheckAgrees(bytes: seq<byte>)
    requires Decode(bytes).Ok?
    ensures var (r, n) := Decode(bytes).value;
            var total := TotalLength(r.payload);
            && RECORD_HEADER_LEN + |r.payload| <= |bytes| && total <= U64_MAX
            && ValidateFooter(bytes[RECORD_HEADER_LEN + |r.payload|..], Crc(r.payload), total) == Ok(())
  {
    hide Crc, DecodeHeader;
    var (r, n) := Decode(bytes).value;
    var total, f := TotalLength(r.payload), RECORD_HEADER_LEN + |r.payload|;
    var rest := bytes[f..];
    assert rest[0..4] == bytes[f..f + 4] && rest[4..12] == bytes[f + 4..f + 12] && rest[12..20] == bytes[f + 12..total];
  }

  // ... and it passes on exactly the footer that an encoder would have written.
  lemma FooterAcceptsExactly(bytes: seq<byte>, payloadCrc: u32, length: u64)
    ensures ValidateFooter(bytes, payloadCrc, length).Ok? <==>
            |bytes| >= 20 && bytes[..20] == BigEndian(payloadCrc, 4) + BigEndian(length, 8) + [0x52, 0x45, 0x4e, 0x44, 0x4f, 0x42, 0x4a, 0]
  {
    hide BigEndian, FromBigEndian;
    if |bytes| >= 20 {
      Pow256Widths();
      FieldHolds(bytes[0..4], payloadCrc, 4);
      FieldHolds(bytes[4..12], length, 8);
      var s := BigEndian(payloadCrc, 4) + BigEndian(length, 8) + RECORD_END_MAGIC;
      assert s[..4] == BigEndian(payloadCrc, 4) && s[4..12] == BigEndian(length, 8) && s[12..] == RECORD_END_MAGIC;
      assert bytes[..20] == bytes[0..4] + bytes[4..12] + bytes[12..20];
      assert bytes[..20][..4] == bytes[0..4] && bytes[..20][4..12] == bytes[4..12] && bytes[..20][12..] == bytes[12..20];
    }
  }

  // ---------- Streams ----------

  predicate Encodable(rs: seq<ObjectRecord>) {
    forall i :: 0 <= i < |rs| ==> Encode(rs[i]).Ok?
  }

  function EncodeAll(rs: seq<ObjectRecord>): seq<byte>
    requires Encodable(rs)
  {
    if rs == [] then [] else Encoded(rs[0]) + EncodeAll(rs[1..])
  }

  // A concatenation of records can be cut in only one way.
  lemma {:induction false} StreamUniquelyDecodable(a: seq<ObjectRecord>, b: seq<ObjectRecord>)
    requires Encodable(a) && Encodable(b)
    requires EncodeAll(a) == EncodeAll(b)
    ensures a == b
  {
    hide Crc, EncodedHeader, Align;
    if a == [] || b == [] {
      assert a == b;
    } else {
      hide Encoded, Encode, Decode;
      assert EncodeAll(a) == Encoded(a[0]) + EncodeAll(a[1..]) && EncodeAll(b) == Encoded(b[0]) + EncodeAll(b[1..]);
      DecodeUndoesEncode(a[0], EncodeAll(a[1..]));
      DecodeUndoesEncode(b[0], EncodeAll(b[1..]));
      var n := |Encoded(a[0])|;
      assert EncodeAll(a)[n..] == EncodeAll(a[1..]) && EncodeAll(b)[n..] == EncodeAll(b[1..]);
      StreamUniquelyDecodable(a[1..], b[1..]);
      assert a == [a[0]] + a[1..] && b == [b[0]] + b[1..];
    }
  }

  // ---------- The encoder's buffer ----------

  // The buffer holds `built` and is still zero after it.
  ghost predicate Holds(buffer: array<byte>, built: seq<byte>)
    reads buffer
  {
    |built| <= buffer.Length && buffer[..] == built + Zeros(buffer.Length - |built|)
  }

  method Put(buffer: array<byte>, ghost built: seq<byte>, offset: nat, field: seq<byte>)
    requires Holds(buffer, built) && offset == |built| && offset + |field| <= buffer.Length
    modifies buffer
    ensures Holds(buffer, built + field)
  {
    for i := 0 to |field|
      invariant buffer[..] == built + field[..i] + Zeros(buffer.Length - offset - i)
    {
      buffer[offset + i] := field[i];
    }
    assert field[..|field|] == field;
  }

  // Bytes the encoder leaves as they were allocated.
  lemma SkipZeros(buffer: array<byte>, built: seq<byte>, n: nat)
    requires Holds(buffer, built) && |built| + n <= buffer.Length
    ensures Holds(buffer, built + Zeros(n))
  {
    assert Zeros(n) + Zeros(buffer.Length - |built| - n) == Zeros(buffer.Length - |built|);
  }

  method PutHeaderFields(buffer: array<byte>, m: RecordMetadata)
    requires Holds(buffer, []) && RECORD_HEADER_LEN <= buffer.Length
    modifies buffer
    ensures Holds(buffer, Header(m, Zeros(4)))
  {
    hide BigEndian;
    var preamble := RECORD_MAGIC + BigEndian(FORMAT_VERSION, 2) + BigEndian(RECORD_HEADER_LEN, 2);
    Put(buffer, [], 0, preamble);
    var tags := [KindTag(m.kind), CodecTag(m.codec)] + BigEndian(m.flags, 2);
    Put(buffer, [] + preamble, 8, tags);
    var lengths := BigEndian(m.rawLength, 8) + BigEndian(m.storedLength, 8);
    Put(buffer, [] + preamble + tags, 12, lengths);
    Put(buffer, [] + preamble + tags + lengths, 28, m.contentId);
    ghost var built := [] + preamble + tags + lengths + m.contentId;
    var oid := [AlgorithmTag(m.primaryOid.algorithm), OidLen(m.primaryOid.algorithm)] + m.primaryOid.bytes;
    Put(buffer, built, 60, oid);
    SkipZeros(buffer, built + oid, RECORD_HEADER_LEN - |built + oid|);
    assert built + oid + Zeros(RECORD_HEADER_LEN - |built + oid|) == Header(m, Zeros(4));
  }

  // Overwrites the checksum field, which is still zero.
  method PatchCrc(buffer: array<byte>, m: RecordMetadata, crc: u32)
    requires RECORD_HEADER_LEN <= buffer.Length && Holds(buffer, Header(m, Zeros(4)))
    modifies buffer
    ensures Holds(buffer, Header(m, BigEndian(crc, 4)))
  {
    hide BigEndian, OidFixed;
    var field := BigEndian(crc, 4);
    buffer[94], buffer[95], buffer[96], buffer[97] := field[0], field[1], field[2], field[3];
    ghost var blank, full := Header(m, Zeros(4)), Header(m, field);
    assert blank[..94] == full[..94] && blank[98..] == full[98..] && full[94..98] == field;
    assert full == full[..94] + field + full[98..];
    assert buffer[..] == full + Zeros(buffer.Length - RECORD_HEADER_LEN);
  }

  method PutHeader(buffer: array<byte>, m: RecordMetadata)
    requires Holds(buffer, []) && RECORD_HEADER_LEN <= buffer.Length
    modifies buffer
    ensures Holds(buffer, EncodedHeader(m))
  {
    hide Crc, BigEndian, Header;
    PutHeaderFields(buffer, m);
    assert buffer[..RECORD_HEADER_LEN] == Header(m, Zeros(4));
    var crc := Compute(buffer[..RECORD_HEADER_LEN]);
    PatchCrc(buffer, m, crc);
  }

  method EncodeRecord(r: ObjectRecord) returns (result: Result<array<byte>, FormatError>)
    ensures Encode(r).Ok? ==> result.Ok? && fresh(result.value) && result.value[..] == Encode(r).value
    ensures Encode(r).Err? ==> result == Err(LengthOverflow)
  {
    hide Crc, BigEndian, EncodedHeader, Align;
    var total := RECORD_HEADER_LEN + |r.payload| + RECORD_FOOTER_LEN;
    if total > USIZE_MAX {
      return Err(LengthOverflow);
    }
    var padded := Align(total);
    if padded.Err? {
      return Err(LengthOverflow);
    }
    var buffer := new byte[padded.value](_ => 0);
    PutHeader(buffer, Metadata(r));
    ghost var header := EncodedHeader(Metadata(r));
    Put(buffer, header, RECORD_HEADER_LEN, r.payload);
    var footer := RECORD_HEADER_LEN + |r.payload|;
    var crc := Compute(r.payload);
    Put(buffer, header + r.payload, footer, BigEndian(crc, 4) + BigEndian(total, 8) + RECORD_END_MAGIC);
    result := Ok(buffer);
  }
}
