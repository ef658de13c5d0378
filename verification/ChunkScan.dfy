/** Chunk headers and the scan that verifies a backed-up chunk file (crates/reflink-forest-backup). */
module ChunkScan {
  import opened Bytes
  import opened Core
  import opened Crc32c
  import opened RecordFormat

  const MAX_COLD_CHUNK_RECORD_BYTES: nat := 64 * 1024 * 1024
  const SEALED_CHUNK_FOOTER_LEN: nat := 64

  // ---------- Chunk headers ----------

  function ChunkBytes(h: ChunkHeader, crc: seq<byte>): (s: seq<byte>)
    requires |crc| == 4
    ensures |s| == CHUNK_HEADER_LEN
  {
    (CHUNK_MAGIC + BigEndian(FORMAT_VERSION, 2) + BigEndian(CHUNK_HEADER_LEN, 2))
    + (BigEndian(h.generation, 4) + BigEndian(h.chunkId, 8) + BigEndian(h.createdUnixSecs, 8) + BigEndian(h.flags, 4))
    + crc
    + Zeros(24)
  }

  function EncodeChunkHeader(h: ChunkHeader): (s: seq<byte>)
    ensures |s| == CHUNK_HEADER_LEN
  {
    ChunkBytes(h, BigEndian(Crc(ChunkBytes(h, Zeros(4))), 4))
  }

  function DecodeChunkHeader(bytes: seq<byte>): Result<ChunkHeader, FormatError> {
    if |bytes| < CHUNK_HEADER_LEN then Err(Truncated) else DecodeFixedChunkHeader(bytes[..CHUNK_HEADER_LEN])
  }

  function DecodeFixedChunkHeader(s: seq<byte>): Result<ChunkHeader, FormatError>
    requires |s| == CHUNK_HEADER_LEN
  {
    if s[..8] != CHUNK_MAGIC then Err(BadMagic)
    else if ReadU16(s, 8) != FORMAT_VERSION then Err(UnsupportedVersion(ReadU16(s, 8)))
    else if ReadU16(s, 10) != CHUNK_HEADER_LEN then Err(InvalidHeaderLength(CHUNK_HEADER_LEN, ReadU16(s, 10)))
    else if ReadU32(s, CHUNK_CRC_OFFSET) != Crc(ZeroField(s, CHUNK_CRC_OFFSET)) then Err(HeaderCrcMismatch)
    else if !AllZero(s[40..]) then Err(NonZeroReserved)
    else Ok(ChunkHeader(ReadU32(s, 12), ReadU64(s, 16), ReadU64(s, 24), ReadU32(s, 32)))
  }

  // Each refusal of a chunk header says what is wrong with it.
  lemma ChunkErrorMeans(s: seq<byte>)
    requires |s| == CHUNK_HEADER_LEN && DecodeFixedChunkHeader(s).Err?
    ensures match DecodeFixedChunkHeader(s).error
            case BadMagic => s[..8] != [0x52, 0x46, 0x53, 0x43, 0x48, 0x4e, 0x4b, 0]
            case UnsupportedVersion(version) => version == FromBigEndian(s[8..10]) != 1
            case InvalidHeaderLength(expected, actual) => expected == 64 && actual == FromBigEndian(s[10..12]) != 64
            case HeaderCrcMismatch => FromBigEndian(s[36..40]) != Crc(s[..36] + [0, 0, 0, 0] + s[40..])
            case NonZeroReserved => exists i :: 40 <= i < 64 && s[i] != 0
            case _ => false
  {
    hide Crc;
    assert ZeroField(s, 36) == s[..36] + [0, 0, 0, 0] + s[40..];
  }

  lemma ChunkSlices(h: ChunkHeader, crc: seq<byte>)
    requires |crc| == 4
    ensures var s := ChunkBytes(h, crc);
            && s[..8] == CHUNK_MAGIC && s[8..10] == BigEndian(FORMAT_VERSION, 2)
            && s[10..12] == BigEndian(CHUNK_HEADER_LEN, 2) && s[12..16] == BigEndian(h.generation, 4)
            && s[16..24] == BigEndian(h.chunkId, 8) && s[24..32] == BigEndian(h.createdUnixSecs, 8)
            && s[32..36] == BigEndian(h.flags, 4) && s[36..40] == crc && s[40..] == Zeros(24)
            && ZeroField(s, CHUNK_CRC_OFFSET) == ChunkBytes(h, Zeros(4))
  {
    hide BigEndian;
    var s := ChunkBytes(h, crc);
    var a := CHUNK_MAGIC + BigEndian(FORMAT_VERSION, 2) + BigEndian(CHUNK_HEADER_LEN, 2);
    var b := BigEndian(h.generation, 4) + BigEndian(h.chunkId, 8) + BigEndian(h.createdUnixSecs, 8)
             + BigEndian(h.flags, 4);
    assert s[..12] == a && s[12..36] == b;
    assert s[..8] == a[..8] && s[8..10] == a[8..10] && s[10..12] == a[10..12];
    assert s[12..16] == b[..4] && s[16..24] == b[4..12] && s[24..32] == b[12..20] && s[32..36] == b[20..24];
  }

  lemma ChunkHeaderRoundTrip(h: ChunkHeader, tail: seq<byte>)
    ensures DecodeChunkHeader(EncodeChunkHeader(h) + tail) == Ok(h)
  {
    hide Crc, ChunkBytes;
    var crc := Crc(ChunkBytes(h, Zeros(4)));
    var s := EncodeChunkHeader(h);
    assert (s + tail)[..CHUNK_HEADER_LEN] == s;
    ChunkSlices(h, BigEndian(crc, 4));
    Pow256Widths();
    DecodeBigEndian(FORMAT_VERSION, 2);
    DecodeBigEndian(CHUNK_HEADER_LEN, 2);
    DecodeBigEndian(h.generation, 4);
    DecodeBigEndian(h.chunkId, 8);
    DecodeBigEndian(h.createdUnixSecs, 8);
    DecodeBigEndian(h.flags, 4);
    DecodeBigEndian(crc, 4);
  }

  lemma ChunkFieldsHold(s: seq<byte>)
    requires |s| == CHUNK_HEADER_LEN && DecodeFixedChunkHeader(s).Ok?
    ensures var h := DecodeFixedChunkHeader(s).value; s == ChunkBytes(h, s[36..40])
  {
    hide Crc, BigEndian, FromBigEndian, ZeroField, ChunkBytes;
    var h := DecodeFixedChunkHeader(s).value;
    Pow256Widths();
    FieldHolds(s[8..10], FORMAT_VERSION, 2);
    FieldHolds(s[10..12], CHUNK_HEADER_LEN, 2);
    FieldHolds(s[12..16], h.generation, 4);
    FieldHolds(s[16..24], h.chunkId, 8);
    FieldHolds(s[24..32], h.createdUnixSecs, 8);
    FieldHolds(s[32..36], h.flags, 4);
    AllZeroIsZeros(s[40..]);
    ChunkAssembles(s, h);
  }

  lemma ChunkAssembles(s: seq<byte>, h: ChunkHeader)
    requires |s| == CHUNK_HEADER_LEN && s[..8] == CHUNK_MAGIC && s[8..10] == BigEndian(FORMAT_VERSION, 2)
    requires s[10..12] == BigEndian(CHUNK_HEADER_LEN, 2) && s[12..16] == BigEndian(h.generation, 4)
    requires s[16..24] == BigEndian(h.chunkId, 8) && s[24..32] == BigEndian(h.createdUnixSecs, 8)
    requires s[32..36] == BigEndian(h.flags, 4) && s[40..] == Zeros(24)
    ensures s == ChunkBytes(h, s[36..40])
  {
    hide BigEndian, Zeros;
    assert s == (s[..8] + s[8..10] + s[10..12]) + (s[12..16] + s[16..24] + s[24..32] + s[32..36]) + s[36..40] + s[40..];
  }

  lemma ChunkHeaderCanonical(bytes: seq<byte>)
    requires DecodeChunkHeader(bytes).Ok?
    ensures |bytes| >= CHUNK_HEADER_LEN
    ensures bytes[..CHUNK_HEADER_LEN] == EncodeChunkHeader(DecodeChunkHeader(bytes).value)
  {
    hide Crc, ChunkBytes;
    var s := bytes[..CHUNK_HEADER_LEN];
    var h := DecodeChunkHeader(bytes).value;
    ChunkFieldsHold(s);
    ChunkSlices(h, s[36..40]);
    Pow256Widths();
    FieldHolds(s[36..40], Crc(ChunkBytes(h, Zeros(4))), 4);
  }

  // ---------- The scan ----------

  datatype ColdChunkDescriptor = ColdChunkDescriptor(generation: u32, chunkId: u64, validPrefix: u64)

  predicate Small(rs: seq<ObjectRecord>) {
    && Encodable(rs)
    && forall i :: 0 <= i < |rs| ==> |Encoded(rs[i])| <= MAX_COLD_CHUNK_RECORD_BYTES
  }

  // A chunk file: one header, then whole records up to the end.
  ghost predicate IsChunk(bytes: seq<byte>, expected: ColdChunkDescriptor, h: ChunkHeader, rs: seq<ObjectRecord>) {
    && |bytes| == expected.validPrefix
    && h.generation == expected.generation && h.chunkId == expected.chunkId
    && Small(rs)
    && bytes == EncodeChunkHeader(h) + EncodeAll(rs)
  }

  predicate WholeRecords(s: seq<byte>)
    decreases |s|
  {
    s == [] || (
      var d := Decode(s);
      d.Ok? && 0 < d.value.1 <= |s| && d.value.1 <= MAX_COLD_CHUNK_RECORD_BYTES && WholeRecords(s[d.value.1..]))
  }

  lemma {:induction false} RecordsAreWhole(rs: seq<ObjectRecord>, tail: seq<byte>)
    requires Small(rs)
    ensures WholeRecords(EncodeAll(rs) + tail) == WholeRecords(tail)
  {
    hide Crc, EncodedHeader, Align, Encoded, Decode;
    if rs == [] {
      assert EncodeAll(rs) + tail == tail;
    } else {
      var rest := EncodeAll(rs[1..]) + tail;
      var s, n := Encoded(rs[0]) + rest, |Encoded(rs[0])|;
      assert EncodeAll(rs) + tail == s;
      DecodeUndoesEncode(rs[0], rest);
      assert s[n..] == rest;
      RecordsAreWhole(rs[1..], tail);
    }
  }

  lemma {:induction false} WholeRecordsDecode(s: seq<byte>) returns (rs: seq<ObjectRecord>)
    requires WholeRecords(s)
    ensures Small(rs) && s == EncodeAll(rs)
    decreases |s|
  {
    hide Crc, EncodedHeader, Align, Encoded, Decode;
    if s == [] {
      rs := [];
    } else {
      var (r, n) := Decode(s).value;
      EncodeUndoesDecode(s);
      var rest := WholeRecordsDecode(s[n..]);
      rs := [r] + rest;
      assert rs[1..] == rest;
      assert s == s[..n] + s[n..];
    }
  }

  // One iteration's checks are one step of WholeRecords.
  predicate StepAccepts(s: seq<byte>) {
    |s| >= RECORD_HEADER_LEN &&
    var length := EncodedLenFromHeader(s[..RECORD_HEADER_LEN]);
    length.Ok? && length.value <= MAX_COLD_CHUNK_RECORD_BYTES && length.value <= |s| &&
    var d := Decode(s[..length.value]);
    d.Ok? && d.value.1 == length.value
  }

  lemma StepIsDecode(s: seq<byte>)
    ensures StepAccepts(s) <==> Decode(s).Ok? && Decode(s).value.1 <= MAX_COLD_CHUNK_RECORD_BYTES
    ensures StepAccepts(s) ==> Decode(s).value.1 == EncodedLenFromHeader(s[..RECORD_HEADER_LEN]).value
    ensures Decode(s).Ok? ==> RECORD_HEADER_LEN < Decode(s).value.1 <= |s|
  {
    hide Crc, DecodeHeader, EncodedHeader;
    if Decode(s).Ok? {
      EncodeUndoesDecode(s);
      LengthsAgree(s);
      assert s[..RECORD_HEADER_LEN][..RECORD_HEADER_LEN] == s[..RECORD_HEADER_LEN];
    }
    if StepAccepts(s) {
      var n := EncodedLenFromHeader(s[..RECORD_HEADER_LEN]).value;
      EncodeUndoesDecode(s[..n]);
      var (r, _) := Decode(s[..n]).value;
      DecodeUndoesEncode(r, s[n..]);
      assert s[..n][..n] + s[n..] == s;
    }
  }

  // What the scan establishes, in the order it establishes it.
  predicate Scanned(bytes: seq<byte>, expected: ColdChunkDescriptor) {
    && |bytes| == expected.validPrefix
    && DecodeChunkHeader(bytes).Ok?
    && DecodeChunkHeader(bytes).value.generation == expected.generation
    && DecodeChunkHeader(bytes).value.chunkId == expected.chunkId
    && WholeRecords(bytes[CHUNK_HEADER_LEN..])
  }

  // The scan accepts exactly a matching header followed by whole records within the size limit.
  lemma ScannedIffChunk(bytes: seq<byte>, expected: ColdChunkDescriptor)
    ensures Scanned(bytes, expected) <==> exists h, rs :: IsChunk(bytes, expected, h, rs)
  {
    hide Crc, EncodedHeader, Align, Encoded, Decode, EncodeChunkHeader, DecodeFixedChunkHeader;
    if Scanned(bytes, expected) {
      ChunkHeaderCanonical(bytes);
      var h := DecodeChunkHeader(bytes).value;
      var rs := WholeRecordsDecode(bytes[CHUNK_HEADER_LEN..]);
      assert bytes == bytes[..CHUNK_HEADER_LEN] + bytes[CHUNK_HEADER_LEN..];
      assert IsChunk(bytes, expected, h, rs);
    }
    forall h, rs | IsChunk(bytes, expected, h, rs)
      ensures Scanned(bytes, expected)
    {
      ChunkHeaderRoundTrip(h, EncodeAll(rs));
      assert bytes[CHUNK_HEADER_LEN..] == EncodeAll(rs);
      assert EncodeAll(rs) + [] == EncodeAll(rs);
      RecordsAreWhole(rs, []);
    }
  }

  method VerifyColdChunk(bytes: seq<byte>, expected: ColdChunkDescriptor) returns (ok: bool)
    ensures ok == Scanned(bytes, expected)
    ensures ok <==> exists h, rs :: IsChunk(bytes, expected, h, rs)
  {
    ScannedIffChunk(bytes, expected);
    hide Crc, DecodeHeader, Align, Decode, DecodeFixedChunkHeader, EncodedLenFromHeader;
    if |bytes| != expected.validPrefix || |bytes| < CHUNK_HEADER_LEN {
      return false;
    }
    var header := DecodeChunkHeader(bytes[..CHUNK_HEADER_LEN]);
    assert bytes[..CHUNK_HEADER_LEN][..CHUNK_HEADER_LEN] == bytes[..CHUNK_HEADER_LEN];
    if header.Err? || header.value.generation != expected.generation || header.value.chunkId != expected.chunkId {
      return false;
    }
    var offset := CHUNK_HEADER_LEN;
    while offset < |bytes|
      invariant CHUNK_HEADER_LEN <= offset <= |bytes|
      invariant WholeRecords(bytes[CHUNK_HEADER_LEN..]) == WholeRecords(bytes[offset..])
    {
      var remaining := |bytes| - offset;
      ghost var s := bytes[offset..];
      StepIsDecode(s);
      if remaining < RECORD_HEADER_LEN {
        return false;
      }
      var recordHeader := bytes[offset..offset + RECORD_HEADER_LEN];
      assert s[..RECORD_HEADER_LEN] == recordHeader;
      var recordLen := EncodedLenFromHeader(recordHeader);
      if recordLen.Err? || recordLen.value > MAX_COLD_CHUNK_RECORD_BYTES || recordLen.value > remaining {
        return false;
      }
      var encoded := bytes[offset..offset + recordLen.value];
      assert s[..recordLen.value] == encoded;
      var decoded := Decode(encoded);
      if decoded.Err? || decoded.value.1 != recordLen.value {
        return false;
      }
      assert StepAccepts(s);
      assert s[recordLen.value..] == bytes[offset + recordLen.value..];
      offset := offset + recordLen.value;
    }
    assert bytes[offset..] == [];
    return true;
  }

  // A chunk that ends in the 64-byte sealed footer is never accepted: the scan reads the footer
  // as a truncated record header.
  lemma SealedFooterRejected(rs: seq<ObjectRecord>, footer: seq<byte>)
    requires Small(rs) && |footer| == SEALED_CHUNK_FOOTER_LEN
    ensures !WholeRecords(EncodeAll(rs) + footer)
  {
    RecordsAreWhole(rs, footer);
    StepIsDecode(footer);
  }
}
