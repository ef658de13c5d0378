/** Durable job records (crates/reflink-forest-daemon). */
module JobCodec {
  import opened Bytes
  import opened Core
  import opened Crc32c
  import Fields = RecordFormat

  const JOB_RECORD_VERSION: byte := 1
  const JOB_RECORD_MAGIC: seq<byte> := [82, 70, 83, 74, 79, 66, 118, 49]
  const JOB_HEADER_LEN := 50
  const JOB_TRAILER_LEN := 4
  const MAX_JOB_RECORD_LEN := 64 * 1024 * 1024

  datatype JobState = Queued | Running | Succeeded | Failed

  function StateTag(state: JobState): byte {
    match state
    case Queued => 1
    case Running => 2
    case Succeeded => 3
    case Failed => 4
  }

  function StateFromTag(tag: byte): Option<JobState> {
    match tag
    case 1 => Some(Queued)
    case 2 => Some(Running)
    case 3 => Some(Succeeded)
    case 4 => Some(Failed)
    case _ => None
  }

  datatype JobRecord = JobRecord(
    id: Id16,
    kind: seq<byte>,
    payload: seq<byte>,
    state: JobState,
    attempts: u32,
    lastError: Option<seq<byte>>)

  datatype JobError =
    | Io
    | AlreadyExists
    | NotFound
    | InvalidRecord
    | UnsupportedVersion(version: byte)
    | InvalidTransition(from: JobState, to: JobState)
    | AttemptOverflow
    | UnsafeJobDirectoryEntry

  predicate Valid(r: JobRecord) {
    && r.kind != []
    && |r.kind| <= MAX_JOB_RECORD_LEN && |r.payload| <= MAX_JOB_RECORD_LEN
    && (r.lastError.Some? ==> 0 < |r.lastError.value| <= MAX_JOB_RECORD_LEN)
    && (r.state != Queued ==> r.attempts > 0)
    && (r.state == Succeeded ==> r.lastError.None?)
    && (r.state == Failed ==> r.lastError.Some?)
  }

  function ErrorBytes(r: JobRecord): seq<byte> {
    if r.lastError.Some? then r.lastError.value else []
  }

  // ---------- Layout ----------

  function Head(r: JobRecord): (h: seq<byte>)
    ensures |h| == 46
  {
    ([JOB_RECORD_VERSION, StateTag(r.state)] + JOB_RECORD_MAGIC) + r.id + BigEndian(r.attempts, 4)
    + (BigEndian(|r.kind|, 4) + BigEndian(|r.payload|, 8) + BigEndian(|ErrorBytes(r)|, 4))
  }

  function Body(r: JobRecord): seq<byte> { r.kind + r.payload + ErrorBytes(r) }

  function Encoded(r: JobRecord): (s: seq<byte>)
    ensures |s| == JOB_HEADER_LEN + |r.kind| + |r.payload| + |ErrorBytes(r)| + JOB_TRAILER_LEN
  {
    Head(r) + BigEndian(Crc(Head(r)), 4) + Body(r) + BigEndian(Crc(Body(r)), 4)
  }

  function Encode(r: JobRecord): Result<seq<byte>, JobError> {
    if !Valid(r) || JOB_HEADER_LEN + |Body(r)| + JOB_TRAILER_LEN > MAX_JOB_RECORD_LEN then Err(InvalidRecord)
    else Ok(Encoded(r))
  }

  // Exactly the records that can be stored: some work, an attempt behind every job that left the
  // queue, no diagnostic on success, one on failure, and 64 MiB in all.
  lemma EncodableExactly(r: JobRecord)
    ensures Encode(r).Ok? <==>
            && |r.kind| > 0 && (r.lastError.Some? ==> |r.lastError.value| > 0)
            && (r.state == Running || r.state == Succeeded || r.state == Failed ==> r.attempts > 0)
            && (r.state == Succeeded ==> r.lastError == None) && (r.state == Failed ==> r.lastError != None)
            && 50 + |r.kind| + |r.payload| + |ErrorBytes(r)| + JOB_TRAILER_LEN <= 67108864
  {
    hide Encoded;
  }

  lemma StableTags()
    ensures StateTag(Queued) == 1 && StateTag(Running) == 2 && StateTag(Succeeded) == 3 && StateTag(Failed) == 4
  {
  }

  // The fields of a well-framed record, whatever its state allows.
  function FromFields(bytes: seq<byte>, state: JobState, kindLen: nat, payloadLen: nat): JobRecord
    requires JOB_HEADER_LEN + kindLen + payloadLen + JOB_TRAILER_LEN <= |bytes|
  {
    var afterKind := JOB_HEADER_LEN + kindLen;
    var afterPayload := afterKind + payloadLen;
    var end := |bytes| - JOB_TRAILER_LEN;
    JobRecord(bytes[10..26], bytes[JOB_HEADER_LEN..afterKind], bytes[afterKind..afterPayload], state,
              Fields.ReadU32(bytes, 26), if afterPayload == end then None else Some(bytes[afterPayload..end]))
  }

  function Decode(bytes: seq<byte>): Result<JobRecord, JobError> {
    if |bytes| < JOB_HEADER_LEN + JOB_TRAILER_LEN || |bytes| > MAX_JOB_RECORD_LEN then Err(InvalidRecord)
    else if bytes[0] != JOB_RECORD_VERSION then Err(UnsupportedVersion(bytes[0]))
    else if bytes[2..10] != JOB_RECORD_MAGIC then Err(InvalidRecord)
    else if Fields.ReadU32(bytes, 46) != Crc(bytes[..46]) then Err(InvalidRecord)
    else if StateFromTag(bytes[1]).None? then Err(InvalidRecord)
    else
      var kindLen, payloadLen, errorLen := Fields.ReadU32(bytes, 30), Fields.ReadU64(bytes, 34), Fields.ReadU32(bytes, 42);
      var end := |bytes| - JOB_TRAILER_LEN;
      if JOB_HEADER_LEN + kindLen + payloadLen + errorLen != end then Err(InvalidRecord)
      else if Fields.ReadU32(bytes, end) != Crc(bytes[JOB_HEADER_LEN..end]) then Err(InvalidRecord)
      else
        var record := FromFields(bytes, StateFromTag(bytes[1]).value, kindLen, payloadLen);
        if Valid(record) then Ok(record) else Err(InvalidRecord)
  }

  // ---------- The codec is exact ----------

  lemma HeadSlices(r: JobRecord)
    ensures var h := Head(r);
            && h[0] == JOB_RECORD_VERSION && h[1] == StateTag(r.state) && h[2..10] == JOB_RECORD_MAGIC
            && h[10..26] == r.id && h[26..30] == BigEndian(r.attempts, 4) && h[30..34] == BigEndian(|r.kind|, 4)
            && h[34..42] == BigEndian(|r.payload|, 8) && h[42..46] == BigEndian(|ErrorBytes(r)|, 4)
  {
    hide BigEndian;
    var h := Head(r);
    var a := [JOB_RECORD_VERSION, StateTag(r.state)] + JOB_RECORD_MAGIC;
    var d := BigEndian(|r.kind|, 4) + BigEndian(|r.payload|, 8) + BigEndian(|ErrorBytes(r)|, 4);
    assert h[..10] == a && h[30..46] == d;
    assert h[0] == a[0] && h[1] == a[1] && h[2..10] == a[2..10];
    assert h[30..34] == d[..4] && h[34..42] == d[4..12] && h[42..46] == d[12..16];
  }

  lemma EncodedSlices(r: JobRecord)
    ensures var s, end := Encoded(r), JOB_HEADER_LEN + |Body(r)|;
            && s[..46] == Head(r) && s[46..50] == BigEndian(Crc(Head(r)), 4)
            && s[50..end] == Body(r) && s[end..end + 4] == BigEndian(Crc(Body(r)), 4)
  {
    hide BigEndian, Crc, Head, Body;
  }

  lemma EncodedHead(r: JobRecord)
    requires Encode(r).Ok?
    ensures var s := Encoded(r);
            && s[0] == JOB_RECORD_VERSION && s[1] == StateTag(r.state) && s[2..10] == JOB_RECORD_MAGIC && s[10..26] == r.id
            && Fields.ReadU32(s, 26) == r.attempts && Fields.ReadU32(s, 30) == |r.kind|
            && Fields.ReadU64(s, 34) == |r.payload| && Fields.ReadU32(s, 42) == |ErrorBytes(r)|
  {
    hide BigEndian, Crc, Head;
    var s, h := Encoded(r), Head(r);
    EncodedSlices(r);
    HeadSlices(r);
    assert s[2..10] == h[2..10] && s[10..26] == h[10..26] && s[26..30] == h[26..30];
    assert s[30..34] == h[30..34] && s[34..42] == h[34..42] && s[42..46] == h[42..46];
    assert s[0] == s[..46][0] && s[1] == s[..46][1];
    Pow256Widths();
    DecodeBigEndian(r.attempts, 4);
    DecodeBigEndian(|r.kind|, 4);
    DecodeBigEndian(|r.payload|, 8);
    DecodeBigEndian(|ErrorBytes(r)|, 4);
  }

  lemma EncodedChecksums(r: JobRecord)
    requires Encode(r).Ok?
    ensures var s, end := Encoded(r), JOB_HEADER_LEN + |Body(r)|;
            Fields.ReadU32(s, 46) == Crc(s[..46]) && Fields.ReadU32(s, end) == Crc(s[JOB_HEADER_LEN..end])
  {
    hide BigEndian, Crc, Head, Body, Valid;
    EncodedSlices(r);
    Pow256Widths();
    DecodeBigEndian(Crc(Head(r)), 4);
    DecodeBigEndian(Crc(Body(r)), 4);
  }

  lemma EncodedFields(r: JobRecord)
    requires Encode(r).Ok?
    ensures FromFields(Encoded(r), r.state, |r.kind|, |r.payload|) == r
  {
    hide BigEndian, Crc, Head, Encoded, Body;
    EncodedSlices(r);
    EncodedHead(r);
    BodyParts(r);
    var s, b := Encoded(r), Body(r);
    var k, p := |r.kind|, |r.kind| + |r.payload|;
    SliceOfSlice(s, 50, 50 + |b|, 0, k);
    SliceOfSlice(s, 50, 50 + |b|, k, p);
    SliceOfSlice(s, 50, 50 + |b|, p, |b|);
  }

  lemma BodyParts(r: JobRecord)
    ensures var b, k, p := Body(r), |r.kind|, |r.kind| + |r.payload|;
            |b| == p + |ErrorBytes(r)| && b[..k] == r.kind && b[k..p] == r.payload && b[p..] == ErrorBytes(r)
  {
  }

  lemma SliceOfSlice(s: seq<byte>, lo: nat, hi: nat, i: nat, j: nat)
    requires i <= j && lo + j <= hi <= |s|
    ensures s[lo..hi][i..j] == s[lo + i..lo + j]
  {
    var t := s[lo..hi];
    assert |t[i..j]| == |s[lo + i..lo + j]|;
    forall k | 0 <= k < j - i
      ensures t[i..j][k] == s[lo + i..lo + j][k]
    {
      assert t[i..j][k] == t[i + k] == s[lo + i + k];
    }
  }

  lemma DecodeUndoesEncode(r: JobRecord)
    requires Encode(r).Ok?
    ensures Decode(Encode(r).value) == Ok(r)
  {
    hide BigEndian, Crc, Head, Encoded, FromFields, Fields.ReadU32, Fields.ReadU64;
    EncodedHead(r);
    EncodedChecksums(r);
    EncodedFields(r);
  }

  lemma DecodedHead(bytes: seq<byte>)
    requires Decode(bytes).Ok?
    ensures bytes[..46] == Head(Decode(bytes).value)
  {
    hide BigEndian, Crc, Valid;
    var r := Decode(bytes).value;
    Pow256Widths();
    FieldHolds4(bytes[26..30], r.attempts);
    FieldHolds4(bytes[30..34], |r.kind|);
    Fields.FieldHolds(bytes[34..42], |r.payload|, 8);
    FieldHolds4(bytes[42..46], |ErrorBytes(r)|);
    assert bytes[..46] == ([bytes[0], bytes[1]] + bytes[2..10]) + bytes[10..26] + bytes[26..30]
                          + (bytes[30..34] + bytes[34..42] + bytes[42..46]);
  }

  lemma FieldHolds4(field: seq<byte>, n: nat)
    requires |field| == 4 && FromBigEndian(field) == n
    ensures field == BigEndian(n, 4)
  {
    EncodeBigEndian(field);
  }

  lemma DecodedBody(bytes: seq<byte>)
    requires Decode(bytes).Ok?
    ensures var r := Decode(bytes).value;
            |bytes| == JOB_HEADER_LEN + |Body(r)| + JOB_TRAILER_LEN && bytes[JOB_HEADER_LEN..|bytes| - 4] == Body(r)
  {
    hide BigEndian, FromBigEndian, Crc, Valid, Pow256;
    var r, end := Decode(bytes).value, |bytes| - 4;
    var k, p := JOB_HEADER_LEN + |r.kind|, JOB_HEADER_LEN + |r.kind| + |r.payload|;
    assert r.kind == bytes[JOB_HEADER_LEN..k] && r.payload == bytes[k..p] && ErrorBytes(r) == bytes[p..end];
    assert bytes[JOB_HEADER_LEN..end] == bytes[JOB_HEADER_LEN..k] + bytes[k..p] + bytes[p..end];
  }

  // Every accepted file is exactly the encoding of the record read from it.
  lemma EncodeUndoesDecode(bytes: seq<byte>)
    requires Decode(bytes).Ok?
    ensures Encode(Decode(bytes).value) == Ok(bytes)
  {
    hide BigEndian, Crc, Head, Body, FromFields;
    var r, end := Decode(bytes).value, |bytes| - 4;
    DecodedHead(bytes);
    DecodedBody(bytes);
    FieldHolds4(bytes[46..50], Crc(bytes[..46]));
    FieldHolds4(bytes[end..end + 4], Crc(bytes[JOB_HEADER_LEN..end]));
    assert bytes == bytes[..46] + bytes[46..50] + bytes[50..end] + bytes[end..end + 4];
  }

  // ---------- The encoder's buffer ----------

  method PutHead(bytes: array<byte>, r: JobRecord)
    requires Fields.Holds(bytes, []) && JOB_HEADER_LEN <= bytes.Length
    modifies bytes
    ensures Fields.Holds(bytes, Head(r) + BigEndian(Crc(Head(r)), 4))
  {
    hide BigEndian, Crc;
    var tags := [JOB_RECORD_VERSION, StateTag(r.state)] + JOB_RECORD_MAGIC;
    Fields.Put(bytes, [], 0, tags);
    Fields.Put(bytes, [] + tags, 10, r.id);
    Fields.Put(bytes, [] + tags + r.id, 26, BigEndian(r.attempts, 4));
    var lengths := BigEndian(|r.kind|, 4) + BigEndian(|r.payload|, 8) + BigEndian(|ErrorBytes(r)|, 4);
    Fields.Put(bytes, [] + tags + r.id + BigEndian(r.attempts, 4), 30, lengths);
    ghost var head := [] + tags + r.id + BigEndian(r.attempts, 4) + lengths;
    assert head == Head(r) && bytes[..46] == head;
    var crc := Compute(bytes[..46]);
    Fields.Put(bytes, head, 46, BigEndian(crc, 4));
  }

  method PutBody(bytes: array<byte>, ghost header: seq<byte>, r: JobRecord)
    requires Fields.Holds(bytes, header) && |header| == JOB_HEADER_LEN
    requires JOB_HEADER_LEN + |Body(r)| + JOB_TRAILER_LEN <= bytes.Length
    modifies bytes
    ensures Fields.Holds(bytes, header + Body(r) + BigEndian(Crc(Body(r)), 4))
  {
    hide BigEndian, Crc;
    var offset := JOB_HEADER_LEN;
    Fields.Put(bytes, header, offset, r.kind);
    offset := offset + |r.kind|;
    Fields.Put(bytes, header + r.kind, offset, r.payload);
    offset := offset + |r.payload|;
    Fields.Put(bytes, header + r.kind + r.payload, offset, ErrorBytes(r));
    offset := offset + |ErrorBytes(r)|;
    ghost var built := header + r.kind + r.payload + ErrorBytes(r);
    assert built == header + Body(r) && bytes[JOB_HEADER_LEN..offset] == Body(r);
    var crc := Compute(bytes[JOB_HEADER_LEN..offset]);
    Fields.Put(bytes, built, offset, BigEndian(crc, 4));
  }

  method EncodeJobRecord(r: JobRecord) returns (result: Result<array<byte>, JobError>)
    ensures Encode(r).Ok? ==> result.Ok? && fresh(result.value) && result.value[..] == Encode(r).value
    ensures Encode(r).Err? ==> result == Err(InvalidRecord)
  {
    hide BigEndian, Crc, Valid, Head;
    if !Valid(r) {
      return Err(InvalidRecord);
    }
    var total := JOB_HEADER_LEN + |r.kind| + |r.payload| + |ErrorBytes(r)| + JOB_TRAILER_LEN;
    if total > MAX_JOB_RECORD_LEN {
      return Err(InvalidRecord);
    }
    var bytes := new byte[total](_ => 0);
    PutHead(bytes, r);
    PutBody(bytes, Head(r) + BigEndian(Crc(Head(r)), 4), r);
    assert bytes[..] == Encoded(r) + Zeros(0);
    return Ok(bytes);
  }
}
