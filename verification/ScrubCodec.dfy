/** The scrub schedule record (crates/reflink-forest-daemon). */
module ScrubCodec {
  import opened Bytes
  import opened Core
  import opened Crc32c
  import Fields = RecordFormat

  const SCRUB_RECORD_VERSION: byte := 1
  const SCRUB_RECORD_MAGIC: seq<byte> := [82, 70, 83, 83, 67, 82, 66, 49]
  const SCRUB_RECORD_LEN := 64
  const MIN_INTERVAL_SECONDS := 60
  const MAX_INTERVAL_SECONDS := 366 * 24 * 60 * 60
  const MAX_CONSECUTIVE_FAILURES := 1000000

  datatype RunState = Idle | Running

  datatype ScrubState = ScrubState(
    interval: u64,
    nextDue: u64,
    runState: RunState,
    lastStarted: Option<u64>,
    lastCompleted: Option<u64>,
    failures: u32,
    recovered: u64)

  datatype ScrubError = InvalidRecord | UnsupportedVersion(version: byte)

  predicate Valid(s: ScrubState) {
    && MIN_INTERVAL_SECONDS <= s.interval <= MAX_INTERVAL_SECONDS
    && (s.runState == Running ==> s.lastStarted.Some?)
    && s.failures <= MAX_CONSECUTIVE_FAILURES
  }

  function Flags(s: ScrubState): byte {
    (if s.lastStarted.Some? then 1 else 0) + (if s.lastCompleted.Some? then 2 else 0)
  }

  function OrZero(t: Option<u64>): u64 { if t.Some? then t.value else 0 }

  // The first 60 bytes, with the given four in the place no field owns.
  function Head(s: ScrubState, stray: seq<byte>): (h: seq<byte>)
    requires |stray| == 4
    ensures |h| == 60
  {
    ([SCRUB_RECORD_VERSION, if s.runState == Idle then 1 else 2, Flags(s), 0] + SCRUB_RECORD_MAGIC)
    + (BigEndian(s.interval, 8) + BigEndian(s.nextDue, 8))
    + (BigEndian(OrZero(s.lastStarted), 8) + BigEndian(OrZero(s.lastCompleted), 8))
    + (BigEndian(s.failures, 4) + BigEndian(s.recovered, 8)) + stray
  }

  function Sealed(s: ScrubState, stray: seq<byte>): (r: seq<byte>)
    requires |stray| == 4
    ensures |r| == SCRUB_RECORD_LEN
  {
    Head(s, stray) + BigEndian(Crc(Head(s, stray)), 4)
  }

  function Encode(s: ScrubState): Result<seq<byte>, ScrubError> {
    if Valid(s) then Ok(Sealed(s, Zeros(4))) else Err(InvalidRecord)
  }

  // Exactly the schedules that can be stored: a minute to 366 days, a start behind every run, and
  // at most a million failures in a row.
  lemma EncodableExactly(s: ScrubState)
    ensures Encode(s).Ok? <==>
            60 <= s.interval <= 31622400 && (s.runState == Running ==> s.lastStarted != None) && s.failures <= 1000000
  {
    hide Sealed;
  }

  function Present(flag: bool, t: u64): Option<u64> { if flag then Some(t) else None }

  function Decode(bytes: seq<byte>): Result<ScrubState, ScrubError> {
    if |bytes| != SCRUB_RECORD_LEN then Err(InvalidRecord)
    else if bytes[0] != SCRUB_RECORD_VERSION then Err(UnsupportedVersion(bytes[0]))
    else if bytes[3] != 0 || bytes[4..12] != SCRUB_RECORD_MAGIC then Err(InvalidRecord)
    else if bytes[2] > 3 then Err(InvalidRecord)
    else if Fields.ReadU32(bytes, 60) != Crc(bytes[..60]) then Err(InvalidRecord)
    else if bytes[1] != 1 && bytes[1] != 2 then Err(InvalidRecord)
    else
      var started, completed := bytes[2] % 2 == 1, bytes[2] / 2 == 1;
      var lastStarted, lastCompleted := Fields.ReadU64(bytes, 28), Fields.ReadU64(bytes, 36);
      var s := ScrubState(Fields.ReadU64(bytes, 12), Fields.ReadU64(bytes, 20), if bytes[1] == 1 then Idle else Running,
                          Present(started, lastStarted), Present(completed, lastCompleted),
                          Fields.ReadU32(bytes, 44), Fields.ReadU64(bytes, 48));
      if (!started && lastStarted != 0) || (!completed && lastCompleted != 0) || !Valid(s) then Err(InvalidRecord) else Ok(s)
  }

  lemma VersionIsChecked(bytes: seq<byte>, version: byte)
    ensures Decode(bytes) == Err(UnsupportedVersion(version)) <==> |bytes| == 64 && bytes[0] == version != 1
  {
    hide Crc;
  }

  lemma HeadSlices(s: ScrubState, stray: seq<byte>)
    requires |stray| == 4
    ensures var h := Head(s, stray);
            && h[0] == SCRUB_RECORD_VERSION && h[1] == (if s.runState == Idle then 1 else 2) && h[2] == Flags(s) && h[3] == 0
            && h[4..12] == SCRUB_RECORD_MAGIC && h[12..20] == BigEndian(s.interval, 8) && h[20..28] == BigEndian(s.nextDue, 8)
            && h[28..36] == BigEndian(OrZero(s.lastStarted), 8) && h[36..44] == BigEndian(OrZero(s.lastCompleted), 8)
            && h[44..48] == BigEndian(s.failures, 4) && h[48..56] == BigEndian(s.recovered, 8) && h[56..60] == stray
  {
    hide BigEndian;
    var h := Head(s, stray);
    var a := [SCRUB_RECORD_VERSION, if s.runState == Idle then 1 else 2, Flags(s), 0] + SCRUB_RECORD_MAGIC;
    var b := BigEndian(s.interval, 8) + BigEndian(s.nextDue, 8);
    var c := BigEndian(OrZero(s.lastStarted), 8) + BigEndian(OrZero(s.lastCompleted), 8);
    var d := BigEndian(s.failures, 4) + BigEndian(s.recovered, 8);
    assert h[..12] == a && h[12..28] == b && h[28..44] == c && h[44..56] == d;
    assert h[0] == a[0] && h[1] == a[1] && h[2] == a[2] && h[3] == a[3] && h[4..12] == a[4..12];
    assert h[12..20] == b[..8] && h[20..28] == b[8..16] && h[28..36] == c[..8] && h[36..44] == c[8..16];
    assert h[44..48] == d[..4] && h[48..56] == d[4..12];
  }

  lemma SealedReads(s: ScrubState, stray: seq<byte>)
    requires |stray| == 4
    ensures var r := Sealed(s, stray);
            && r[..60] == Head(s, stray) && Fields.ReadU32(r, 60) == Crc(r[..60])
            && Fields.ReadU64(r, 12) == s.interval && Fields.ReadU64(r, 20) == s.nextDue
            && Fields.ReadU64(r, 28) == OrZero(s.lastStarted) && Fields.ReadU64(r, 36) == OrZero(s.lastCompleted)
            && Fields.ReadU32(r, 44) == s.failures && Fields.ReadU64(r, 48) == s.recovered
  {
    hide BigEndian, FromBigEndian, Crc, Head, Pow256;
    var r, h := Sealed(s, stray), Head(s, stray);
    HeadSlices(s, stray);
    assert r[..60] == h && r[60..64] == BigEndian(Crc(h), 4);
    assert r[12..20] == h[12..20] && r[20..28] == h[20..28] && r[28..36] == h[28..36] && r[36..44] == h[36..44];
    assert r[44..48] == h[44..48] && r[48..56] == h[48..56];
    Pow256Widths();
    DecodeBigEndian(Crc(h), 4);
    DecodeBigEndian(s.interval, 8);
    DecodeBigEndian(s.nextDue, 8);
    DecodeBigEndian(OrZero(s.lastStarted), 8);
    DecodeBigEndian(OrZero(s.lastCompleted), 8);
    DecodeBigEndian(s.failures, 4);
    DecodeBigEndian(s.recovered, 8);
  }

  // Whatever the unowned bytes hold, the record reads back.
  lemma StrayBytesAccepted(s: ScrubState, stray: seq<byte>)
    requires Valid(s) && |stray| == 4
    ensures Decode(Sealed(s, stray)) == Ok(s)
  {
    hide BigEndian, Crc, Head, Valid, Fields.ReadU32, Fields.ReadU64, Sealed;
    var r, h := Sealed(s, stray), Head(s, stray);
    HeadSlices(s, stray);
    SealedReads(s, stray);
    assert r[0] == r[..60][0] && r[1] == r[..60][1] && r[2] == r[..60][2] && r[3] == r[..60][3];
    assert r[4..12] == r[..60][4..12];
  }

  // Every accepted record is the sealing of what was read with the stray bytes it came with.
  lemma DecodedIsSealed(bytes: seq<byte>)
    requires Decode(bytes).Ok?
    ensures |bytes| == 64 && bytes == Sealed(Decode(bytes).value, bytes[56..60])
  {
    hide BigEndian, FromBigEndian, Crc, Valid, Pow256;
    var s := Decode(bytes).value;
    EncodeBigEndian(bytes[12..20]);
    EncodeBigEndian(bytes[20..28]);
    EncodeBigEndian(bytes[28..36]);
    EncodeBigEndian(bytes[36..44]);
    EncodeBigEndian(bytes[44..48]);
    EncodeBigEndian(bytes[48..56]);
    EncodeBigEndian(bytes[60..64]);
    HeadAssembles(bytes[..60], s);
    assert bytes[..60][56..60] == bytes[56..60];
    assert bytes == bytes[..60] + bytes[60..64];
  }

  lemma HeadAssembles(h: seq<byte>, s: ScrubState)
    requires |h| == 60 && h[0] == SCRUB_RECORD_VERSION && h[1] == (if s.runState == Idle then 1 else 2) && h[2] == Flags(s) && h[3] == 0
    requires h[4..12] == SCRUB_RECORD_MAGIC && h[12..20] == BigEndian(s.interval, 8) && h[20..28] == BigEndian(s.nextDue, 8)
    requires h[28..36] == BigEndian(OrZero(s.lastStarted), 8) && h[36..44] == BigEndian(OrZero(s.lastCompleted), 8)
    requires h[44..48] == BigEndian(s.failures, 4) && h[48..56] == BigEndian(s.recovered, 8)
    ensures h == Head(s, h[56..60])
  {
    hide BigEndian, Flags;
    assert h == ([h[0], h[1], h[2], h[3]] + h[4..12]) + (h[12..20] + h[20..28]) + (h[28..36] + h[36..44])
                + (h[44..48] + h[48..56]) + h[56..60];
  }

  // The codec is a round trip one way; the other way it is one exactly when the unowned bytes,
  // which the decoder does not check, are zero.
  lemma ReencodesIffNoStray(bytes: seq<byte>)
    requires Decode(bytes).Ok?
    ensures Encode(Decode(bytes).value) == Ok(bytes) <==> AllZero(bytes[56..60])
  {
    hide BigEndian, Crc;
    var s := Decode(bytes).value;
    DecodedIsSealed(bytes);
    HeadSlices(s, Zeros(4));
    assert Sealed(s, Zeros(4))[..60] == Head(s, Zeros(4));
    assert Sealed(s, Zeros(4))[..60][56..60] == Sealed(s, Zeros(4))[56..60];
    if AllZero(bytes[56..60]) {
      AllZeroIsZeros(bytes[56..60]);
    }
  }
}
