/**
 * Corruption of encoded records (crates/reflink-forest-format/src/lib.rs): exactly which changes
 * confined to four consecutive bytes the decoder accepts.
 */
module RecordBursts {
  import opened Bytes
  import opened Core
  import opened Crc32c
  import opened CrcStraddle
  import opened CrcSlips
  import opened RecordFormat

  // `b` is `a` with the bits of `d` flipped from `at` on.
  predicate Flipped(a: seq<byte>, b: seq<byte>, at: nat, d: seq<byte>) {
    && |a| == |b| && at + |d| <= |a|
    && a[..at] == b[..at] && a[at + |d|..] == b[at + |d|..]
    && XorBytes(a[at..at + |d|], b[at..at + |d|]) == d
  }

  function Flip(a: seq<byte>, at: nat, d: seq<byte>): (b: seq<byte>)
    requires at + |d| <= |a|
    ensures Flipped(a, b, at, d)
  {
    var b := a[..at] + XorBytes(a[at..at + |d|], d) + a[at + |d|..];
    FlippedBack(a, b, at, d);
    b
  }

  lemma FlippedBack(a: seq<byte>, b: seq<byte>, at: nat, d: seq<byte>)
    requires at + |d| <= |a| && b == a[..at] + XorBytes(a[at..at + |d|], d) + a[at + |d|..]
    ensures Flipped(a, b, at, d)
  {
    hide XorByte, XorBytes;
    var before := a[at..at + |d|];
    FlipsTwice(before, d);
    Pieces(a[..at], XorBytes(before, d), a[at + |d|..]);
  }

  lemma Pieces(x: seq<byte>, y: seq<byte>, z: seq<byte>)
    ensures (x + y + z)[..|x|] == x && (x + y + z)[|x|..|x| + |y|] == y && (x + y + z)[|x| + |y|..] == z
  {
  }

  lemma FlipsTwice(v: seq<byte>, d: seq<byte>)
    requires |v| == |d|
    ensures XorBytes(v, XorBytes(v, d)) == d
  {
    hide XorByte, XorBytes;
    forall i | 0 <= i < |d|
      ensures XorBytes(v, XorBytes(v, d))[i] == d[i]
    {
      FlipTwice(v[i], d[i]);
    }
  }

  lemma BurstFlips(a: seq<byte>, b: seq<byte>, from: nat)
    requires Burst(a, b, from) && from + 4 <= |a|
    ensures var d := XorBytes(a[from..from + 4], b[from..from + 4]); Flipped(a, b, from, d) && d != [0, 0, 0, 0]
  {
    hide XorByte, XorBytes;
    var d := XorBytes(a[from..from + 4], b[from..from + 4]);
    assert a[..from] == b[..from] && a[from + 4..] == b[from + 4..];
    if d == [0, 0, 0, 0] {
      assert d == Zeros(4);
      XorBytesZero(a[from..from + 4], b[from..from + 4]);
    }
  }

  // The window over the last `k` bytes before `c` and the field at `c`.
  lemma FlippedAcross(a: seq<byte>, b: seq<byte>, c: nat, k: nat, d: seq<byte>)
    requires 1 <= k <= 3 && k <= c && |d| == 4 && c + 4 <= |a| && Flipped(a, b, c - k, d)
    ensures a[c + 4 - k..c + 4] == b[c + 4 - k..c + 4]
    ensures a[c..c + 4][4 - k..] == b[c..c + 4][4 - k..]
    ensures WindowDifferenceOf(a[c - k..c], b[c - k..c], a[c..c + 4], b[c..c + 4]) == d
  {
    hide XorByte, XorBytes;
    var s := c - k;
    var v, w, q, r := a[s..c], b[s..c], a[c..c + 4], b[c..c + 4];
    SameSuffix(a, b, s + 4, k);
    assert q[4 - k..] == a[s + 4..s + 4 + k] && r[4 - k..] == b[s + 4..s + 4 + k];
    var joined := WindowDifferenceOf(v, w, q, r);
    forall i | 0 <= i < 4
      ensures joined[i] == d[i]
    {
      assert d[i] == XorByte(a[s..s + 4][i], b[s..s + 4][i]);
      if i < k {
        assert v[i] == a[s + i] && w[i] == b[s + i];
      } else {
        assert q[i - k] == a[s + i] && r[i - k] == b[s + i];
      }
    }
  }

  lemma SameSuffix(a: seq<byte>, b: seq<byte>, from: nat, n: nat)
    requires |a| == |b| && from + n <= |a| && a[from..] == b[from..]
    ensures a[from..from + n] == b[from..from + n]
  {
    assert a[from..][..n] == a[from..from + n] && b[from..][..n] == b[from..from + n];
  }

  // ---------- Headers ----------

  // The seven differences that reach from an object ID into the header checksum unnoticed.
  predicate HeaderSlip(e: seq<byte>, h: seq<byte>) {
    || Flipped(e, h, 93, [0x0f, 0xee, 0x89, 0x25])
    || Flipped(e, h, 92, [0xce, 0x39, 0x78, 0x07])
    || Flipped(e, h, 92, [0x52, 0x4a, 0x88, 0x09])
    || Flipped(e, h, 92, [0x9c, 0x73, 0xf0, 0x0e])
    || Flipped(e, h, 91, [0xa9, 0x74, 0x15, 0x62])
    || Flipped(e, h, 91, [0x52, 0xe9, 0x2a, 0xc4])
    || Flipped(e, h, 91, [0xfb, 0x9d, 0x3f, 0xa6])
  }

  lemma HeaderStores(m: RecordMetadata)
    ensures var e := EncodedHeader(m);
            e[94..98] == BigEndian(Crc(ZeroField(e, RECORD_CRC_OFFSET)), 4) && e[98..] == Zeros(30)
  {
    hide Crc, Header, BigEndian;
    HeaderSlices(m, BigEndian(HeaderCrc(m), 4));
    ZeroedHeader(m, BigEndian(HeaderCrc(m), 4));
  }

  lemma ZeroFieldParts(h: seq<byte>, k: nat)
    requires |h| == RECORD_HEADER_LEN && k <= 3
    ensures ZeroField(h, RECORD_CRC_OFFSET) == h[..94 - k] + h[94 - k..94] + (Zeros(4) + h[98..])
  {
    assert h[..94] == h[..94 - k] + h[94 - k..94];
  }

  // The checksum in the altered header matches exactly when the difference goes unnoticed.
  lemma HeaderStraddle(m: RecordMetadata, h: seq<byte>, k: nat, d: seq<byte>)
    requires 1 <= k <= 3 && |d| == 4 && Flipped(EncodedHeader(m), h, 94 - k, d)
    ensures h[94..98] == BigEndian(Crc(ZeroField(h, RECORD_CRC_OFFSET)), 4) <==> Unnoticed(d, k, 34)
  {
    hide Crc, EncodedHeader, XorBytes, BigEndian, ZeroField, Unnoticed, WindowDifferenceOf;
    var e := EncodedHeader(m);
    HeaderStores(m);
    FlippedAcross(e, h, 94, k, d);
    ZeroFieldParts(e, k);
    ZeroFieldParts(h, k);
    SameFrom(e, h, 94 - k + 4, 98);
    WindowMatches(e[..94 - k], e[94 - k..94], h[94 - k..94], Zeros(4) + e[98..], e[94..98], h[94..98]);
  }

  lemma SameFrom(a: seq<byte>, b: seq<byte>, from: nat, to: nat)
    requires |a| == |b| && from <= to <= |a| && a[from..] == b[from..]
    ensures a[to..] == b[to..]
  {
    assert a[to..] == a[from..][to - from..] && b[to..] == b[from..][to - from..];
  }

  lemma HeaderChecks(h: seq<byte>)
    requires |h| == RECORD_HEADER_LEN && DecodeHeader(h).Ok?
    ensures h[94..98] == BigEndian(Crc(ZeroField(h, RECORD_CRC_OFFSET)), 4)
  {
    hide Crc, ZeroField, DecodeOidFixed;
    Pow256Widths();
    FieldHolds(h[94..98], Crc(ZeroField(h, RECORD_CRC_OFFSET)), 4);
  }

  // A SHA-1 object ID ends in padding, which the decoder insists on.
  lemma PaddingStays(m: RecordMetadata, h: seq<byte>, k: nat, d: seq<byte>)
    requires 1 <= k <= 3 && |d| == 4 && Flipped(EncodedHeader(m), h, 94 - k, d)
    requires m.primaryOid.algorithm == Sha1 && DecodeHeader(h).Ok?
    ensures d[0] == 0
  {
    hide Crc, EncodedHeader, DecodeHeader, XorBytes, XorByte, BigEndian;
    var e, n := EncodedHeader(m), DecodeHeader(h).value;
    HeaderOid(m);
    HeaderFields(h);
    assert h[60] == e[60] by {
      assert h[60] == h[..94 - k][60] && e[60] == e[..94 - k][60];
    }
    assert h[60..94][0] == h[60] && e[60..94][0] == e[60];
    LastPadding(m.primaryOid, 34 - k);
    LastPadding(n.primaryOid, 34 - k);
    assert e[94 - k] == e[60..94][34 - k] && h[94 - k] == h[60..94][34 - k];
    assert e[94 - k..94 - k + 4][0] == e[94 - k] && h[94 - k..94 - k + 4][0] == h[94 - k];
    XorByteSelf(0);
  }

  lemma HeaderOid(m: RecordMetadata)
    ensures EncodedHeader(m)[60..94] == OidFixed(m.primaryOid)
  {
    hide Crc, BigEndian, Header, OidFixed;
    HeaderSlices(m, BigEndian(HeaderCrc(m), 4));
  }

  lemma LastPadding(oid: Oid, i: nat)
    requires 31 <= i < 34
    ensures OidFixed(oid)[0] == AlgorithmTag(Sha1) ==> OidFixed(oid)[i] == 0
  {
  }

  lemma FlippedKeeps(a: seq<byte>, b: seq<byte>, at: nat, d: seq<byte>, lo: nat, hi: nat)
    requires Flipped(a, b, at, d) && lo <= hi <= |a| && (hi <= at || at + |d| <= lo)
    ensures a[lo..hi] == b[lo..hi]
  {
    hide Flipped;
    FlippedLength(a, b, at, d);
    forall i | lo <= i < hi
      ensures a[i] == b[i]
    {
      FlippedKeepsByte(a, b, at, d, i);
    }
  }

  lemma FlippedKeepsByte(a: seq<byte>, b: seq<byte>, at: nat, d: seq<byte>, i: nat)
    requires Flipped(a, b, at, d) && i < |a| && (i < at || at + |d| <= i)
    ensures i < |b| && a[i] == b[i]
  {
    hide XorBytes;
    if i < at {
      assert a[i] == a[..at][i] && b[i] == b[..at][i];
    } else {
      var end := at + |d|;
      assert a[i] == a[end..][i - end] && b[i] == b[end..][i - end];
    }
  }

  lemma FlippedLength(a: seq<byte>, b: seq<byte>, at: nat, d: seq<byte>)
    requires Flipped(a, b, at, d)
    ensures |a| == |b|
  {
  }

  // The header that an unnoticed difference turns `m`'s into names another object.
  function Renamed(m: RecordMetadata, h: seq<byte>): RecordMetadata
    requires |h| == RECORD_HEADER_LEN
  {
    m.(primaryOid := GitOid(Sha256, h[62..94]))
  }

  lemma RenamedFields(m: RecordMetadata, h: seq<byte>, k: nat, d: seq<byte>)
    requires 1 <= k <= 3 && |d| == 4 && Flipped(EncodedHeader(m), h, 94 - k, d)
    requires m.primaryOid.algorithm == Sha256
    ensures h == Header(Renamed(m, h), h[94..98])
  {
    hide Crc, XorBytes, BigEndian, Header;
    var e, at := EncodedHeader(m), 94 - k;
    HeaderSlices(m, BigEndian(HeaderCrc(m), 4));
    FlippedKeeps(e, h, at, d, 0, 4);
    FlippedKeeps(e, h, at, d, 4, 6);
    FlippedKeeps(e, h, at, d, 6, 8);
    FlippedKeeps(e, h, at, d, 8, 10);
    assert e[8] == e[8..10][0] && h[8] == h[8..10][0] && e[9] == e[8..10][1] && h[9] == h[8..10][1];
    FlippedKeeps(e, h, at, d, 10, 12);
    FlippedKeeps(e, h, at, d, 12, 20);
    FlippedKeeps(e, h, at, d, 20, 28);
    FlippedKeeps(e, h, at, d, 28, 60);
    FlippedKeeps(e, h, at, d, 60, 62);
    FlippedKeeps(e, h, at, d, 98, 128);
    RenamedOid(e, h, m.primaryOid);
    HeaderAssembles(h, Renamed(m, h));
  }

  lemma RenamedOid(e: seq<byte>, h: seq<byte>, oid: Oid)
    requires |e| == |h| == RECORD_HEADER_LEN && oid.algorithm == Sha256
    requires e[60..94] == OidFixed(oid) && e[60..62] == h[60..62]
    ensures h[60..94] == OidFixed(GitOid(Sha256, h[62..94]))
  {
    assert e[60..62] == e[60..94][..2];
    assert h[60..94] == h[60..62] + h[62..94];
  }

  lemma RenamedDecodes(m: RecordMetadata, h: seq<byte>, k: nat, d: seq<byte>)
    requires 1 <= k <= 3 && |d| == 4 && Flipped(EncodedHeader(m), h, 94 - k, d)
    requires m.primaryOid.algorithm == Sha256 && Unnoticed(d, k, 34)
    ensures DecodeHeader(h) == Ok(Renamed(m, h))
  {
    hide Crc, XorBytes, BigEndian, Header, Unnoticed, DecodeHeader, Flipped;
    HeaderStraddle(m, h, k, d);
    RenamedFields(m, h, k, d);
    ZeroedHeader(Renamed(m, h), h[94..98]);
    assert h == EncodedHeader(Renamed(m, h));
    HeaderRoundTrip(Renamed(m, h));
  }

  lemma ReachesZeroed(e: seq<byte>, h: seq<byte>, from: nat)
    requires |e| == RECORD_HEADER_LEN && Burst(e, h, from) && e[94..98] == h[94..98]
    ensures Burst(ZeroField(e, RECORD_CRC_OFFSET), ZeroField(h, RECORD_CRC_OFFSET), from)
  {
    var k :| 0 <= k < |e| && e[k] != h[k];
    assert e[94..98][0] == e[94] && e[94..98][1] == e[95] && e[94..98][2] == e[96] && e[94..98][3] == e[97];
    assert h[94..98][0] == h[94] && h[94..98][1] == h[95] && h[94..98][2] == h[96] && h[94..98][3] == h[97];
    assert ZeroField(e, RECORD_CRC_OFFSET)[k] == e[k];
    assert ZeroField(h, RECORD_CRC_OFFSET)[k] == h[k];
  }

  // A burst that does not reach from the covered bytes into the checksum after them is rejected.
  lemma HeaderBurstElsewhere(m: RecordMetadata, h: seq<byte>, from: nat)
    requires Burst(EncodedHeader(m), h, from) && !(91 <= from < 94)
    ensures DecodeHeader(h).Err?
  {
    hide Crc, EncodedHeader, DecodeHeader, BigEndian, ZeroField;
    var e := EncodedHeader(m);
    if DecodeHeader(h).Ok? {
      HeaderStores(m);
      HeaderChecks(h);
      HeaderFields(h);
      if from < 91 {
        assert e[94..98] == h[94..98];
        ReachesZeroed(e, h, from);
        BurstChangesCrc(ZeroField(e, RECORD_CRC_OFFSET), ZeroField(h, RECORD_CRC_OFFSET), from);
        SameField(e[94..98], Crc(ZeroField(e, RECORD_CRC_OFFSET)), Crc(ZeroField(h, RECORD_CRC_OFFSET)));
      } else {
        assert e[..94] == h[..94];
        ZeroFieldParts(e, 0);
        ZeroFieldParts(h, 0);
      }
    }
  }

  lemma SameField(field: seq<byte>, a: nat, b: nat)
    requires a <= U32_MAX && b <= U32_MAX && field == BigEndian(a, 4) && field == BigEndian(b, 4)
    ensures a == b
  {
    Pow256Widths();
    DecodeBigEndian(a, 4);
    DecodeBigEndian(b, 4);
  }

  lemma UnnoticedInHeader(e: seq<byte>, h: seq<byte>, k: nat, d: seq<byte>)
    requires 1 <= k <= 3 && |d| == 4 && d != [0, 0, 0, 0] && Flipped(e, h, 94 - k, d) && Unnoticed(d, k, 34)
    ensures HeaderSlip(e, h) && d[0] != 0
  {
    hide Flipped, Unnoticed;
    if k == 1 {
      OneBeforeZeros(d);
    } else if k == 2 {
      TwoBeforeZeros(d);
    } else {
      ThreeBeforeZeros(d);
    }
  }

  lemma AcceptedHeaderSlipped(m: RecordMetadata, h: seq<byte>, from: nat)
    requires Burst(EncodedHeader(m), h, from) && DecodeHeader(h).Ok?
    ensures m.primaryOid.algorithm == Sha256 && HeaderSlip(EncodedHeader(m), h)
  {
    hide Crc, EncodedHeader, DecodeHeader, BigEndian, ZeroField, XorBytes, Unnoticed, HeaderSlip, Flipped;
    if !(91 <= from < 94) {
      HeaderBurstElsewhere(m, h, from);
    } else {
      var e, k := EncodedHeader(m), 94 - from;
      BurstFlips(e, h, from);
      var d := XorBytes(e[from..from + 4], h[from..from + 4]);
      HeaderChecks(h);
      HeaderStraddle(m, h, k, d);
      UnnoticedInHeader(e, h, k, d);
      if m.primaryOid.algorithm == Sha1 {
        PaddingStays(m, h, k, d);
      }
    }
  }

  lemma SlippedHeaderDecodes(m: RecordMetadata, h: seq<byte>)
    requires m.primaryOid.algorithm == Sha256 && HeaderSlip(EncodedHeader(m), h)
    ensures DecodeHeader(h) == Ok(Renamed(m, h))
  {
    hide Crc, EncodedHeader, DecodeHeader, XorBytes, Unnoticed, Flipped;
    var e := EncodedHeader(m);
    SlipsUnnoticed();
    if Flipped(e, h, 93, [0x0f, 0xee, 0x89, 0x25]) {
      RenamedDecodes(m, h, 1, [0x0f, 0xee, 0x89, 0x25]);
    } else if Flipped(e, h, 92, [0xce, 0x39, 0x78, 0x07]) {
      RenamedDecodes(m, h, 2, [0xce, 0x39, 0x78, 0x07]);
    } else if Flipped(e, h, 92, [0x52, 0x4a, 0x88, 0x09]) {
      RenamedDecodes(m, h, 2, [0x52, 0x4a, 0x88, 0x09]);
    } else if Flipped(e, h, 92, [0x9c, 0x73, 0xf0, 0x0e]) {
      RenamedDecodes(m, h, 2, [0x9c, 0x73, 0xf0, 0x0e]);
    } else if Flipped(e, h, 91, [0xa9, 0x74, 0x15, 0x62]) {
      RenamedDecodes(m, h, 3, [0xa9, 0x74, 0x15, 0x62]);
    } else if Flipped(e, h, 91, [0x52, 0xe9, 0x2a, 0xc4]) {
      RenamedDecodes(m, h, 3, [0x52, 0xe9, 0x2a, 0xc4]);
    } else {
      RenamedDecodes(m, h, 3, [0xfb, 0x9d, 0x3f, 0xa6]);
    }
  }

  lemma SlipsUnnoticed()
    ensures Unnoticed([0x0f, 0xee, 0x89, 0x25], 1, 34)
    ensures Unnoticed([0xce, 0x39, 0x78, 0x07], 2, 34) && Unnoticed([0x52, 0x4a, 0x88, 0x09], 2, 34)
    ensures Unnoticed([0x9c, 0x73, 0xf0, 0x0e], 2, 34)
    ensures Unnoticed([0xa9, 0x74, 0x15, 0x62], 3, 34) && Unnoticed([0x52, 0xe9, 0x2a, 0xc4], 3, 34)
    ensures Unnoticed([0xfb, 0x9d, 0x3f, 0xa6], 3, 34)
  {
    hide Unnoticed;
    OneBeforeZeros([0x0f, 0xee, 0x89, 0x25]);
    TwoBeforeZeros([0xce, 0x39, 0x78, 0x07]);
    TwoBeforeZeros([0x52, 0x4a, 0x88, 0x09]);
    TwoBeforeZeros([0x9c, 0x73, 0xf0, 0x0e]);
    ThreeBeforeZeros([0xa9, 0x74, 0x15, 0x62]);
    ThreeBeforeZeros([0x52, 0xe9, 0x2a, 0xc4]);
    ThreeBeforeZeros([0xfb, 0x9d, 0x3f, 0xa6]);
  }

  // A header changed within four consecutive bytes is rejected, except for seven differences
  // across the end of a SHA-256 object ID and the checksum after it.
  lemma HeaderBurst(m: RecordMetadata, h: seq<byte>, from: nat)
    requires Burst(EncodedHeader(m), h, from)
    ensures DecodeHeader(h).Ok? <==> m.primaryOid.algorithm == Sha256 && HeaderSlip(EncodedHeader(m), h)
    ensures DecodeHeader(h).Ok? ==> DecodeHeader(h).value == Renamed(m, h)
  {
    hide Crc, EncodedHeader, DecodeHeader, HeaderSlip;
    if DecodeHeader(h).Ok? {
      AcceptedHeaderSlipped(m, h, from);
    }
    if m.primaryOid.algorithm == Sha256 && HeaderSlip(EncodedHeader(m), h) {
      SlippedHeaderDecodes(m, h);
    }
  }

  // ---------- Records ----------

  function PayloadEnd(r: ObjectRecord): nat { RECORD_HEADER_LEN + |r.payload| }

  // The two differences that reach from a payload into its checksum unnoticed.
  predicate PayloadSlip(r: ObjectRecord, e: seq<byte>, s: seq<byte>) {
    || (|r.payload| >= 1 && Flipped(e, s, PayloadEnd(r) - 1, [0x5d, 0xee, 0x0d, 0x96]))
    || (|r.payload| >= 2 && Flipped(e, s, PayloadEnd(r) - 2, [0x4d, 0x90, 0xad, 0x83]))
  }

  lemma RecordStores(r: ObjectRecord)
    requires Encode(r).Ok?
    ensures var e, f, total := Encoded(r), PayloadEnd(r), TotalLength(r.payload);
            && f + 4 <= total <= |e|
            && e[..RECORD_HEADER_LEN] == EncodedHeader(Metadata(r)) && e[RECORD_HEADER_LEN..f] == r.payload
            && e[f..f + 4] == BigEndian(Crc(r.payload), 4) && e[f + 4..f + 12] == BigEndian(total, 8)
            && e[f + 12..total] == RECORD_END_MAGIC && e[total..|e|] == Zeros(|e| - total)
  {
    hide Crc, EncodedHeader, BigEndian, Align;
    EncodedSlices(r, []);
    assert Encoded(r) + [] == Encoded(r);
  }

  lemma PayloadStraddle(r: ObjectRecord, s: seq<byte>, k: nat, d: seq<byte>)
    requires Encode(r).Ok? && 1 <= k <= 3 && k <= |r.payload| && |d| == 4
    requires Flipped(Encoded(r), s, PayloadEnd(r) - k, d)
    ensures var f := PayloadEnd(r);
            f + 4 <= |s| &&
            (s[f..f + 4] == BigEndian(Crc(s[RECORD_HEADER_LEN..f]), 4) <==> Unnoticed(d, k, 0))
  {
    hide Crc, EncodedHeader, BigEndian, Align, Encoded, XorBytes, Unnoticed, WindowDifferenceOf;
    var e, f := Encoded(r), PayloadEnd(r);
    RecordStores(r);
    FlippedAcross(e, s, f, k, d);
    FlippedKeeps(e, s, f - k, d, RECORD_HEADER_LEN, f - k);
    var p, v, w := e[RECORD_HEADER_LEN..f - k], e[f - k..f], s[f - k..f];
    assert p + v + [] == r.payload && p + w + [] == s[RECORD_HEADER_LEN..f];
    WindowMatches(p, v, w, [], e[f..f + 4], s[f..f + 4]);
  }

  lemma PayloadSlipDecodes(r: ObjectRecord, s: seq<byte>, k: nat, d: seq<byte>, tail: seq<byte>)
    requires Encode(r).Ok? && 1 <= k <= 3 && k <= |r.payload| && |d| == 4
    requires Flipped(Encoded(r), s, PayloadEnd(r) - k, d) && Unnoticed(d, k, 0)
    ensures PayloadEnd(r) <= |s|
    ensures Decode(s + tail) == Ok((r.(payload := s[RECORD_HEADER_LEN..PayloadEnd(r)]), |s|))
  {
    hide Crc, EncodedHeader, BigEndian, Align, Encoded, XorBytes, Unnoticed, Decode, Flipped, Zeros;
    var e, f, total := Encoded(r), PayloadEnd(r), TotalLength(r.payload);
    RecordStores(r);
    PayloadStraddle(r, s, k, d);
    FlippedLength(e, s, f - k, d);
    var q := r.(payload := s[RECORD_HEADER_LEN..f]);
    FlippedKeeps(e, s, f - k, d, 0, RECORD_HEADER_LEN);
    FlippedKeeps(e, s, f - k, d, f + 4, f + 12);
    FlippedKeeps(e, s, f - k, d, f + 12, total);
    FlippedKeeps(e, s, f - k, d, total, |e|);
    RecordAssembles(s, q);
    assert s[..|s|] == s;
    DecodeUndoesEncode(q, tail);
  }

  lemma FlippedLifts(e: seq<byte>, s: seq<byte>, at: nat, d: seq<byte>)
    requires |e| == |s| && at + |d| <= RECORD_HEADER_LEN <= |e|
    ensures Flipped(e, s, at, d) <==>
            && Flipped(e[..RECORD_HEADER_LEN], s[..RECORD_HEADER_LEN], at, d)
            && e[RECORD_HEADER_LEN..] == s[RECORD_HEADER_LEN..]
  {
    hide XorBytes;
    var eh, sh, end := e[..RECORD_HEADER_LEN], s[..RECORD_HEADER_LEN], at + |d|;
    assert eh[..at] == e[..at] && sh[..at] == s[..at];
    assert eh[at..end] == e[at..end] && sh[at..end] == s[at..end];
    assert e[end..] == eh[end..] + e[RECORD_HEADER_LEN..] && s[end..] == sh[end..] + s[RECORD_HEADER_LEN..];
    assert e[end..][..RECORD_HEADER_LEN - end] == eh[end..] && s[end..][..RECORD_HEADER_LEN - end] == sh[end..];
    assert e[end..][RECORD_HEADER_LEN - end..] == e[RECORD_HEADER_LEN..];
    assert s[end..][RECORD_HEADER_LEN - end..] == s[RECORD_HEADER_LEN..];
  }

  lemma HeaderSlipLifts(e: seq<byte>, s: seq<byte>)
    requires |e| == |s| && RECORD_HEADER_LEN <= |e|
    ensures HeaderSlip(e, s) <==>
            && HeaderSlip(e[..RECORD_HEADER_LEN], s[..RECORD_HEADER_LEN])
            && e[RECORD_HEADER_LEN..] == s[RECORD_HEADER_LEN..]
  {
    hide Flipped;
    FlippedLifts(e, s, 93, [0x0f, 0xee, 0x89, 0x25]);
    FlippedLifts(e, s, 92, [0xce, 0x39, 0x78, 0x07]);
    FlippedLifts(e, s, 92, [0x52, 0x4a, 0x88, 0x09]);
    FlippedLifts(e, s, 92, [0x9c, 0x73, 0xf0, 0x0e]);
    FlippedLifts(e, s, 91, [0xa9, 0x74, 0x15, 0x62]);
    FlippedLifts(e, s, 91, [0x52, 0xe9, 0x2a, 0xc4]);
    FlippedLifts(e, s, 91, [0xfb, 0x9d, 0x3f, 0xa6]);
  }

  lemma HeaderSlipDecodes(r: ObjectRecord, s: seq<byte>, tail: seq<byte>)
    requires Encode(r).Ok? && |s| == |Encoded(r)| && HeaderSlip(Encoded(r), s)
    requires r.primaryOid.algorithm == Sha256
    ensures Decode(s + tail) == Ok((r.(primaryOid := GitOid(Sha256, s[62..94])), |s|))
  {
    hide Crc, EncodedHeader, BigEndian, Align, Encoded, Decode, HeaderSlip, DecodeHeader;
    var e, f, total, h := Encoded(r), PayloadEnd(r), TotalLength(r.payload), s[..RECORD_HEADER_LEN];
    RecordStores(r);
    HeaderSlipLifts(e, s);
    SlippedHeaderDecodes(Metadata(r), h);
    HeaderCanonical(h);
    assert h[62..94] == s[62..94];
    var q := r.(primaryOid := GitOid(Sha256, s[62..94]));
    SameAfterHeader(e, s, RECORD_HEADER_LEN, f);
    SameAfterHeader(e, s, f, f + 4);
    SameAfterHeader(e, s, f + 4, f + 12);
    SameAfterHeader(e, s, f + 12, total);
    SameAfterHeader(e, s, total, |e|);
    RecordAssembles(s, q);
    assert s[..|s|] == s;
    DecodeUndoesEncode(q, tail);
  }

  lemma SameAfterHeader(e: seq<byte>, s: seq<byte>, lo: nat, hi: nat)
    requires |e| == |s| && RECORD_HEADER_LEN <= lo <= hi <= |e|
    requires e[RECORD_HEADER_LEN..] == s[RECORD_HEADER_LEN..]
    ensures e[lo..hi] == s[lo..hi]
  {
    var n := RECORD_HEADER_LEN;
    assert e[lo..hi] == e[n..][lo - n..hi - n] && s[lo..hi] == s[n..][lo - n..hi - n];
  }

  // A burst in the payload alone moves its checksum away from the stored one.
  lemma PayloadBurst(e: seq<byte>, s: seq<byte>, from: nat, f: nat)
    requires RECORD_HEADER_LEN <= f && f + 4 <= |e| && Burst(e, s, from) && from + 4 <= f
    requires e[RECORD_HEADER_LEN..f] != s[RECORD_HEADER_LEN..f]
    ensures Crc(e[RECORD_HEADER_LEN..f]) != Crc(s[RECORD_HEADER_LEN..f]) && s[f..f + 4] == e[f..f + 4]
  {
    hide Crc;
    var p, q := e[RECORD_HEADER_LEN..f], s[RECORD_HEADER_LEN..f];
    BurstChangesCrc(p, q, if from < RECORD_HEADER_LEN then 0 else from - RECORD_HEADER_LEN);
  }

  // With the header as it was, a burst that changes the payload starts inside it.
  lemma BurstInPayload(e: seq<byte>, s: seq<byte>, from: nat, f: nat) returns (k: nat)
    requires RECORD_HEADER_LEN <= f && f + 4 <= |e| && Burst(e, s, from) && from + 4 > f
    requires e[..RECORD_HEADER_LEN] == s[..RECORD_HEADER_LEN] && e[RECORD_HEADER_LEN..f] != s[RECORD_HEADER_LEN..f]
    ensures 1 <= k <= 3 && k <= f - RECORD_HEADER_LEN && Burst(e, s, f - k)
  {
    var i :| RECORD_HEADER_LEN <= i < f && e[i] != s[i];
    k := if from < RECORD_HEADER_LEN then f - RECORD_HEADER_LEN else f - from;
    forall j | 0 <= j < |e| && !(f - k <= j < f - k + 4)
      ensures e[j] == s[j]
    {
      if j < RECORD_HEADER_LEN {
        assert e[..RECORD_HEADER_LEN][j] == s[..RECORD_HEADER_LEN][j];
      }
    }
  }

  lemma UnnoticedInPayload(r: ObjectRecord, e: seq<byte>, s: seq<byte>, k: nat, d: seq<byte>)
    requires 1 <= k <= 3 && k <= |r.payload| && |d| == 4 && d != [0, 0, 0, 0]
    requires Flipped(e, s, PayloadEnd(r) - k, d) && Unnoticed(d, k, 0)
    ensures PayloadSlip(r, e, s)
  {
    hide Flipped, Unnoticed;
    if k == 1 {
      OneBefore(d);
    } else if k == 2 {
      TwoBefore(d);
    } else {
      ThreeBefore(d);
    }
  }

  lemma AcceptedPayloadSlipped(r: ObjectRecord, s: seq<byte>, from: nat, payload: seq<byte>)
    requires Encode(r).Ok? && Burst(Encoded(r), s, from)
    requires s[..RECORD_HEADER_LEN] == EncodedHeader(Metadata(r)) && payload != r.payload
    requires var f := PayloadEnd(r);
             && f + 4 <= |s| && s[RECORD_HEADER_LEN..f] == payload && s[f..f + 4] == BigEndian(Crc(payload), 4)
    ensures PayloadSlip(r, Encoded(r), s)
  {
    hide Crc, EncodedHeader, BigEndian, Align, Encoded, XorBytes, Unnoticed, Flipped, PayloadSlip;
    var e, f := Encoded(r), PayloadEnd(r);
    RecordStores(r);
    if from + 4 <= f {
      PayloadBurst(e, s, from, f);
      SameField(s[f..f + 4], Crc(r.payload), Crc(payload));
    } else {
      var k := BurstInPayload(e, s, from, f);
      StraddleSlipped(r, s, k);
    }
  }

  lemma StraddleSlipped(r: ObjectRecord, s: seq<byte>, k: nat)
    requires Encode(r).Ok? && 1 <= k <= 3 && k <= |r.payload| && Burst(Encoded(r), s, PayloadEnd(r) - k)
    requires var f := PayloadEnd(r); f + 4 <= |s| && s[f..f + 4] == BigEndian(Crc(s[RECORD_HEADER_LEN..f]), 4)
    ensures PayloadSlip(r, Encoded(r), s)
  {
    hide Crc, BigEndian, Align, Encoded, XorBytes, Unnoticed, Flipped, PayloadSlip;
    var e, at := Encoded(r), PayloadEnd(r) - k;
    BurstFlips(e, s, at);
    var d := XorBytes(e[at..at + 4], s[at..at + 4]);
    PayloadStraddle(r, s, k, d);
    UnnoticedInPayload(r, e, s, k, d);
  }

  // An accepted string whose header is `r`'s has `r`'s lengths.
  lemma AcceptedWithHeader(r: ObjectRecord, s: seq<byte>)
    requires Encode(r).Ok? && Decode(s).Ok? && s[..RECORD_HEADER_LEN] == EncodedHeader(Metadata(r))
    ensures var (q, n) := Decode(s).value;
            && n == |Encoded(r)| <= |s| && Encode(q) == Ok(s[..n])
            && q == r.(payload := q.payload) && |q.payload| == |r.payload|
            && s[RECORD_HEADER_LEN..RECORD_HEADER_LEN + |r.payload|] == q.payload
            && s[RECORD_HEADER_LEN + |r.payload|..][..4] == BigEndian(Crc(q.payload), 4)
  {
    hide Crc, DecodeHeader, EncodedHeader;
    HeaderRoundTrip(Metadata(r));
    EncodeUndoesDecode(s);
    var (q, n) := Decode(s).value;
    EncodedSlices(q, s[n..]);
    assert Encoded(q) + s[n..] == s;
  }

  lemma AcceptedSameHeader(r: ObjectRecord, s: seq<byte>, from: nat, tail: seq<byte>)
    requires Encode(r).Ok? && Burst(Encoded(r), s, from) && Decode(s + tail).Ok?
    requires s[..RECORD_HEADER_LEN] == EncodedHeader(Metadata(r))
    ensures PayloadSlip(r, Encoded(r), s)
  {
    hide Crc, DecodeHeader, EncodedHeader, BigEndian, Align, Encoded, PayloadSlip, Decode;
    var f, t := PayloadEnd(r), s + tail;
    RecordStores(r);
    assert t[..RECORD_HEADER_LEN] == s[..RECORD_HEADER_LEN];
    AcceptedWithHeader(r, t);
    var (q, n) := Decode(t).value;
    assert t[..n] == s;
    assert t[RECORD_HEADER_LEN..f] == s[RECORD_HEADER_LEN..f];
    assert t[f..][..4] == s[f..f + 4];
    AcceptedPayloadSlipped(r, s, from, q.payload);
  }

  lemma AcceptedOtherHeader(r: ObjectRecord, s: seq<byte>, from: nat)
    requires Encode(r).Ok? && Burst(Encoded(r), s, from) && s[..RECORD_HEADER_LEN] != EncodedHeader(Metadata(r))
    requires DecodeHeader(s[..RECORD_HEADER_LEN]).Ok?
    ensures r.primaryOid.algorithm == Sha256 && HeaderSlip(Encoded(r), s)
  {
    hide Crc, DecodeHeader, EncodedHeader, BigEndian, Align, Encoded, HeaderSlip;
    var e, h := Encoded(r), s[..RECORD_HEADER_LEN];
    RecordStores(r);
    assert Burst(EncodedHeader(Metadata(r)), h, from);
    if !(91 <= from < 94) {
      HeaderBurstElsewhere(Metadata(r), h, from);
    }
    AcceptedHeaderSlipped(Metadata(r), h, from);
    assert e[RECORD_HEADER_LEN..] == s[RECORD_HEADER_LEN..];
    HeaderSlipLifts(e, s);
  }

  lemma AcceptedRecordSlipped(r: ObjectRecord, s: seq<byte>, from: nat, tail: seq<byte>)
    requires Encode(r).Ok? && Burst(Encoded(r), s, from) && Decode(s + tail).Ok?
    ensures PayloadSlip(r, Encoded(r), s) || (r.primaryOid.algorithm == Sha256 && HeaderSlip(Encoded(r), s))
  {
    hide Crc, DecodeHeader, EncodedHeader, BigEndian, Align, Encoded, PayloadSlip, HeaderSlip;
    assert (s + tail)[..RECORD_HEADER_LEN] == s[..RECORD_HEADER_LEN];
    if s[..RECORD_HEADER_LEN] == EncodedHeader(Metadata(r)) {
      AcceptedSameHeader(r, s, from, tail);
    } else {
      AcceptedOtherHeader(r, s, from);
    }
  }

  // A record changed within four consecutive bytes is rejected, wherever the change falls and
  // whatever follows, except for two differences across the end of the payload and its checksum
  // and the seven in a header with a SHA-256 object ID.
  lemma RecordBurst(r: ObjectRecord, s: seq<byte>, from: nat, tail: seq<byte>)
    requires Encode(r).Ok? && Burst(Encoded(r), s, from)
    ensures Decode(s + tail).Ok? <==>
            || PayloadSlip(r, Encoded(r), s)
            || (r.primaryOid.algorithm == Sha256 && HeaderSlip(Encoded(r), s))
  {
    hide Crc, Decode, Encoded, Flipped, HeaderSlip, Unnoticed;
    var e, f := Encoded(r), PayloadEnd(r);
    if Decode(s + tail).Ok? {
      AcceptedRecordSlipped(r, s, from, tail);
    }
    if r.primaryOid.algorithm == Sha256 && HeaderSlip(e, s) {
      HeaderSlipDecodes(r, s, tail);
    }
    OneBefore([0x5d, 0xee, 0x0d, 0x96]);
    TwoBefore([0x4d, 0x90, 0xad, 0x83]);
    if |r.payload| >= 1 && Flipped(e, s, f - 1, [0x5d, 0xee, 0x0d, 0x96]) {
      PayloadSlipDecodes(r, s, 1, [0x5d, 0xee, 0x0d, 0x96], tail);
    }
    if |r.payload| >= 2 && Flipped(e, s, f - 2, [0x4d, 0x90, 0xad, 0x83]) {
      PayloadSlipDecodes(r, s, 2, [0x4d, 0x90, 0xad, 0x83], tail);
    }
  }

  // Every record with a payload has a four-byte change that decodes to another payload.
  lemma SomeBurstAccepted(r: ObjectRecord, tail: seq<byte>)
    requires Encode(r).Ok? && |r.payload| >= 1
    ensures var e, f := Encoded(r), PayloadEnd(r);
            && f + 3 <= |e|
            && var s := Flip(e, f - 1, [0x5d, 0xee, 0x0d, 0x96]);
               && Burst(e, s, f - 1)
               && Decode(s + tail).Ok? && Decode(s + tail).value.0.payload != r.payload
  {
    hide Crc, Decode, Encoded, Flip, Unnoticed, XorBytes, BigEndian, EncodedHeader, Align;
    var e, f := Encoded(r), PayloadEnd(r);
    RecordStores(r);
    var s := Flip(e, f - 1, [0x5d, 0xee, 0x0d, 0x96]);
    OneBefore([0x5d, 0xee, 0x0d, 0x96]);
    PayloadSlipDecodes(r, s, 1, [0x5d, 0xee, 0x0d, 0x96], tail);
    LastByteDiffers(e, s, f - 1);
    assert e[RECORD_HEADER_LEN..f][|r.payload| - 1] == e[f - 1];
    assert s[RECORD_HEADER_LEN..f][|r.payload| - 1] == s[f - 1];
  }

  lemma LastByteDiffers(a: seq<byte>, b: seq<byte>, at: nat)
    requires Flipped(a, b, at, [0x5d, 0xee, 0x0d, 0x96])
    ensures a[at] != b[at] && Burst(a, b, at)
  {
    hide XorBytes, XorByte;
    assert XorBytes(a[at..at + 4], b[at..at + 4])[0] == XorByte(a[at], b[at]);
    XorByteSelf(a[at]);
    forall i | 0 <= i < |a| && !(at <= i < at + 4)
      ensures a[i] == b[i]
    {
      if i < at {
        assert a[..at][i] == b[..at][i];
      } else {
        assert a[at + 4..][i - at - 4] == b[at + 4..][i - at - 4];
      }
    }
  }
}
