/** Cold-tier checkpoint descriptors (crates/reflink-forest-backup). */
module ColdDescriptor {
  import opened Bytes
  import opened Core
  import opened BackupManifest

  const DESCRIPTOR_MAGIC: seq<byte> := [82, 70, 67, 79, 76, 68, 48, 49]
  const DESCRIPTOR_HEADER_LEN := 22
  const CHUNK_LEN := 24
  const DIGESTS_LEN := 96
  const CHECKSUM_LEN := 32
  const MAX_CHUNKS := 1000000
  const MAX_DESCRIPTOR_BYTES := DESCRIPTOR_HEADER_LEN + MAX_CHUNKS * CHUNK_LEN + DIGESTS_LEN + CHECKSUM_LEN
  const CHUNK_HEADER_LEN := 64

  datatype Classification = Open | Sealed

  datatype Chunk = Chunk(generation: u32, chunkId: u64, classification: Classification, validPrefix: u64)

  datatype Descriptor = Descriptor(
    schema: u32,
    active: u32,
    chunks: seq<Chunk>,
    catalogDigest: Sha256,
    configDigest: Sha256,
    pinsDigest: Sha256)

  predicate Before(a: Chunk, b: Chunk) {
    a.generation < b.generation || (a.generation == b.generation && a.chunkId < b.chunkId)
  }

  predicate ValidDescriptor(d: Descriptor) {
    && |d.chunks| <= MAX_CHUNKS
    && (forall i :: 0 < i < |d.chunks| ==> Before(d.chunks[i - 1], d.chunks[i]))
    && (forall i :: 0 <= i < |d.chunks| ==> d.chunks[i].validPrefix >= CHUNK_HEADER_LEN)
  }

  // A valid descriptor lists every chunk once, in order of generation and number, each longer than
  // its header.
  lemma {:induction false} ChunksAreOrdered(d: Descriptor, i: nat, j: nat)
    requires ValidDescriptor(d) && i < j < |d.chunks|
    ensures var a, b := d.chunks[i], d.chunks[j];
            && (a.generation < b.generation || (a.generation == b.generation && a.chunkId < b.chunkId))
            && a.validPrefix >= 64 && b.validPrefix >= 64
  {
    if i < j - 1 {
      ChunksAreOrdered(d, i, j - 1);
    }
  }

  // ---------- Layout ----------

  function Tag(c: Classification): byte { if c == Open then 1 else 2 }

  lemma StableTags()
    ensures Tag(Open) == 1 && Tag(Sealed) == 2
  {
  }

  function ChunkBytes(c: Chunk): (s: seq<byte>)
    ensures |s| == CHUNK_LEN
  {
    BigEndian(c.generation, 4) + BigEndian(c.chunkId, 8) + ([Tag(c.classification)] + Zeros(3)) + BigEndian(c.validPrefix, 8)
  }

  function ChunksBytes(chunks: seq<Chunk>): (s: seq<byte>)
    ensures |s| == CHUNK_LEN * |chunks|
  {
    if chunks == [] then [] else ChunkBytes(chunks[0]) + ChunksBytes(chunks[1..])
  }

  function Header(d: Descriptor): (s: seq<byte>)
    ensures |s| == DESCRIPTOR_HEADER_LEN
  {
    DESCRIPTOR_MAGIC + BigEndian(1, 2) + (BigEndian(d.schema, 4) + BigEndian(d.active, 4) + BigEndian(|d.chunks|, 4))
  }

  function Digests(d: Descriptor): (s: seq<byte>)
    ensures |s| == DIGESTS_LEN
  {
    d.catalogDigest + d.configDigest + d.pinsDigest
  }

  function Body(d: Descriptor): seq<byte> { Header(d) + ChunksBytes(d.chunks) + Digests(d) }

  function EncodeDescriptor(digest: Digest, d: Descriptor): Option<seq<byte>> {
    if ValidDescriptor(d) then Some(Body(d) + digest(Body(d))) else None
  }

  function ParseChunk(p: seq<byte>, offset: nat): Option<Chunk>
    requires offset + CHUNK_LEN <= |p|
  {
    Pow256Widths();
    if p[offset + 12] !in {1, 2} || p[offset + 13..offset + 16] != Zeros(3) then None
    else Some(Chunk(Number(p, offset, 4), Number(p, offset + 4, 8), if p[offset + 12] == 1 then Open else Sealed,
                    Number(p, offset + 16, 8)))
  }

  function ParseChunks(p: seq<byte>, offset: nat, count: nat): Option<seq<Chunk>>
    requires offset + count * CHUNK_LEN <= |p|
    decreases count
  {
    if count == 0 then Some([]) else
    var first := ParseChunk(p, offset);
    if first.None? then None else
    var rest := ParseChunks(p, offset + CHUNK_LEN, count - 1);
    if rest.None? then None else Some([first.value] + rest.value)
  }

  function DecodeDescriptor(digest: Digest, bytes: seq<byte>): Option<Descriptor> {
    if |bytes| < DESCRIPTOR_HEADER_LEN + DIGESTS_LEN + CHECKSUM_LEN || |bytes| > MAX_DESCRIPTOR_BYTES then None else
    var p := bytes[..|bytes| - CHECKSUM_LEN];
    if digest(p) != bytes[|bytes| - CHECKSUM_LEN..] || p[..8] != DESCRIPTOR_MAGIC || Number(p, 8, 2) != 1 then None else
    Pow256Widths();
    var schema, active, count := Number(p, 10, 4), Number(p, 14, 4), Number(p, 18, 4);
    var end := DESCRIPTOR_HEADER_LEN + count * CHUNK_LEN;
    if count > MAX_CHUNKS || |p| != end + DIGESTS_LEN then None else
    var chunks := ParseChunks(p, DESCRIPTOR_HEADER_LEN, count);
    if chunks.None? then None else
    var d := Descriptor(schema, active, chunks.value, p[end..end + 32], p[end + 32..end + 64], p[end + 64..]);
    if ValidDescriptor(d) then Some(d) else None
  }

  // ---------- The codec is exact ----------

  lemma ChunkRoundTrip(c: Chunk, before: seq<byte>, after: seq<byte>)
    ensures ParseChunk(before + ChunkBytes(c) + after, |before|) == Some(c)
  {
    hide BigEndian, FromBigEndian, Pow256;
    var p, o, s := before + ChunkBytes(c) + after, |before|, ChunkBytes(c);
    Pow256Widths();
    assert p[o..o + 24] == s;
    assert s[..4] == BigEndian(c.generation, 4) && s[4..12] == BigEndian(c.chunkId, 8) && s[12] == Tag(c.classification);
    assert s[13..16] == Zeros(3) && s[16..24] == BigEndian(c.validPrefix, 8);
    assert p[o..o + 4] == s[..4] && p[o + 4..o + 12] == s[4..12] && p[o + 12] == s[12];
    assert p[o + 13..o + 16] == s[13..16] && p[o + 16..o + 24] == s[16..24];
    DecodeBigEndian(c.generation, 4);
    DecodeBigEndian(c.chunkId, 8);
    DecodeBigEndian(c.validPrefix, 8);
  }

  lemma ChunkCanonical(p: seq<byte>, offset: nat)
    requires offset + CHUNK_LEN <= |p| && ParseChunk(p, offset).Some?
    ensures p[offset..offset + CHUNK_LEN] == ChunkBytes(ParseChunk(p, offset).value)
  {
    hide BigEndian, FromBigEndian, Pow256;
    EncodeBigEndian(p[offset..offset + 4]);
    EncodeBigEndian(p[offset + 4..offset + 12]);
    EncodeBigEndian(p[offset + 16..offset + 24]);
    assert p[offset..offset + 24] == p[offset..offset + 4] + p[offset + 4..offset + 12]
                                     + ([p[offset + 12]] + p[offset + 13..offset + 16]) + p[offset + 16..offset + 24];
  }

  lemma {:induction false} ChunksRoundTrip(chunks: seq<Chunk>, before: seq<byte>, after: seq<byte>)
    ensures ParseChunks(before + ChunksBytes(chunks) + after, |before|, |chunks|) == Some(chunks)
  {
    hide ChunkBytes, ParseChunk;
    if chunks != [] {
      var first, rest := chunks[0], chunks[1..];
      var p := before + ChunksBytes(chunks) + after;
      assert p == before + ChunkBytes(first) + (ChunksBytes(rest) + after);
      assert p == (before + ChunkBytes(first)) + ChunksBytes(rest) + after;
      ChunkRoundTrip(first, before, ChunksBytes(rest) + after);
      ChunksRoundTrip(rest, before + ChunkBytes(first), after);
      assert chunks == [first] + rest;
    }
  }

  lemma {:induction false} ChunksCanonical(p: seq<byte>, offset: nat, count: nat)
    requires offset + count * CHUNK_LEN <= |p| && ParseChunks(p, offset, count).Some?
    ensures var chunks := ParseChunks(p, offset, count).value;
            |chunks| == count && p[offset..offset + count * CHUNK_LEN] == ChunksBytes(chunks)
    decreases count
  {
    hide ChunkBytes, ParseChunk;
    if count > 0 {
      ChunkCanonical(p, offset);
      ChunksCanonical(p, offset + CHUNK_LEN, count - 1);
      var chunks := ParseChunks(p, offset, count).value;
      assert chunks[1..] == ParseChunks(p, offset + CHUNK_LEN, count - 1).value;
      var end := offset + count * CHUNK_LEN;
      assert p[offset..end] == p[offset..offset + CHUNK_LEN] + p[offset + CHUNK_LEN..end];
    }
  }

  lemma HeaderReads(d: Descriptor, rest: seq<byte>)
    requires |d.chunks| <= MAX_CHUNKS
    ensures var p := Header(d) + rest;
            && p[..8] == DESCRIPTOR_MAGIC && Number(p, 8, 2) == 1 && Number(p, 10, 4) == d.schema
            && Number(p, 14, 4) == d.active && Number(p, 18, 4) == |d.chunks|
  {
    hide BigEndian, FromBigEndian, Pow256;
    var p, h := Header(d) + rest, Header(d);
    var numbers := BigEndian(d.schema, 4) + BigEndian(d.active, 4) + BigEndian(|d.chunks|, 4);
    assert h[10..22] == numbers;
    assert numbers[..4] == BigEndian(d.schema, 4) && numbers[4..8] == BigEndian(d.active, 4) && numbers[8..12] == BigEndian(|d.chunks|, 4);
    assert p[..8] == DESCRIPTOR_MAGIC && p[8..10] == BigEndian(1, 2);
    assert p[10..14] == numbers[..4] && p[14..18] == numbers[4..8] && p[18..22] == numbers[8..12];
    Pow256Widths();
    DecodeBigEndian(1, 2);
    DecodeBigEndian(d.schema, 4);
    DecodeBigEndian(d.active, 4);
    DecodeBigEndian(|d.chunks|, 4);
  }

  lemma DecodeUndoesEncode(digest: Digest, d: Descriptor)
    requires ValidDescriptor(d)
    ensures EncodeDescriptor(digest, d).Some? && DecodeDescriptor(digest, EncodeDescriptor(digest, d).value) == Some(d)
  {
    hide Number, ChunksBytes, ParseChunks, Header, Before;
    var bytes, p := EncodeDescriptor(digest, d).value, Body(d);
    assert bytes[..|bytes| - CHECKSUM_LEN] == p && bytes[|bytes| - CHECKSUM_LEN..] == digest(p);
    assert p == Header(d) + (ChunksBytes(d.chunks) + Digests(d));
    HeaderReads(d, ChunksBytes(d.chunks) + Digests(d));
    ChunksRoundTrip(d.chunks, Header(d), Digests(d));
    var end := DESCRIPTOR_HEADER_LEN + |d.chunks| * CHUNK_LEN;
    assert p[end..] == Digests(d);
    assert p[end..end + 32] == d.catalogDigest && p[end + 32..end + 64] == d.configDigest && p[end + 64..] == d.pinsDigest;
    assert ParseChunks(p, DESCRIPTOR_HEADER_LEN, |d.chunks|) == Some(d.chunks);
    assert |bytes| <= MAX_DESCRIPTOR_BYTES;
  }

  lemma HeaderAssembles(p: seq<byte>, d: Descriptor)
    requires |p| >= DESCRIPTOR_HEADER_LEN && p[..8] == DESCRIPTOR_MAGIC && Number(p, 8, 2) == 1
    requires Number(p, 10, 4) == d.schema && Number(p, 14, 4) == d.active && Number(p, 18, 4) == |d.chunks|
    ensures p[..22] == Header(d)
  {
    hide BigEndian, FromBigEndian, Pow256;
    EncodeBigEndian(p[8..10]);
    EncodeBigEndian(p[10..14]);
    EncodeBigEndian(p[14..18]);
    EncodeBigEndian(p[18..22]);
    assert p[10..22] == p[10..14] + p[14..18] + p[18..22];
    assert p[..22] == p[..8] + p[8..10] + p[10..22];
  }

  lemma EncodeUndoesDecode(digest: Digest, bytes: seq<byte>)
    requires DecodeDescriptor(digest, bytes).Some?
    ensures EncodeDescriptor(digest, DecodeDescriptor(digest, bytes).value) == Some(bytes)
  {
    hide Number, ChunksBytes, ParseChunks, Header, Before;
    var d, p := DecodeDescriptor(digest, bytes).value, bytes[..|bytes| - CHECKSUM_LEN];
    var count := Number(p, 18, 4);
    var end := DESCRIPTOR_HEADER_LEN + count * CHUNK_LEN;
    ChunksCanonical(p, DESCRIPTOR_HEADER_LEN, count);
    HeaderAssembles(p, d);
    assert p[end..] == p[end..end + 32] + p[end + 32..end + 64] + p[end + 64..];
    assert p == p[..22] + p[22..end] + p[end..];
    assert Body(d) == p;
    assert bytes == p + bytes[|bytes| - CHECKSUM_LEN..];
  }

  // ---------- The encoder and the decoder as they run ----------

  method Validate(d: Descriptor) returns (ok: bool)
    ensures ok == ValidDescriptor(d)
  {
    if |d.chunks| > MAX_CHUNKS {
      return false;
    }
    for i := 0 to |d.chunks|
      invariant forall k :: 0 < k < i ==> Before(d.chunks[k - 1], d.chunks[k])
      invariant forall k :: 0 <= k < i ==> d.chunks[k].validPrefix >= CHUNK_HEADER_LEN
    {
      if i > 0 && !Before(d.chunks[i - 1], d.chunks[i]) {
        return false;
      }
      if d.chunks[i].validPrefix < CHUNK_HEADER_LEN {
        return false;
      }
    }
    return true;
  }

  method WriteDescriptor(digest: Digest, d: Descriptor) returns (result: Option<seq<byte>>)
    ensures result == EncodeDescriptor(digest, d)
  {
    hide BigEndian, ChunksBytes, ValidDescriptor;
    var valid := Validate(d);
    if !valid {
      return None;
    }
    var out := Header(d);
    assert d.chunks[0..] == d.chunks;
    for i := 0 to |d.chunks|
      invariant out + ChunksBytes(d.chunks[i..]) == Header(d) + ChunksBytes(d.chunks)
    {
      var c := d.chunks[i];
      ChunksFrom(d.chunks, i);
      out := out + BigEndian(c.generation, 4);
      out := out + BigEndian(c.chunkId, 8);
      out := out + [Tag(c.classification)];
      out := out + Zeros(3);
      out := out + BigEndian(c.validPrefix, 8);
    }
    NoChunks(d.chunks);
    assert out == Header(d) + ChunksBytes(d.chunks);
    out := out + d.catalogDigest;
    out := out + d.configDigest;
    out := out + d.pinsDigest;
    assert out == Body(d);
    return Some(out + digest(out));
  }

  lemma ChunksFrom(chunks: seq<Chunk>, i: nat)
    requires i < |chunks|
    ensures ChunksBytes(chunks[i..]) == ChunkBytes(chunks[i]) + ChunksBytes(chunks[i + 1..])
  {
    hide ChunkBytes;
    assert chunks[i..][1..] == chunks[i + 1..];
  }

  lemma NoChunks(chunks: seq<Chunk>)
    ensures ChunksBytes(chunks[|chunks|..]) == []
  {
  }

  method ReadDescriptor(digest: Digest, bytes: seq<byte>) returns (result: Option<Descriptor>)
    ensures result == DecodeDescriptor(digest, bytes)
  {
    hide FromBigEndian, ParseChunk, ValidDescriptor, Pow256;
    if |bytes| < DESCRIPTOR_HEADER_LEN + DIGESTS_LEN + CHECKSUM_LEN || |bytes| > MAX_DESCRIPTOR_BYTES {
      return None;
    }
    var p := bytes[..|bytes| - CHECKSUM_LEN];
    if digest(p) != bytes[|bytes| - CHECKSUM_LEN..] || p[..8] != DESCRIPTOR_MAGIC || Number(p, 8, 2) != 1 {
      return None;
    }
    Pow256Widths();
    var schema, active, count := Number(p, 10, 4), Number(p, 14, 4), Number(p, 18, 4);
    var end := DESCRIPTOR_HEADER_LEN + count * CHUNK_LEN;
    if count > MAX_CHUNKS || |p| != end + DIGESTS_LEN {
      return None;
    }
    var chunks: seq<Chunk>, offset := [], DESCRIPTOR_HEADER_LEN;
    ghost var whole := ParseChunks(p, DESCRIPTOR_HEADER_LEN, count);
    PrependNoChunk(whole);
    for i := 0 to count
      invariant offset == DESCRIPTOR_HEADER_LEN + i * CHUNK_LEN
      invariant whole == Prepend(chunks, ParseChunks(p, offset, count - i))
    {
      var chunk := ParseChunk(p, offset);
      if chunk.None? {
        return None;
      }
      PrependOneChunk(chunks, chunk.value, ParseChunks(p, offset + CHUNK_LEN, count - i - 1));
      chunks, offset := chunks + [chunk.value], offset + CHUNK_LEN;
    }
    assert chunks + [] == chunks;
    assert |p[end..end + 32]| == |p[end + 32..end + 64]| == |p[end + 64..]| == 32;
    var d := Descriptor(schema, active, chunks, p[end..end + 32], p[end + 32..end + 64], p[end + 64..]);
    var valid := Validate(d);
    return if valid then Some(d) else None;
  }

  ghost function Prepend(chunks: seq<Chunk>, rest: Option<seq<Chunk>>): Option<seq<Chunk>> {
    if rest.None? then None else Some(chunks + rest.value)
  }

  lemma PrependNoChunk(rest: Option<seq<Chunk>>)
    ensures Prepend([], rest) == rest
  {
    if rest.Some? {
      assert [] + rest.value == rest.value;
    }
  }

  lemma PrependOneChunk(chunks: seq<Chunk>, c: Chunk, rest: Option<seq<Chunk>>)
    ensures Prepend(chunks + [c], rest) == Prepend(chunks, Prepend([c], rest))
  {
    if rest.Some? {
      assert chunks + [c] + rest.value == chunks + ([c] + rest.value);
    }
  }
}
