/**
 * Error bursts that reach from the last bytes a CRC-32C covers into the stored checksum itself:
 * when the altered checksum still matches the altered bytes.
 */
module CrcStraddle {
  import opened Bytes
  import opened Crc32c

  // ---------- Differences of bytes ----------

  function XorBits(a: nat, b: nat, n: nat): (x: nat)
    ensures x < Pow2(n)
  {
    if n == 0 then 0 else 2 * XorBits(a / 2, b / 2, n - 1) + if a % 2 != b % 2 then 1 else 0
  }

  lemma ByteWidth()
    ensures Pow2(8) == 256
  {
    assert Pow2(2) == 4 && Pow2(4) == 16 && Pow2(6) == 64;
  }

  // The bits in which two bytes differ.
  function XorByte(a: byte, b: byte): byte {
    ByteWidth();
    XorBits(a, b, 8)
  }

  function XorBytes(v: seq<byte>, w: seq<byte>): (d: seq<byte>)
    requires |v| == |w|
    ensures |d| == |v| && forall i :: 0 <= i < |d| ==> d[i] == XorByte(v[i], w[i])
  {
    if v == [] then [] else [XorByte(v[0], w[0])] + XorBytes(v[1..], w[1..])
  }

  lemma DoubleXor(x: bv32, y: bv32)
    ensures Double(Xor(x, y)) == Xor(Double(x), Double(y))
  {
  }

  lemma DigitXor(a: bool, b: bool)
    ensures Xor(if a then 1 else 0, if b then 1 else 0) == if a != b then 1 else 0
  {
  }

  lemma {:induction false} BitsOfXor(a: nat, b: nat, n: nat)
    ensures Bits(XorBits(a, b, n), n) == Xor(Bits(a, n), Bits(b, n))
  {
    hide Xor, Double;
    if n == 0 {
      XorZero(0);
    } else {
      var x, y := Bits(a / 2, n - 1), Bits(b / 2, n - 1);
      BitsOfXor(a / 2, b / 2, n - 1);
      BitsOfPair(XorBits(a / 2, b / 2, n - 1), a % 2 != b % 2, n - 1);
      DoubleXor(x, y);
      DigitXor(a % 2 == 1, b % 2 == 1);
      XorSwap(Double(x), Double(y), if a % 2 == 1 then 1 else 0, if b % 2 == 1 then 1 else 0);
    }
  }

  lemma WordOfXor(a: byte, b: byte)
    ensures Word(XorByte(a, b)) == Xor(Word(a), Word(b))
  {
    BitsOfXor(a, b, 8);
  }

  lemma RaiseXor(x: bv32, y: bv32)
    ensures Raise(Xor(x, y)) == Xor(Raise(x), Raise(y))
  {
    hide Xor, Double;
    var x4, y4 := Double(Double(Double(Double(x)))), Double(Double(Double(Double(y))));
    DoubleFourXor(x, y);
    DoubleFourXor(x4, y4);
  }

  lemma DoubleFourXor(x: bv32, y: bv32)
    ensures Double(Double(Double(Double(Xor(x, y)))))
            == Xor(Double(Double(Double(Double(x)))), Double(Double(Double(Double(y)))))
  {
    hide Xor, Double;
    DoubleXor(x, y);
    DoubleXor(Double(x), Double(y));
    DoubleXor(Double(Double(x)), Double(Double(y)));
    DoubleXor(Double(Double(Double(x))), Double(Double(Double(y))));
  }

  lemma {:induction false} PackOfXor(v: seq<byte>, w: seq<byte>)
    requires |v| == |w|
    ensures Pack(XorBytes(v, w)) == Xor(Pack(v), Pack(w))
  {
    hide Xor, Raise, Word, XorByte;
    if v == [] {
      XorZero(0);
    } else {
      PackOfXor(v[1..], w[1..]);
      WordOfXor(v[0], w[0]);
      RaiseXor(Pack(v[1..]), Pack(w[1..]));
      XorSwap(Word(v[0]), Word(w[0]), Raise(Pack(v[1..])), Raise(Pack(w[1..])));
      assert XorBytes(v, w)[1..] == XorBytes(v[1..], w[1..]);
    }
  }

  // ---------- The checksum as it is stored ----------

  function Reversed(q: seq<byte>): (r: seq<byte>)
    ensures |r| == |q| && forall i :: 0 <= i < |q| ==> r[i] == q[|q| - 1 - i]
  {
    if q == [] then [] else [q[|q| - 1]] + Reversed(q[..|q| - 1])
  }

  function Doubles(x: bv32, k: nat): bv32 {
    if k == 0 then x else Double(Doubles(x, k - 1))
  }

  lemma TwicePower(hi: nat, lo: nat, k: nat)
    ensures hi * Pow2(k + 1) + lo == 2 * (hi * Pow2(k) + lo / 2) + if lo % 2 == 1 then 1 else 0
  {
    var p := Pow2(k);
    assert hi * (2 * p) == 2 * (hi * p);
  }

  lemma NoBits(v: nat)
    ensures Bits(v, 0) == 0
  {
  }

  lemma {:induction false} BitsOfSplit(hi: nat, lo: nat, n: nat, k: nat)
    requires lo < Pow2(k)
    ensures Bits(hi * Pow2(k) + lo, n + k) == Xor(Doubles(Bits(hi, n), k), Bits(lo, k))
    decreases k
  {
    hide Xor, Double, Bits;
    if k == 0 {
      NoBits(lo);
      XorZero(Bits(hi, n));
    } else {
      var high, odd := hi * Pow2(k - 1), lo % 2 == 1;
      TwicePower(hi, lo, k - 1);
      BitsOfPair(high + lo / 2, odd, n + k - 1);
      BitsOfPair(lo / 2, odd, k - 1);
      BitsOfSplit(hi, lo / 2, n, k - 1);
      var x, y := Doubles(Bits(hi, n), k - 1), Bits(lo / 2, k - 1);
      DoubleXor(x, y);
      XorAssociative(Double(x), Double(y), if odd then 1 else 0);
    }
  }

  lemma DoublesOfByte(x: bv32)
    ensures Doubles(x, 8) == Raise(x)
  {
    hide Double;
    assert Doubles(x, 0) == x && Doubles(x, 1) == Double(Doubles(x, 0)) && Doubles(x, 2) == Double(Doubles(x, 1));
    assert Doubles(x, 3) == Double(Doubles(x, 2)) && Doubles(x, 4) == Double(Doubles(x, 3));
    assert Doubles(x, 5) == Double(Doubles(x, 4)) && Doubles(x, 6) == Double(Doubles(x, 5));
    assert Doubles(x, 7) == Double(Doubles(x, 6)) && Doubles(x, 8) == Double(Doubles(x, 7));
  }

  lemma BitsOfLastByte(v: nat, n: nat)
    ensures Bits(v, n + 8) == Xor(Word(v % 256), Raise(Bits(v / 256, n)))
  {
    hide Xor, Raise;
    ByteWidth();
    BitsOfSplit(v / 256, v % 256, n, 8);
    DoublesOfByte(Bits(v / 256, n));
    XorCommutative(Word(v % 256), Raise(Bits(v / 256, n)));
    assert v / 256 * 256 + v % 256 == v;
  }

  lemma LastByteFirst(v: nat, width: nat)
    ensures Reversed(BigEndian(v, width + 1)) == [v % 256] + Reversed(BigEndian(v / 256, width))
  {
    var q := BigEndian(v, width + 1);
    assert q[..|q| - 1] == BigEndian(v / 256, width);
  }

  // A big-endian field, read back to front, is its number's bits.
  lemma {:induction false} PackOfBigEndian(v: nat, width: nat)
    ensures Pack(Reversed(BigEndian(v, width))) == Bits(v, 8 * width)
  {
    hide Xor, Raise, Word, Reversed, BigEndian;
    if width == 0 {
      assert Reversed(BigEndian(v, width)) == [];
    } else {
      var front := Reversed(BigEndian(v / 256, width - 1));
      LastByteFirst(v, width - 1);
      assert ([v % 256] + front)[1..] == front;
      PackOfBigEndian(v / 256, width - 1);
      BitsOfLastByte(v, 8 * (width - 1));
    }
  }

  lemma StoredCrc(bytes: seq<byte>)
    ensures Pack(Reversed(BigEndian(Crc(bytes), 4))) == Checksum(bytes)
  {
    hide Crc, Checksum;
    PackOfBigEndian(Crc(bytes), 4);
    RegisterOfCrc(bytes);
  }

  lemma ReversedOfXor(q: seq<byte>, r: seq<byte>)
    requires |q| == |r|
    ensures Reversed(XorBytes(q, r)) == XorBytes(Reversed(q), Reversed(r))
  {
  }

  lemma StoredInjective(q: seq<byte>, r: seq<byte>)
    requires |q| == |r| <= 4 && Pack(Reversed(q)) == Pack(Reversed(r))
    ensures q == r
  {
    hide Pack;
    PackInjective(Reversed(q), Reversed(r));
    forall i | 0 <= i < |q|
      ensures q[i] == r[i]
    {
      assert Reversed(q)[|q| - 1 - i] == q[i] && Reversed(r)[|q| - 1 - i] == r[i];
    }
  }

  // ---------- How a change moves the checksum ----------

  lemma {:induction false} FeedKeepsDifference(x: bv32, y: bv32, bytes: seq<byte>)
    ensures Xor(Feed(x, bytes), Feed(y, bytes)) == Shifts(Xor(x, y), 8 * |bytes|)
    decreases |bytes|
  {
    hide Xor, Shift, Word;
    if bytes != [] {
      var init, b := bytes[..|bytes| - 1], Word(bytes[|bytes| - 1]);
      var fx, fy := Feed(x, init), Feed(y, init);
      FeedKeepsDifference(x, y, init);
      ShiftsLinear(Xor(fx, b), Xor(fy, b), 8);
      DropSame(fx, fy, b);
      ShiftsAdd(Xor(x, y), 8 * |init|, 8);
    }
  }

  lemma DropSame(x: bv32, y: bv32, b: bv32)
    ensures Xor(Xor(x, b), Xor(y, b)) == Xor(x, y)
  {
    hide Xor;
    XorSwap(x, b, y, b);
    XorSelf(b);
    XorZero(Xor(x, y));
  }

  lemma XorSelf(b: bv32)
    ensures Xor(b, b) == 0
  {
  }

  lemma DropSameFirst(b: bv32, x: bv32, y: bv32)
    ensures Xor(Xor(b, x), Xor(b, y)) == Xor(x, y)
  {
    hide Xor;
    XorCommutative(b, x);
    XorCommutative(b, y);
    DropSame(x, y, b);
  }

  lemma ComplementIsXor(x: bv32)
    ensures Complement(x) == Xor(x, 0xffff_ffff)
  {
  }

  lemma ComplementKeepsDifference(x: bv32, y: bv32)
    ensures Xor(Complement(x), Complement(y)) == Xor(x, y)
  {
    hide Xor, Complement;
    ComplementIsXor(x);
    ComplementIsXor(y);
    DropSame(x, y, 0xffff_ffff);
  }

  lemma WindowDifference(s: bv32, v: seq<byte>, w: seq<byte>)
    requires |v| == |w| <= 4
    ensures Xor(Feed(s, v), Feed(s, w)) == Shifts(Pack(XorBytes(v, w)), 8 * |v|)
  {
    hide Xor, Shift, Feed, Pack;
    FeedIsShiftedPack(s, v);
    FeedIsShiftedPack(s, w);
    ShiftsLinear(Xor(s, Pack(v)), Xor(s, Pack(w)), 8 * |v|);
    DropSameFirst(s, Pack(v), Pack(w));
    PackOfXor(v, w);
  }

  lemma ChecksumIsComplement(a: seq<byte>, b: seq<byte>)
    ensures Xor(Checksum(a), Checksum(b)) == Xor(Feed(0xffff_ffff, a), Feed(0xffff_ffff, b))
  {
    hide Xor, Feed, Complement;
    ComplementKeepsDifference(Feed(0xffff_ffff, a), Feed(0xffff_ffff, b));
  }

  lemma FeedParts(s: bv32, p: seq<byte>, v: seq<byte>, z: seq<byte>)
    ensures Feed(s, p + v + z) == Feed(Feed(Feed(s, p), v), z)
  {
    hide Feed;
    FeedConcat(s, p, v);
    FeedConcat(s, p + v, z);
  }

  lemma DifferenceMovesOn(a: bv32, b: bv32, d: bv32, m: nat, n: nat, z: seq<byte>)
    requires Xor(a, b) == Shifts(d, m) && n == m + 8 * |z|
    ensures Xor(Feed(a, z), Feed(b, z)) == Shifts(d, n)
  {
    hide Xor, Shifts, Feed;
    FeedKeepsDifference(a, b, z);
    ShiftsAdd(d, m, 8 * |z|);
  }

  lemma TailDifference(t: bv32, v: seq<byte>, w: seq<byte>, z: seq<byte>)
    requires |v| == |w| <= 4
    ensures Xor(Feed(Feed(t, v), z), Feed(Feed(t, w), z)) == Shifts(Pack(XorBytes(v, w)), 8 * (|v| + |z|))
  {
    hide *;
    WindowDifference(t, v, w);
    DifferenceMovesOn(Feed(t, v), Feed(t, w), Pack(XorBytes(v, w)), 8 * |v|, 8 * (|v| + |z|), z);
  }

  lemma FeedDifference(s: bv32, p: seq<byte>, v: seq<byte>, w: seq<byte>, z: seq<byte>)
    requires |v| == |w| <= 4
    ensures Xor(Feed(s, p + v + z), Feed(s, p + w + z)) == Shifts(Pack(XorBytes(v, w)), 8 * (|v| + |z|))
  {
    hide Xor, Shifts, Feed, Pack, XorBytes, XorByte;
    FeedParts(s, p, v, z);
    FeedParts(s, p, w, z);
    TailDifference(Feed(s, p), v, w, z);
  }

  // Replacing `v` by `w` moves the checksum by an amount that depends on their difference and
  // on how many bytes follow, and on nothing else.
  lemma ChecksumDifference(p: seq<byte>, v: seq<byte>, w: seq<byte>, z: seq<byte>)
    requires |v| == |w| <= 4
    ensures Xor(Checksum(p + v + z), Checksum(p + w + z)) == Shifts(Pack(XorBytes(v, w)), 8 * (|v| + |z|))
  {
    hide Xor, Shifts, Feed, Pack, XorBytes, Checksum;
    ChecksumIsComplement(p + v + z, p + w + z);
    FeedDifference(0xffff_ffff, p, v, w, z);
  }

  lemma SameDifference(a: bv32, b: bv32, c: bv32)
    ensures b == c <==> Xor(a, b) == Xor(a, c)
  {
  }

  // `dq`, in the stored checksum, is where `dv` moves the checksum when `n` bits are read from it on.
  predicate Agree(dq: seq<byte>, dv: seq<byte>, n: nat) {
    Pack(Reversed(dq)) == Shifts(Pack(dv), n)
  }

  // The altered field `r` is the checksum of the altered bytes exactly when the two differences agree.
  lemma StraddleMatches(p: seq<byte>, v: seq<byte>, w: seq<byte>, z: seq<byte>, q: seq<byte>, r: seq<byte>)
    requires |v| == |w| <= 4 && |r| == 4 && q == BigEndian(Crc(p + v + z), 4)
    ensures r == BigEndian(Crc(p + w + z), 4) <==>
            Agree(XorBytes(q, r), XorBytes(v, w), 8 * (|v| + |z|))
  {
    hide Xor, Shift, Feed, Pack, Crc, Checksum, BigEndian;
    var t := BigEndian(Crc(p + w + z), 4);
    StoredCrc(p + v + z);
    StoredCrc(p + w + z);
    ChecksumDifference(p, v, w, z);
    ReversedOfXor(q, r);
    PackOfXor(Reversed(q), Reversed(r));
    SameDifference(Pack(Reversed(q)), Pack(Reversed(r)), Pack(Reversed(t)));
    if Pack(Reversed(r)) == Pack(Reversed(t)) {
      StoredInjective(r, t);
    }
  }
}
