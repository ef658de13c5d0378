/** Byte strings, big-endian integers and the byte-wise order shared by every on-disk format. */
module Bytes {

  type byte = x: int | 0 <= x < 256

  const U16_MAX: int := 0xffff
  const U32_MAX: int := 0xffff_ffff
  const U64_MAX: int := 0xffff_ffff_ffff_ffff

  // `usize` on the 64-bit hosts the store runs on.
  const USIZE_MAX: int := U64_MAX

  datatype Option<+T> = None | Some(value: T)

  datatype Result<+T, +E> = Ok(value: T) | Err(error: E)

  function Pow256(width: nat): (p: nat)
    ensures p > 0
  {
    if width == 0 then 1 else 256 * Pow256(width - 1)
  }

  lemma Pow256Widths()
    ensures Pow256(1) == 256 && Pow256(2) == U16_MAX + 1
    ensures Pow256(4) == U32_MAX + 1 && Pow256(8) == U64_MAX + 1
  {
    assert Pow256(3) == 256 * Pow256(2);
    assert Pow256(5) == 256 * Pow256(4);
    assert Pow256(6) == 256 * Pow256(5);
    assert Pow256(7) == 256 * Pow256(6);
  }

  // The last `width` base-256 digits of `n`, most significant first.
  function BigEndian(n: nat, width: nat): (s: seq<byte>)
    ensures |s| == width
  {
    if width == 0 then [] else BigEndian(n / 256, width - 1) + [n % 256]
  }

  function FromBigEndian(s: seq<byte>): (n: nat)
    ensures n < Pow256(|s|)
  {
    if s == [] then 0 else 256 * FromBigEndian(s[..|s| - 1]) + s[|s| - 1]
  }

  lemma {:induction false} DecodeBigEndian(n: nat, width: nat)
    requires n < Pow256(width)
    ensures FromBigEndian(BigEndian(n, width)) == n
  {
    if width > 0 {
      var s := BigEndian(n, width);
      assert s[..|s| - 1] == BigEndian(n / 256, width - 1);
      DecodeBigEndian(n / 256, width - 1);
    }
  }

  lemma {:induction false} EncodeBigEndian(s: seq<byte>)
    ensures BigEndian(FromBigEndian(s), |s|) == s
  {
    if s != [] {
      EncodeBigEndian(s[..|s| - 1]);
      var n := FromBigEndian(s);
      assert n / 256 == FromBigEndian(s[..|s| - 1]) && n % 256 == s[|s| - 1];
    }
  }

  // The unsigned integer in `width` bytes at an offset.
  function Number(bytes: seq<byte>, offset: nat, width: nat): (n: nat)
    requires offset + width <= |bytes|
    ensures n < Pow256(width)
  {
    FromBigEndian(bytes[offset..offset + width])
  }

  function Zeros(n: nat): (s: seq<byte>)
    ensures |s| == n
    ensures forall i :: 0 <= i < n ==> s[i] == 0
  {
    seq(n, _ => 0)
  }

  predicate AllZero(s: seq<byte>) {
    forall i :: 0 <= i < |s| ==> s[i] == 0
  }

  lemma AllZeroIsZeros(s: seq<byte>)
    requires AllZero(s)
    ensures s == Zeros(|s|)
  {
  }

  // Rust's `Ord` for byte slices.
  predicate Less(a: seq<byte>, b: seq<byte>) {
    b != [] && (a == [] || a[0] < b[0] || (a[0] == b[0] && Less(a[1..], b[1..])))
  }

  lemma {:induction false} LessTransitive(a: seq<byte>, b: seq<byte>, c: seq<byte>)
    requires Less(a, b) && Less(b, c)
    ensures Less(a, c)
  {
    if a != [] && a[0] == b[0] == c[0] {
      LessTransitive(a[1..], b[1..], c[1..]);
    }
  }

  lemma {:induction false} LessIrreflexive(a: seq<byte>)
    ensures !Less(a, a)
  {
    if a != [] {
      LessIrreflexive(a[1..]);
    }
  }

  lemma {:induction false} LessTotal(a: seq<byte>, b: seq<byte>)
    ensures a == b || Less(a, b) || Less(b, a)
  {
    if a != [] && b != [] && a[0] == b[0] {
      LessTotal(a[1..], b[1..]);
      if a[1..] == b[1..] {
        assert a == [a[0]] + a[1..] && b == [b[0]] + b[1..];
      }
    }
  }

  lemma LessAsymmetric(a: seq<byte>, b: seq<byte>)
    requires Less(a, b)
    ensures !Less(b, a) && a != b
  {
    LessIrreflexive(a);
    if Less(b, a) {
      LessTransitive(a, b, a);
    }
  }

  predicate AscendingKeys(keys: seq<seq<byte>>) {
    forall i, j :: 0 <= i < j < |keys| ==> Less(keys[i], keys[j])
  }

  // The position of `key` in an ascending list that does not contain it.
  method KeyPosition(keys: seq<seq<byte>>, key: seq<byte>) returns (k: nat)
    requires AscendingKeys(keys) && key !in keys
    ensures k <= |keys|
    ensures forall i :: 0 <= i < k ==> Less(keys[i], key)
    ensures forall i :: k <= i < |keys| ==> Less(key, keys[i])
  {
    hide Less;
    k := 0;
    while k < |keys| && Less(keys[k], key)
      invariant k <= |keys|
      invariant forall i :: 0 <= i < k ==> Less(keys[i], key)
    {
      k := k + 1;
    }
    forall i | k <= i < |keys|
      ensures Less(key, keys[i])
    {
      LessTotal(key, keys[k]);
      if k < i {
        LessTransitive(key, keys[k], keys[i]);
      }
    }
  }

  // Directory entries arrive in any order; listings sort them.
  method SortedKeys(keys: set<seq<byte>>) returns (sorted: seq<seq<byte>>)
    ensures AscendingKeys(sorted)
    ensures forall k :: k in sorted <==> k in keys
  {
    hide Less;
    sorted := [];
    var rest := keys;
    while rest != {}
      invariant rest <= keys && AscendingKeys(sorted)
      invariant forall k :: k in sorted <==> k in keys && k !in rest
      decreases |rest|
    {
      var key :| key in rest;
      rest := rest - {key};
      var k := KeyPosition(sorted, key);
      sorted := sorted[..k] + [key] + sorted[k..];
    }
  }
}
