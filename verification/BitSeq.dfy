/** Bit strings, least significant bit first: what the bit streams hold,
    whatever words and bytes carry it. */
module BitSeq {
  import opened Nums

  type Bits = seq<bool>

  function Bit(b: bool): nat { if b then 1 else 0 }

  function ToNat(s: Bits): (r: nat)
    ensures r < Pow2(|s|)
  {
    if s == [] then 0 else Bit(s[0]) + 2 * ToNat(s[1..])
  }

  /** The low `n` bits of `v`. */
  function ToBits(v: nat, n: nat): (s: Bits)
    ensures |s| == n
  {
    if n == 0 then [] else [v % 2 == 1] + ToBits(v / 2, n - 1)
  }

  lemma {:induction false} ToNatOfBits(v: nat, n: nat)
    ensures ToNat(ToBits(v, n)) == Low(v, n)
  {
    if n > 0 {
      ToNatOfBits(v / 2, n - 1);
      assert ToBits(v, n)[1..] == ToBits(v / 2, n - 1);
    }
  }

  lemma {:induction false} ToBitsOfNat(s: Bits)
    ensures ToBits(ToNat(s), |s|) == s
  {
    if s != [] {
      ToBitsOfNat(s[1..]);
    }
  }

  lemma {:induction false} ToNatAppend(a: Bits, b: Bits)
    ensures ToNat(a + b) == ToNat(a) + Shl(ToNat(b), |a|)
  {
    if a == [] {
      assert a + b == b;
    } else {
      ToNatAppend(a[1..], b);
      assert (a + b)[1..] == a[1..] + b;
      ShlTwice(ToNat(b), |a| - 1);
    }
  }

  /** A right shift drops the low bits; a mask keeps them. */
  lemma {:induction false} Split(s: Bits, k: nat)
    requires k <= |s|
    ensures Shr(ToNat(s), k) == ToNat(s[k..])
    ensures Low(ToNat(s), k) == ToNat(s[..k])
  {
    if k == 0 {
      assert s[0..] == s;
    } else {
      Split(s[1..], k - 1);
      assert s[1..][k - 1..] == s[k..];
      assert s[..k][1..] == s[1..][..k - 1];
    }
  }

  /** Concatenation in any grouping, of three and of four. */
  lemma Regroup<T>(a: seq<T>, b: seq<T>, c: seq<T>)
    ensures a + b + c == a + (b + c)
  {
  }

  lemma Regroup4<T>(a: seq<T>, b: seq<T>, c: seq<T>, d: seq<T>)
    ensures a + b + c + d == a + (b + c + d)
  {
  }

  function Zeros(n: nat): (s: Bits)
    ensures |s| == n && forall i :: 0 <= i < n ==> !s[i]
  {
    seq(n, _ => false)
  }

  lemma {:induction false} ToNatZeros(n: nat)
    ensures ToNat(Zeros(n)) == 0
  {
    if n > 0 {
      ToNatZeros(n - 1);
      assert Zeros(n)[1..] == Zeros(n - 1);
    }
  }

  // Bytes

  type Byte = b: int | 0 <= b < 256

  function BytesBits(bytes: seq<Byte>): (s: Bits)
    ensures |s| == 8 * |bytes|
  {
    if bytes == [] then [] else ToBits(bytes[0], 8) + BytesBits(bytes[1..])
  }

  lemma {:induction false} BytesBitsAppend(a: seq<Byte>, b: seq<Byte>)
    ensures BytesBits(a + b) == BytesBits(a) + BytesBits(b)
  {
    hide ToBits;
    if a == [] {
      assert a + b == b;
    } else {
      BytesBitsAppend(a[1..], b);
      assert (a + b)[0] == a[0] && (a + b)[1..] == a[1..] + b;
      Regroup(ToBits(a[0], 8), BytesBits(a[1..]), BytesBits(b));
    }
  }

  lemma {:induction false} BytesBitsSlice(a: seq<Byte>, i: nat, j: nat)
    requires i <= j <= |a|
    ensures BytesBits(a[i..j]) == BytesBits(a)[8 * i..8 * j]
  {
    assert a == a[..i] + (a[i..j] + a[j..]);
    BytesBitsAppend(a[..i], a[i..j] + a[j..]);
    BytesBitsAppend(a[i..j], a[j..]);
  }

  /** Little-endian bytes of a bit string of whole bytes. */
  function ToBytes(s: Bits): (r: seq<Byte>)
    requires |s| % 8 == 0
    ensures |r| == |s| / 8
  {
    if s == [] then [] else (assert Pow2(8) == 256; [ToNat(s[..8])] + ToBytes(s[8..]))
  }

  lemma {:induction false} BytesBitsOfToBytes(s: Bits)
    requires |s| % 8 == 0
    ensures BytesBits(ToBytes(s)) == s
  {
    if s != [] {
      BytesBitsOfToBytes(s[8..]);
      ToBitsOfNat(s[..8]);
      assert Pow2(8) == 256;
      assert ToBytes(s)[1..] == ToBytes(s[8..]);
      assert s == s[..8] + s[8..];
    }
  }

  lemma {:induction false} ToBytesOfBytesBits(bytes: seq<Byte>)
    ensures ToBytes(BytesBits(bytes)) == bytes
  {
    if bytes != [] {
      ToBytesOfBytesBits(bytes[1..]);
      assert Pow2(8) == 256;
      ToNatOfBits(bytes[0], 8);
      LowSmall(bytes[0], 8);
      assert BytesBits(bytes)[..8] == ToBits(bytes[0], 8);
      assert BytesBits(bytes)[8..] == BytesBits(bytes[1..]);
    }
  }
}
