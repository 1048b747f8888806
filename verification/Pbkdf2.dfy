/** PBKDF2 (section 5.2 of RFC 8018): the standard's definition, and the in-place loops of `pbkdf2Key`
    proved against it. The pseudorandom function is left open. */
module Pbkdf2 {

  import opened Encoding

  type Bytes = seq<byte>

  /** The exclusive or of the low `bits` binary digits. */
  function XorBits(a: nat, b: nat, bits: nat): nat
    decreases bits
  {
    if bits == 0 then 0 else 2 * XorBits(a / 2, b / 2, bits - 1) + (a + b) % 2
  }

  lemma {:induction false} XorBitsBound(a: nat, b: nat, bits: nat)
    ensures XorBits(a, b, bits) < Pow2(bits)
    decreases bits
  {
    if bits > 0 {
      XorBitsBound(a / 2, b / 2, bits - 1);
    }
  }

  function Pow2(n: nat): nat {
    if n == 0 then 1 else 2 * Pow2(n - 1)
  }

  function XorByte(a: byte, b: byte): byte {
    XorBitsBound(a, b, 8);
    assert Pow2(8) == 256;
    XorBits(a, b, 8)
  }

  /** HMAC keyed with the password, with outputs of `size` bytes. */
  datatype Prf = Prf(mac: Bytes -> Bytes, size: nat)

  ghost predicate Valid(p: Prf) {
    p.size > 0 && forall m: Bytes :: |p.mac(m)| == p.size
  }

  // ---- the standard ----

  /** The `width` low-order base-256 digits of `n`, most significant octet first. */
  function BigEndian(n: nat, width: nat): (r: Bytes)
    ensures |r| == width
  {
    if width == 0 then [] else BigEndian(n / 256, width - 1) + [n % 256]
  }

  function OctetsValue(b: Bytes): nat {
    if b == [] then 0 else OctetsValue(b[..|b| - 1]) * 256 + b[|b| - 1]
  }

  /** INT (i), the four-octet encoding of the block index. */
  function Int4(i: nat): Bytes {
    BigEndian(i, 4)
  }

  function Xor(a: Bytes, b: Bytes): (r: Bytes)
    requires |a| == |b|
    ensures |r| == |a| && forall k :: 0 <= k < |a| ==> r[k] == XorByte(a[k], b[k])
  {
    seq(|a|, k requires 0 <= k < |a| => XorByte(a[k], b[k]))
  }

  /** U_j of block `i`. */
  function U(p: Prf, salt: Bytes, i: nat, j: nat): Bytes
    requires j >= 1
  {
    if j == 1 then p.mac(salt + Int4(i)) else p.mac(U(p, salt, i, j - 1))
  }

  /** F (P, S, c, i) = U_1 \xor U_2 \xor ... \xor U_c. */
  ghost function F(p: Prf, salt: Bytes, c: nat, i: nat): (r: Bytes)
    requires Valid(p) && c >= 1
    ensures |r| == p.size
  {
    if c == 1 then U(p, salt, i, 1) else Xor(F(p, salt, c - 1, i), U(p, salt, i, c))
  }

  /** T_1 || T_2 || ... || T_n. */
  ghost function Blocks(p: Prf, salt: Bytes, c: nat, n: nat): (r: Bytes)
    requires Valid(p) && c >= 1
    ensures |r| == n * p.size
  {
    if n == 0 then [] else Blocks(p, salt, c, n - 1) + F(p, salt, c, n)
  }

  function CeilDiv(a: nat, b: nat): nat
    requires b > 0
  {
    (a + b - 1) / b
  }

  lemma CeilDivBounds(a: nat, b: nat)
    requires b > 0
    ensures CeilDiv(a, b) * b >= a
    ensures a > 0 ==> CeilDiv(a, b) >= 1 && (CeilDiv(a, b) - 1) * b < a
  {
    var q, r := (a + b - 1) / b, (a + b - 1) % b;
    assert q * b + r == a + b - 1;
    assert (q - 1) * b == q * b - b;
  }

  /** DK = T_1 || ... || T_l<0..r-1> with l = CEIL (dkLen / hLen) and r = dkLen - (l - 1) * hLen. */
  ghost function DerivedKey(p: Prf, salt: Bytes, c: nat, dkLen: nat): Bytes
    requires Valid(p) && c >= 1 && dkLen >= 1
  {
    var l := CeilDiv(dkLen, p.size);
    CeilDivBounds(dkLen, p.size);
    assert (l - 1) * p.size + p.size == l * p.size;
    var r := dkLen - (l - 1) * p.size;
    Blocks(p, salt, c, l - 1) + F(p, salt, c, l)[..r]
  }

  // ---- the code ----

  /** `byte(i >> shift)` with `divisor` = 2^shift. */
  function ShiftedByte(i: nat, divisor: nat): byte
    requires divisor > 0
  {
    i / divisor % 256
  }

  lemma DivChain(i: nat)
    ensures i / 256 / 256 == i / 0x1_0000
    ensures i / 256 / 256 / 256 == i / 0x100_0000
  {
  }

  lemma BigEndianStep(n: nat, width: nat)
    requires width > 0
    ensures BigEndian(n, width) == BigEndian(n / 256, width - 1) + [ShiftedByte(n, 1)]
  {
    assert n / 1 == n;
  }

  lemma CounterBytes(i: nat)
    ensures Int4(i) == [ShiftedByte(i, 0x100_0000), ShiftedByte(i, 0x1_0000), ShiftedByte(i, 0x100), ShiftedByte(i, 1)]
  {
    hide BigEndian;
    var i1, i2, i3 := i / 256, i / 256 / 256, i / 256 / 256 / 256;
    DivChain(i);
    assert i1 / 1 == i1 && i2 / 1 == i2 && i3 / 1 == i3;
    BigEndianStep(i, 4);
    BigEndianStep(i1, 3);
    BigEndianStep(i2, 2);
    BigEndianStep(i3, 1);
    assert BigEndian(i3 / 256, 0) == [];
  }

  /** One block: the iterated function with `t[k] ^= u[k]` in place. */
  method Block(p: Prf, block: array<byte>, salt: Bytes, i: nat, iterations: int) returns (t: array<byte>)
    requires Valid(p) && block[..] == salt + Int4(i)
    ensures fresh(t) && t[..] == F(p, salt, if iterations < 1 then 1 else iterations, i)
  {
    hide XorByte;
    var u := p.mac(block[..]);
    t := new byte[|u|](k requires 0 <= k < |u| => u[k]);
    assert t[..] == u;
    var j := 1;
    while j < iterations
      invariant 1 <= j && (j <= iterations || j == 1)
      invariant u == U(p, salt, i, j) && |u| == p.size == t.Length
      invariant t[..] == F(p, salt, j, i)
    {
      u := p.mac(u);
      ghost var before := t[..];
      var k := 0;
      while k < t.Length
        invariant 0 <= k <= t.Length
        invariant forall m :: 0 <= m < k ==> t[m] == XorByte(before[m], u[m])
        invariant forall m :: k <= m < t.Length ==> t[m] == before[m]
      {
        t[k] := XorByte(t[k], u[k]);
        k := k + 1;
      }
      assert t[..] == Xor(before, u);
      j := j + 1;
    }
  }

  /** `pbkdf2Key`: the key of the standard for every positive key length. An iteration count below one is
      treated as one, and block indexes are taken modulo 2^32. */
  method Pbkdf2Key(p: Prf, salt: Bytes, iterations: int, keyLen: nat) returns (key: Bytes)
    requires Valid(p)
    ensures |key| == keyLen
    ensures keyLen >= 1 ==> key == DerivedKey(p, salt, if iterations < 1 then 1 else iterations, keyLen)
  {
    hide Int4, F, DerivedKey, ShiftedByte;
    ghost var c := if iterations < 1 then 1 else iterations;
    var numBlocks := (keyLen + p.size - 1) / p.size;
    CeilDivBounds(keyLen, p.size);
    var derived: Bytes := [];
    var n := |salt|;
    var block := new byte[n + 4](k => if 0 <= k < n then salt[k] else 0);
    var i := 1;
    while i <= numBlocks
      invariant 1 <= i <= numBlocks + 1
      invariant derived == Blocks(p, salt, c, i - 1)
      invariant block[..n] == salt
    {
      block[n] := ShiftedByte(i, 0x100_0000);
      block[n + 1] := ShiftedByte(i, 0x1_0000);
      block[n + 2] := ShiftedByte(i, 0x100);
      block[n + 3] := ShiftedByte(i, 1);
      CounterBytes(i);
      assert block[..] == block[..n] + [block[n], block[n + 1], block[n + 2], block[n + 3]];
      var t := Block(p, block, salt, i, iterations);
      derived := derived + t[..];
      i := i + 1;
    }
    key := derived[..keyLen];
    if keyLen >= 1 {
      PrefixIsDerivedKey(p, salt, c, keyLen);
    }
  }

  lemma PrefixIsDerivedKey(p: Prf, salt: Bytes, c: nat, keyLen: nat)
    requires Valid(p) && c >= 1 && keyLen >= 1
    ensures var n := CeilDiv(keyLen, p.size);
            keyLen <= |Blocks(p, salt, c, n)| && Blocks(p, salt, c, n)[..keyLen] == DerivedKey(p, salt, c, keyLen)
  {
    var n := CeilDiv(keyLen, p.size);
    CeilDivBounds(keyLen, p.size);
    assert (n - 1) * p.size + p.size == n * p.size;
  }

  // ---- what the standard's definition gives ----

  /** Byte `k` of the key is byte `k mod hLen` of block `k / hLen + 1`. */
  lemma {:induction false} KeyByte(p: Prf, salt: Bytes, c: nat, n: nat, b: nat, k: nat)
    requires Valid(p) && c >= 1 && b < n && k < p.size
    ensures b * p.size + k < n * p.size
    ensures Blocks(p, salt, c, n)[b * p.size + k] == F(p, salt, c, b + 1)[k]
    decreases n
  {
    hide F;
    assert (n - 1) * p.size + p.size == n * p.size;
    if b < n - 1 {
      KeyByte(p, salt, c, n - 1, b, k);
    }
  }

  lemma OctetsStep(b: Bytes, x: byte)
    ensures OctetsValue(b + [x]) == OctetsValue(b) * 256 + x
  {
    assert (b + [x])[..|b|] == b;
  }

  lemma LowByte(n: nat)
    ensures ShiftedByte(n, 1) == n % 256
  {
    assert n / 1 == n;
  }

  lemma TwoDigits(n: nat)
    ensures n / 256 % 256 * 256 + n % 256 == n % 0x1_0000
  {
  }

  lemma ThreeDigits(n: nat)
    ensures n / 256 % 0x1_0000 * 256 + n % 256 == n % 0x100_0000
  {
  }

  lemma FourDigits(n: nat)
    ensures n / 256 % 0x100_0000 * 256 + n % 256 == n % 0x1_0000_0000
  {
  }

  /** Base-256 digits put together again. */
  lemma Recompose(i: nat)
    ensures ((i / 256 / 256 / 256 % 256 * 256 + i / 256 / 256 % 256) * 256 + i / 256 % 256) * 256 + i % 256
         == i % 0x1_0000_0000
  {
    TwoDigits(i / 256 / 256);
    ThreeDigits(i / 256);
    FourDigits(i);
  }

  /** One more octet in front. */
  lemma OctetsOfStep(n: nat, width: nat)
    requires width > 0
    ensures OctetsValue(BigEndian(n, width)) == OctetsValue(BigEndian(n / 256, width - 1)) * 256 + n % 256
  {
    hide ShiftedByte;
    BigEndianStep(n, width);
    OctetsStep(BigEndian(n / 256, width - 1), ShiftedByte(n, 1));
    LowByte(n);
  }

  lemma OctetsOfInt4(i: nat)
    ensures OctetsValue(Int4(i)) == i % 0x1_0000_0000
  {
    hide BigEndian, OctetsValue;
    var i1, i2, i3 := i / 256, i / 256 / 256, i / 256 / 256 / 256;
    NoOctets();
    assert BigEndian(i3 / 256, 0) == [];
    OctetsOfStep(i, 4);
    OctetsOfStep(i1, 3);
    OctetsOfStep(i2, 2);
    OctetsOfStep(i3, 1);
    Recompose(i);
  }

  lemma NoOctets()
    ensures OctetsValue([]) == 0
  {
  }

  /** The counter bytes say which block they belong to exactly for indexes below 2^32, the standard's limit
      on the key length. */
  lemma CounterFaithful(i: nat)
    ensures OctetsValue(Int4(i)) == i <==> i < 0x1_0000_0000
  {
    OctetsOfInt4(i);
  }

  /** The key encryption key of the CA: 32 bytes from a 32-byte hash are one block. */
  lemma SingleBlockKey(p: Prf, salt: Bytes, c: nat)
    requires Valid(p) && p.size == 32 && c >= 1
    ensures DerivedKey(p, salt, c, 32) == F(p, salt, c, 1)
  {
    assert CeilDiv(32, 32) == 1;
    assert Blocks(p, salt, c, 0) == [];
  }

  // ---- exclusive or ----

  function Bit(n: nat, k: nat): nat {
    if k == 0 then n % 2 else Bit(n / 2, k - 1)
  }

  lemma HalfOfXor(a: nat, b: nat, bits: nat)
    requires bits > 0
    ensures XorBits(a, b, bits) / 2 == XorBits(a / 2, b / 2, bits - 1)
    ensures XorBits(a, b, bits) % 2 == if a % 2 == b % 2 then 0 else 1
  {
    ParityOfSum(a, b);
  }

  lemma {:induction false} BitOfXor(a: nat, b: nat, bits: nat, k: nat)
    requires k < bits
    ensures Bit(XorBits(a, b, bits), k) == if Bit(a, k) == Bit(b, k) then 0 else 1
    decreases bits
  {
    hide XorBits;
    HalfOfXor(a, b, bits);
    if k > 0 {
      BitOfXor(a / 2, b / 2, bits - 1, k - 1);
    }
  }

  lemma ParityOfSum(a: nat, b: nat)
    ensures (a + b) % 2 == if a % 2 == b % 2 then 0 else 1
  {
  }

  /** A bit of `a ^ b` is set exactly when it is set in one of them. */
  lemma XorExactly(a: byte, b: byte, k: nat)
    requires k < 8
    ensures Bit(XorByte(a, b), k) == 1 <==> Bit(a, k) != Bit(b, k)
  {
    BitOfXor(a, b, 8, k);
  }

  lemma {:induction false} XorBitsTwice(a: nat, b: nat, bits: nat)
    requires a < Pow2(bits)
    ensures XorBits(XorBits(a, b, bits), b, bits) == a
    decreases bits
  {
    if bits > 0 {
      var x := XorBits(a, b, bits);
      XorBitsTwice(a / 2, b / 2, bits - 1);
      HalfOfXor(a, b, bits);
      HalfOfXor(x, b, bits);
    }
  }

  /** What one exclusive or does, another with the same byte undoes. */
  lemma XorTwice(a: byte, b: byte)
    ensures XorByte(XorByte(a, b), b) == a
  {
    assert Pow2(8) == 256;
    XorBitsTwice(a, b, 8);
  }
}
