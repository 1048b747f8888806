/** Text encodings that feed the hash chains: lower-case hex, standard base64, UUID text and
    zero-padded decimals. A Go string is a sequence of bytes, so here one `char` stands for one byte. */
module Encoding {

  type byte = x: int | 0 <= x < 256

  type Digest = d: seq<byte> | |d| == 32 witness seq(32, _ => 0)

  /** SHA-256 as an arbitrary function with 32-byte results. Nothing else is assumed of it, so every
      theorem holds for every such function, whether or not it has collisions. */
  type HashFn = string -> Digest

  // ---- sequences ----

  lemma SplitAt<T>(a: seq<T>, x: seq<T>, b: seq<T>, y: seq<T>)
    requires |a| == |b| && a + x == b + y
    ensures a == b && x == y
  {
    assert a == (a + x)[..|a|] && x == (a + x)[|a|..];
    assert b == (b + y)[..|b|] && y == (b + y)[|b|..];
  }

  ghost predicate Free(s: string, c: char) {
    forall k :: 0 <= k < |s| ==> s[k] != c
  }

  // ---- hexadecimal ----

  predicate IsHexChar(c: char) {
    '0' <= c <= '9' || 'a' <= c <= 'f'
  }

  function HexValue(c: char): int {
    if c <= '9' then c as int - '0' as int else c as int - 'a' as int + 10
  }

  function HexDigit(n: int): (c: char)
    requires 0 <= n < 16
    ensures IsHexChar(c) && HexValue(c) == n
  {
    if n < 10 then '0' + n as char else 'a' + (n - 10) as char
  }

  function Hex(bytes: seq<byte>): (s: string)
    ensures |s| == 2 * |bytes|
    ensures forall k :: 0 <= k < |s| ==> IsHexChar(s[k])
  {
    if bytes == [] then ""
    else [HexDigit(bytes[0] / 16), HexDigit(bytes[0] % 16)] + Hex(bytes[1..])
  }

  ghost predicate IsHex64(s: string) {
    |s| == 64 && forall k :: 0 <= k < |s| ==> IsHexChar(s[k])
  }

  lemma {:induction false} HexInjective(a: seq<byte>, b: seq<byte>)
    requires Hex(a) == Hex(b)
    ensures a == b
  {
    if a == [] || b == [] {
      assert |Hex(a)| == 2 * |a| && |Hex(b)| == 2 * |b|;
    } else {
      var pa := [HexDigit(a[0] / 16), HexDigit(a[0] % 16)];
      var pb := [HexDigit(b[0] / 16), HexDigit(b[0] % 16)];
      SplitAt(pa, Hex(a[1..]), pb, Hex(b[1..]));
      assert pa[0] == pb[0] && pa[1] == pb[1];
      assert a[0] / 16 == b[0] / 16 && a[0] % 16 == b[0] % 16;
      HexInjective(a[1..], b[1..]);
      assert a == [a[0]] + a[1..] && b == [b[0]] + b[1..];
    }
  }

  // ---- base64, standard alphabet with padding ----

  function Base64Value(c: char): int {
    if 'A' <= c <= 'Z' then c as int - 'A' as int
    else if 'a' <= c <= 'z' then c as int - 'a' as int + 26
    else if '0' <= c <= '9' then c as int - '0' as int + 52
    else if c == '+' then 62
    else 63
  }

  function Base64Char(n: int): (c: char)
    requires 0 <= n < 64
    ensures c != '-' && c != '=' && Base64Value(c) == n
  {
    if n < 26 then 'A' + n as char
    else if n < 52 then 'a' + (n - 26) as char
    else if n < 62 then '0' + (n - 52) as char
    else if n == 62 then '+'
    else '/'
  }

  function At(bytes: seq<byte>, k: nat): byte {
    if k < |bytes| then bytes[k] else 0
  }

  /** The four characters for the first group of `bytes`. */
  function Base64Group(bytes: seq<byte>): (s: string)
    requires bytes != []
    ensures |s| == 4 && Free(s, '-')
  {
    var b0, b1, b2 := At(bytes, 0), At(bytes, 1), At(bytes, 2);
    [Base64Char(b0 / 4), Base64Char(b0 % 4 * 16 + b1 / 16),
     if |bytes| > 1 then Base64Char(b1 % 16 * 4 + b2 / 64) else '=',
     if |bytes| > 2 then Base64Char(b2 % 64) else '=']
  }

  function Base64(bytes: seq<byte>): (s: string)
    ensures Free(s, '-')
  {
    if bytes == [] then ""
    else if |bytes| <= 3 then Base64Group(bytes)
    else Base64Group(bytes[..3]) + Base64(bytes[3..])
  }

  /** Equal 6-bit pieces of two consecutive bytes give equal bytes. */
  lemma HighAndLow(a: byte, b: byte, p: nat, q: nat)
    requires a / 4 == b / 4 && p < 16 && q < 16 && a % 4 * 16 + p == b % 4 * 16 + q
    ensures a == b && p == q
  {
  }

  lemma MiddleAndLow(a: byte, b: byte, p: nat, q: nat)
    requires a / 16 == b / 16 && p < 4 && q < 4 && a % 16 * 4 + p == b % 16 * 4 + q
    ensures a == b && p == q
  {
  }

  /** What the four characters say about the up to three bytes. */
  lemma GroupValues(a: seq<byte>)
    requires 0 < |a| <= 3
    ensures var s := Base64Group(a);
            && Base64Value(s[0]) == At(a, 0) / 4 && Base64Value(s[1]) == At(a, 0) % 4 * 16 + At(a, 1) / 16
            && (s[2] == '=' <==> |a| == 1) && (s[3] == '=' <==> |a| <= 2)
            && (|a| > 1 ==> Base64Value(s[2]) == At(a, 1) % 16 * 4 + At(a, 2) / 64)
            && (|a| > 2 ==> Base64Value(s[3]) == At(a, 2) % 64)
  {
    hide Base64Value;
  }

  lemma Base64GroupInjective(a: seq<byte>, b: seq<byte>)
    requires 0 < |a| <= 3 && 0 < |b| <= 3
    requires Base64Group(a) == Base64Group(b)
    ensures a == b
  {
    hide Base64Group, Base64Value;
    GroupValues(a);
    GroupValues(b);
    HighAndLow(At(a, 0), At(b, 0), At(a, 1) / 16, At(b, 1) / 16);
    if |a| > 1 {
      MiddleAndLow(At(a, 1), At(b, 1), At(a, 2) / 64, At(b, 2) / 64);
    }
  }

  lemma {:induction false} Base64Injective(a: seq<byte>, b: seq<byte>)
    requires Base64(a) == Base64(b)
    ensures a == b
    decreases |a|
  {
    if a == [] || b == [] {
      assert Base64(a) == "" || Base64(b) == "";
    } else {
      var ga := if |a| <= 3 then a else a[..3];
      var gb := if |b| <= 3 then b else b[..3];
      var ra := if |a| <= 3 then [] else a[3..];
      var rb := if |b| <= 3 then [] else b[3..];
      assert Base64(a) == Base64Group(ga) + Base64(ra);
      assert Base64(b) == Base64Group(gb) + Base64(rb);
      SplitAt(Base64Group(ga), Base64(ra), Base64Group(gb), Base64(rb));
      Base64GroupInjective(ga, gb);
      Base64Injective(ra, rb);
      assert a == ga + ra && b == gb + rb;
    }
  }

  // ---- UUID text ----

  type Random16 = r: seq<byte> | |r| == 16 witness seq(16, _ => 0)

  /** What chain parsing needs of an identifier: 36 characters whose first dash is at index 8. */
  ghost predicate IsUuid(id: string) {
    |id| == 36 && Free(id[..8], '-') && id[8] == '-'
  }

  function UuidText(b: seq<byte>): string
    requires |b| == 16
  {
    Hex(b[0..4]) + ("-" + Hex(b[4..6]) + "-" + Hex(b[6..8]) + "-" + Hex(b[8..10]) + "-" + Hex(b[10..]))
  }

  /** Version 4 UUID text from sixteen random bytes. */
  function NewUuid(r: Random16): (id: string)
    ensures IsUuid(id)
  {
    var b := r[6 := 64 + r[6] % 16][8 := 128 + r[8] % 64];
    assert UuidText(b)[..8] == Hex(b[0..4]);
    UuidText(b)
  }

  // ---- decimals ----

  /** `n` as exactly `width` decimal digits, most significant first. */
  function Padded(n: nat, width: nat): string {
    if width == 0 then "" else Padded(n / 10, width - 1) + ['0' + (n % 10) as char]
  }

  // ---- what the encodings write ----

  /** Two hexadecimal digits for each byte, the higher one first. */
  lemma {:induction false} HexDecodes(bytes: seq<byte>, k: nat)
    requires k < |bytes|
    ensures 16 * HexValue(Hex(bytes)[2 * k]) + HexValue(Hex(bytes)[2 * k + 1]) == bytes[k]
  {
    if k > 0 {
      HexDecodes(bytes[1..], k - 1);
    }
  }

  /** The digits, by name. */
  lemma HexNames(n: nat)
    requires n < 16
    ensures HexDigit(n) == "0123456789abcdef"[n]
  {
  }

  lemma Base64Names(n: nat)
    requires n < 64
    ensures n < 26 ==> Base64Char(n) == "ABCDEFGHIJKLMNOPQRSTUVWXYZ"[n]
    ensures 26 <= n < 52 ==> Base64Char(n) == "abcdefghijklmnopqrstuvwxyz"[n - 26]
    ensures 52 <= n ==> Base64Char(n) == "0123456789+/"[n - 52]
  {
  }

  /** A full group is one 24-bit number, written in base 256 and in base 64. */
  lemma Base64Decodes(bytes: seq<byte>)
    requires |bytes| == 3
    ensures var s := Base64(bytes);
            |s| == 4
            && ((Base64Value(s[0]) * 64 + Base64Value(s[1])) * 64 + Base64Value(s[2])) * 64 + Base64Value(s[3])
               == bytes[0] as int * 0x1_0000 + bytes[1] as int * 0x100 + bytes[2]
  {
    hide Base64Value;
    GroupValues(bytes);
  }

  /** The text of a version 4 UUID: dashes in four places, the version and the variant digit, lower-case
      hexadecimal digits elsewhere. */
  lemma UuidForm(r: Random16, k: nat)
    requires k < 36
    ensures |NewUuid(r)| == 36
    ensures NewUuid(r)[k] == '-' <==> k in {8, 13, 18, 23}
    ensures NewUuid(r)[k] != '-' ==> IsHexChar(NewUuid(r)[k])
    ensures NewUuid(r)[14] == '4' && NewUuid(r)[19] in "89ab"
  {
    hide IsUuid;
    var b := r[6 := 64 + r[6] % 16][8 := 128 + r[8] % 64];
    UuidParts(b);
    UuidDigits(r);
  }

  lemma UuidParts(b: seq<byte>)
    requires |b| == 16
    ensures var id := UuidText(b);
            && |id| == 36 && id[..8] == Hex(b[0..4]) && id[8] == '-' && id[9..13] == Hex(b[4..6]) && id[13] == '-'
            && id[14..18] == Hex(b[6..8]) && id[18] == '-' && id[19..23] == Hex(b[8..10]) && id[23] == '-'
            && id[24..] == Hex(b[10..])
  {
    hide Hex;
  }

  lemma UuidDigits(r: Random16)
    ensures var b := r[6 := 64 + r[6] % 16][8 := 128 + r[8] % 64];
            Hex(b[6..8])[0] == '4' && Hex(b[8..10])[0] in "89ab"
  {
    var v := (128 + r[8] % 64) / 16;
    assert 8 <= v < 12;
    assert HexDigit(v) == "89ab"[v - 8];
  }

  /** All sixteen random bytes are in it but for the six bits of version and variant. */
  lemma UuidKeepsBits(r: Random16, r': Random16)
    requires NewUuid(r) == NewUuid(r')
    ensures forall k :: 0 <= k < 16 && k != 6 && k != 8 ==> r[k] == r'[k]
    ensures r[6] % 16 == r'[6] % 16 && r[8] % 64 == r'[8] % 64
  {
    var b := r[6 := 64 + r[6] % 16][8 := 128 + r[8] % 64];
    var b' := r'[6 := 64 + r'[6] % 16][8 := 128 + r'[8] % 64];
    UuidTextInjective(b, b');
    assert forall k :: 0 <= k < 16 ==> b[k] == b'[k];
    assert b[6] == 64 + r[6] % 16 && b'[6] == 64 + r'[6] % 16 && b[8] == 128 + r[8] % 64 && b'[8] == 128 + r'[8] % 64;
  }

  lemma UuidTextInjective(b: seq<byte>, b': seq<byte>)
    requires |b| == |b'| == 16 && UuidText(b) == UuidText(b')
    ensures b == b'
  {
    hide Hex, UuidText;
    UuidParts(b);
    UuidParts(b');
    HexInjective(b[0..4], b'[0..4]);
    HexInjective(b[4..6], b'[4..6]);
    HexInjective(b[6..8], b'[6..8]);
    HexInjective(b[8..10], b'[8..10]);
    HexInjective(b[10..], b'[10..]);
    assert b == b[0..4] + b[4..6] + b[6..8] + b[8..10] + b[10..];
    assert b' == b'[0..4] + b'[4..6] + b'[6..8] + b'[8..10] + b'[10..];
  }

  function Pow10(n: nat): nat {
    if n == 0 then 1 else 10 * Pow10(n - 1)
  }

  /** The number that decimal digits write. */
  function DecimalValue(s: string): int {
    if s == "" then 0 else DecimalValue(s[..|s| - 1]) * 10 + (s[|s| - 1] as int - '0' as int)
  }

  /** Exactly `width` digits, which write `n` when it has no more. */
  lemma {:induction false} PaddedExactly(n: nat, width: nat)
    ensures |Padded(n, width)| == width && forall k :: 0 <= k < width ==> '0' <= Padded(n, width)[k] <= '9'
    ensures n < Pow10(width) ==> DecimalValue(Padded(n, width)) == n
    decreases width
  {
    if width > 0 {
      PaddedExactly(n / 10, width - 1);
      var s := Padded(n, width);
      assert s[..width - 1] == Padded(n / 10, width - 1);
    }
  }
}
