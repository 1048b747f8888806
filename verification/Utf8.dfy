/** UTF-8 by its definition in section 3 of RFC 3629, and `Columns` against it: a text that the database takes is
    the encoding of characters other than NUL, counted one by one. */
module Utf8 {
  import opened Columns

  /** A character number: neither NUL nor a surrogate. */
  predicate Scalar(n: int) {
    0 < n < 0xD800 || 0xE000 <= n < 0x11_0000
  }

  function Byte(n: int): char
    requires 0 <= n < 0x100
  {
    n as char
  }

  function Encode(n: int): string
    requires Scalar(n)
  {
    if n < 0x80 then [Byte(n)]
    else if n < 0x800 then [Byte(0xC0 + n / 0x40), Byte(0x80 + n % 0x40)]
    else if n < 0x1_0000 then [Byte(0xE0 + n / 0x1000), Byte(0x80 + n / 0x40 % 0x40), Byte(0x80 + n % 0x40)]
    else
      [Byte(0xF0 + n / 0x4_0000), Byte(0x80 + n / 0x1000 % 0x40), Byte(0x80 + n / 0x40 % 0x40), Byte(0x80 + n % 0x40)]
  }

  ghost predicate AllScalar(ns: seq<int>) {
    forall k :: 0 <= k < |ns| ==> Scalar(ns[k])
  }

  function EncodeAll(ns: seq<int>): string
    requires AllScalar(ns)
  {
    if ns == [] then "" else Encode(ns[0]) + EncodeAll(ns[1..])
  }

  /** The six bits that a continuation byte adds. */
  function Bits(s: string, i: nat): int
    requires i < |s|
  {
    s[i] as int - 0x80
  }

  /** The first character of `s`. */
  function First(s: string): int
    requires Lead(s) > 0
  {
    var b := s[0] as int;
    if Lead(s) == 1 then b
    else if Lead(s) == 2 then (b - 0xC0) * 0x40 + Bits(s, 1)
    else if Lead(s) == 3 then ((b - 0xE0) * 0x40 + Bits(s, 1)) * 0x40 + Bits(s, 2)
    else (((b - 0xF0) * 0x40 + Bits(s, 1)) * 0x40 + Bits(s, 2)) * 0x40 + Bits(s, 3)
  }

  lemma LeadOfShort(n: int, x: string)
    requires Scalar(n) && n < 0x800
    ensures Lead(Encode(n) + x) == |Encode(n)|
  {
    var s := Encode(n) + x;
    assert forall k :: 0 <= k < |Encode(n)| ==> s[k] == Encode(n)[k];
  }

  lemma LeadOfThree(n: int, x: string)
    requires Scalar(n) && 0x800 <= n < 0x1_0000
    ensures Lead(Encode(n) + x) == 3
  {
    var s := Encode(n) + x;
    assert s[0] == Encode(n)[0] && s[1] == Encode(n)[1] && s[2] == Encode(n)[2];
  }

  lemma LeadOfFour(n: int, x: string)
    requires Scalar(n) && 0x1_0000 <= n
    ensures Lead(Encode(n) + x) == 4
  {
    var s := Encode(n) + x;
    assert s[0] == Encode(n)[0] && s[1] == Encode(n)[1] && s[2] == Encode(n)[2] && s[3] == Encode(n)[3];
  }

  lemma LeadOfEncoded(n: int, x: string)
    requires Scalar(n)
    ensures Lead(Encode(n) + x) == |Encode(n)|
  {
    hide Lead;
    if n < 0x800 {
      LeadOfShort(n, x);
    } else if n < 0x1_0000 {
      LeadOfThree(n, x);
    } else {
      LeadOfFour(n, x);
    }
  }

  /** A number in base 64. */
  lemma SixBits(a: nat, b: int, c: int, d: int)
    requires 0 <= b < 0x40 && 0 <= c < 0x40 && 0 <= d < 0x40
    ensures (a * 0x40 + b) / 0x40 == a && (a * 0x40 + b) % 0x40 == b
    ensures ((a * 0x40 + b) * 0x40 + c) / 0x1000 == a
    ensures (((a * 0x40 + b) * 0x40 + c) * 0x40 + d) / 0x4_0000 == a
    ensures (((a * 0x40 + b) * 0x40 + c) * 0x40 + d) / 0x1000 == a * 0x40 + b
  {
  }

  lemma FirstOfTwo(s: string)
    requires Lead(s) == 2
    ensures Scalar(First(s)) && Encode(First(s)) == s[..2]
  {
    SixBits(s[0] as int - 0xC0, Bits(s, 1), 0, 0);
  }

  lemma FirstOfThree(s: string)
    requires Lead(s) == 3
    ensures Scalar(First(s)) && Encode(First(s)) == s[..3]
  {
    var a, b, c := s[0] as int - 0xE0, Bits(s, 1), Bits(s, 2);
    SixBits(a, b, c, 0);
    SixBits(a * 0x40 + b, c, 0, 0);
  }

  lemma FirstOfFour(s: string)
    requires Lead(s) == 4
    ensures Scalar(First(s)) && Encode(First(s)) == s[..4]
  {
    var a, b, c, d := s[0] as int - 0xF0, Bits(s, 1), Bits(s, 2), Bits(s, 3);
    SixBits(a, b, c, d);
    SixBits(a * 0x40 + b, c, d, 0);
    SixBits((a * 0x40 + b) * 0x40 + c, d, 0, 0);
  }

  lemma FirstIsEncoded(s: string)
    requires Lead(s) > 0
    ensures Scalar(First(s)) && Encode(First(s)) == s[..Lead(s)]
  {
    if Lead(s) == 2 {
      FirstOfTwo(s);
    } else if Lead(s) == 3 {
      FirstOfThree(s);
    } else if Lead(s) == 4 {
      FirstOfFour(s);
    }
  }

  lemma {:induction false} EncodedIsValid(ns: seq<int>)
    requires AllScalar(ns)
    ensures ValidText(EncodeAll(ns)) && Characters(EncodeAll(ns)) == |ns|
  {
    hide Lead, Encode;
    if ns != [] {
      var rest := EncodeAll(ns[1..]);
      LeadOfEncoded(ns[0], rest);
      EncodeNotEmpty(ns[0]);
      assert EncodeAll(ns)[|Encode(ns[0])|..] == rest;
      EncodedIsValid(ns[1..]);
    } else {
      assert EncodeAll(ns) == "" && Lead("") == 0 by { NoLead(); }
    }
  }

  lemma NoLead()
    ensures Lead("") == 0
  {
  }

  lemma EncodeNotEmpty(n: int)
    requires Scalar(n)
    ensures Encode(n) != ""
  {
  }

  lemma {:induction false} ValidIsEncoded(s: string) returns (ns: seq<int>)
    requires ValidText(s)
    ensures AllScalar(ns) && EncodeAll(ns) == s
    decreases |s|
  {
    hide Lead, Encode;
    if s == "" {
      ns := [];
    } else {
      var rest := ValidIsEncoded(s[Lead(s)..]);
      FirstIsEncoded(s);
      ns := [First(s)] + rest;
      assert ns[1..] == rest && s == s[..Lead(s)] + s[Lead(s)..];
    }
  }

  /** Exactly the encodings of characters are taken as text. */
  lemma ValidTextExactly(s: string)
    ensures ValidText(s) <==> exists ns :: AllScalar(ns) && EncodeAll(ns) == s
  {
    hide ValidText;
    if ValidText(s) {
      var ns := ValidIsEncoded(s);
    }
    forall ns | AllScalar(ns) && EncodeAll(ns) == s ensures ValidText(s) {
      EncodedIsValid(ns);
    }
  }

  /** What a column of `n` characters holds is the first `n` characters. */
  lemma {:induction false} CutIsPrefix(ns: seq<int>, n: nat)
    requires AllScalar(ns) && n <= |ns|
    ensures Cut(EncodeAll(ns), n) == EncodeAll(ns[..n])
    decreases n
  {
    hide Lead, Encode;
    if n > 0 {
      var rest := EncodeAll(ns[1..]);
      LeadOfEncoded(ns[0], rest);
      EncodeNotEmpty(ns[0]);
      assert EncodeAll(ns)[|Encode(ns[0])|..] == rest && EncodeAll(ns)[..|Encode(ns[0])|] == Encode(ns[0]);
      CutIsPrefix(ns[1..], n - 1);
      assert ns[..n][0] == ns[0] && ns[..n][1..] == ns[1..][..n - 1];
    }
  }

  /** A column takes a text exactly when it is one and what stands beyond the declared length is blanks. */
  lemma FitsExactly(ns: seq<int>, n: nat)
    requires AllScalar(ns)
    ensures Fits(EncodeAll(ns), n) <==> forall k :: n <= k < |ns| ==> ns[k] == 0x20
  {
    hide Cut;
    EncodedIsValid(ns);
    if n < |ns| {
      CutIsPrefix(ns, n);
      Split(ns, n);
      BlanksOnly(ns[n..]);
    } else {
      HeldVerbatim(EncodeAll(ns), n);
    }
  }

  lemma {:induction false} Split(ns: seq<int>, n: nat)
    requires AllScalar(ns) && n <= |ns|
    ensures EncodeAll(ns) == EncodeAll(ns[..n]) + EncodeAll(ns[n..])
  {
    hide Encode;
    if n > 0 {
      Split(ns[1..], n - 1);
      assert ns[..n][1..] == ns[1..][..n - 1] && ns[1..][n - 1..] == ns[n..];
    } else {
      assert ns[n..] == ns;
    }
  }

  lemma {:induction false} BlanksOnly(ns: seq<int>)
    requires AllScalar(ns)
    ensures Blank(EncodeAll(ns)) <==> forall k :: 0 <= k < |ns| ==> ns[k] == 0x20
  {
    if ns != [] {
      BlanksOnly(ns[1..]);
      var first, rest := Encode(ns[0]), EncodeAll(ns[1..]);
      assert Blank(first + rest) <==> Blank(first) && Blank(rest) by { BlankParts(first, rest); }
      BlankCharacter(ns[0]);
      assert forall k :: 1 <= k < |ns| ==> ns[k] == ns[1..][k - 1];
      assert forall k :: 0 <= k < |ns| - 1 ==> ns[1..][k] == ns[k + 1];
    }
  }

  lemma BlankParts(s: string, t: string)
    ensures Blank(s + t) <==> Blank(s) && Blank(t)
  {
    assert forall k :: 0 <= k < |s| ==> (s + t)[k] == s[k];
    assert forall k :: 0 <= k < |t| ==> (s + t)[|s| + k] == t[k];
  }

  lemma BlankCharacter(n: int)
    requires Scalar(n)
    ensures Blank(Encode(n)) <==> n == 0x20
  {
    assert Encode(n)[0] == ' ' <==> n == 0x20;
  }
}
