/** What a PostgreSQL text column does to a Go string: it takes well-formed UTF-8 without NUL bytes, counts
    characters, and cuts blanks that stand beyond the declared length. */
module Columns {

  predicate Continues(s: string, i: nat) {
    i < |s| && 0x80 <= s[i] as int < 0xC0
  }

  /** The length of the character at the start of `s`, by section 4 of RFC 3629. Zero when there is none
      or it is malformed, and for NUL. */
  function Lead(s: string): (n: nat)
    ensures n <= |s|
  {
    if s == "" then 0
    else
      var b := s[0] as int;
      if 0 < b < 0x80 then 1
      else if 0xC2 <= b < 0xE0 && Continues(s, 1) then 2
      else if 0xE0 <= b < 0xF0 && Continues(s, 1) && Continues(s, 2)
              && (b == 0xE0 ==> s[1] as int >= 0xA0) && (b == 0xED ==> s[1] as int < 0xA0) then 3
      else if 0xF0 <= b < 0xF5 && Continues(s, 1) && Continues(s, 2) && Continues(s, 3)
              && (b == 0xF0 ==> s[1] as int >= 0x90) && (b == 0xF4 ==> s[1] as int < 0x90) then 4
      else 0
  }

  /** What the database accepts as text at all, in a column and in a query. */
  predicate ValidText(s: string)
    decreases |s|
  {
    s == "" || (Lead(s) > 0 && ValidText(s[Lead(s)..]))
  }

  function Characters(s: string): nat
    decreases |s|
  {
    if Lead(s) == 0 then 0 else 1 + Characters(s[Lead(s)..])
  }

  /** The first `n` characters. */
  function Cut(s: string, n: nat): (r: string)
    ensures r <= s
    decreases n
  {
    if n == 0 || Lead(s) == 0 then "" else s[..Lead(s)] + Cut(s[Lead(s)..], n - 1)
  }

  predicate Blank(s: string) {
    forall k :: 0 <= k < |s| ==> s[k] == ' '
  }

  /** VARCHAR(n) takes `s`, and then holds `Cut(s, n)`. */
  predicate Fits(s: string, n: nat) {
    ValidText(s) && Blank(s[|Cut(s, n)|..])
  }

  lemma LeadOfPrefix(s: string, x: string)
    requires Lead(s) > 0
    ensures Lead(s[..Lead(s)] + x) == Lead(s)
  {
    var t := s[..Lead(s)] + x;
    assert forall k :: 0 <= k < Lead(s) ==> t[k] == s[k];
  }

  lemma {:induction false} CutLength(s: string, n: nat)
    ensures Characters(Cut(s, n)) <= n
    decreases n
  {
    if n > 0 && Lead(s) > 0 {
      var rest := Cut(s[Lead(s)..], n - 1);
      LeadOfPrefix(s, rest);
      assert Cut(s, n)[Lead(s)..] == rest;
      CutLength(s[Lead(s)..], n - 1);
    }
  }

  /** A text is held as it is exactly when it is no longer than its column. */
  lemma {:induction false} HeldVerbatim(s: string, n: nat)
    requires ValidText(s)
    ensures Cut(s, n) == s <==> Characters(s) <= n
    decreases n
  {
    if s != "" && n > 0 {
      HeldVerbatim(s[Lead(s)..], n - 1);
      assert s == s[..Lead(s)] + s[Lead(s)..];
    }
  }

  // ---- plain texts ----

  ghost predicate Ascii(s: string) {
    forall k :: 0 <= k < |s| ==> 0 < s[k] as int < 0x80
  }

  lemma {:induction false} AsciiCharacters(s: string)
    requires Ascii(s)
    ensures ValidText(s) && Characters(s) == |s|
  {
    if s != "" {
      AsciiCharacters(s[1..]);
    }
  }

  lemma AsciiFits(s: string, n: nat)
    requires Ascii(s) && |s| <= n
    ensures Fits(s, n) && Cut(s, n) == s && ValidText(s)
  {
    AsciiCharacters(s);
    HeldVerbatim(s, n);
  }

  /** The first characters of an ASCII text are its first bytes. */
  lemma {:induction false} AsciiCut(s: string, n: nat)
    requires Ascii(s) && n <= |s|
    ensures Cut(s, n) == s[..n]
    decreases n
  {
    if n > 0 {
      AsciiCut(s[1..], n - 1);
      assert s[..n] == s[..1] + s[1..][..n - 1];
    }
  }

  /** `n` letters and a blank: taken, and cut. */
  lemma LettersAndBlank(c: char, n: nat)
    requires 0 < c as int < 0x80
    ensures var s := seq(n, _ => c) + " ";
            Fits(s, n) && Cut(s, n) == seq(n, _ => c) != s && ValidText(s) && Characters(s) == n + 1
  {
    var s := seq(n, _ => c) + " ";
    AsciiCharacters(s);
    AsciiCut(s, n);
    assert s[..n] == seq(n, _ => c) && s[n..] == " ";
  }
}
