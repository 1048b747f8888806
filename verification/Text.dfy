/** The string clean-up the services apply to identifiers: trimming and lower-casing, on ASCII. */
module Text {

  predicate IsSpace(c: char) {
    c == ' ' || '\t' <= c <= '\r'
  }

  function TrimLeft(s: string): (r: string)
    ensures r == "" || !IsSpace(r[0])
    ensures |r| <= |s|
  {
    if s != "" && IsSpace(s[0]) then TrimLeft(s[1..]) else s
  }

  function TrimRight(s: string): (r: string)
    ensures r == "" || !IsSpace(r[|r| - 1])
    ensures r <= s
  {
    if s != "" && IsSpace(s[|s| - 1]) then TrimRight(s[..|s| - 1]) else s
  }

  function Trim(s: string): (r: string)
    ensures r == "" || (!IsSpace(r[0]) && !IsSpace(r[|r| - 1]))
    ensures Trimmed(r)
  {
    TrimRight(TrimLeft(s))
  }

  predicate Trimmed(s: string) {
    s == "" || (!IsSpace(s[0]) && !IsSpace(s[|s| - 1]))
  }

  function LowerChar(c: char): char {
    if 'A' <= c <= 'Z' then 'a' + (c - 'A') else c
  }

  function Lower(s: string): (r: string)
    ensures |r| == |s|
    ensures forall k :: 0 <= k < |s| ==> r[k] == LowerChar(s[k])
  {
    seq(|s|, k requires 0 <= k < |s| => LowerChar(s[k]))
  }

  // ---- what trimming and lower-casing do ----

  /** The blank, and the five control characters from tab to carriage return. */
  predicate WhiteChar(c: char) {
    c as int == 32 || 9 <= c as int <= 13
  }

  predicate White(s: string) {
    forall k :: 0 <= k < |s| ==> WhiteChar(s[k])
  }

  lemma {:induction false} TrimLeftExactly(s: string)
    ensures |TrimLeft(s)| <= |s| && TrimLeft(s) == s[|s| - |TrimLeft(s)|..] && White(s[..|s| - |TrimLeft(s)|])
  {
    if s != "" && IsSpace(s[0]) {
      TrimLeftExactly(s[1..]);
      var k := |s| - |TrimLeft(s)|;
      assert s[..k] == [s[0]] + s[1..][..k - 1];
    }
  }

  lemma {:induction false} TrimRightExactly(s: string)
    ensures TrimRight(s) <= s && White(s[|TrimRight(s)|..])
  {
    if s != "" && IsSpace(s[|s| - 1]) {
      TrimRightExactly(s[..|s| - 1]);
      var k := |TrimRight(s)|;
      assert s[k..] == s[..|s| - 1][k..] + [s[|s| - 1]];
    }
  }

  /** Trimming takes white space off both ends, all of it and nothing else. */
  lemma TrimExactly(s: string) returns (i: nat, j: nat)
    ensures i <= j <= |s| && Trim(s) == s[i..j] && White(s[..i]) && White(s[j..])
    ensures i < j ==> !WhiteChar(s[i]) && !WhiteChar(s[j - 1])
  {
    TrimLeftExactly(s);
    TrimRightExactly(TrimLeft(s));
    hide TrimLeft, TrimRight, White;
    i := |s| - |TrimLeft(s)|;
    j := i + |Trim(s)|;
    assert s[i..j] == TrimLeft(s)[..j - i] && s[j..] == TrimLeft(s)[j - i..];
  }

  /** A capital and the small letter 32 places after it. */
  predicate LetterPair(capital: char, small: char) {
    65 <= capital as int <= 90 && small as int == capital as int + 32
  }

  /** The same text but for the case of letters. */
  predicate SameButCase(a: string, b: string) {
    |a| == |b|
    && forall k :: 0 <= k < |a| ==> a[k] == b[k] || LetterPair(a[k], b[k]) || LetterPair(b[k], a[k])
  }

  /** Lower-casing turns every capital into its small letter and keeps every other character. */
  lemma LowerExactly(s: string, k: nat)
    requires k < |s|
    ensures if 65 <= s[k] as int <= 90 then LetterPair(s[k], Lower(s)[k]) else Lower(s)[k] == s[k]
  {
  }

  /** Two texts have one lower-case form exactly when they are the same but for the case of letters. */
  lemma LowerEqualExactly(a: string, b: string)
    ensures Lower(a) == Lower(b) <==> SameButCase(a, b)
  {
    hide Lower, LowerChar;
    if |a| == |b| {
      forall k | 0 <= k < |a|
        ensures Lower(a)[k] == Lower(b)[k] <==> a[k] == b[k] || LetterPair(a[k], b[k]) || LetterPair(b[k], a[k])
      {
        LowerExactly(a, k);
        LowerExactly(b, k);
      }
    }
  }
}
