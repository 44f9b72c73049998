/**
  The string operations the attempt logic relies on: `toLowerCase` on account addresses (which
  are ASCII hexadecimal text, so only 'A'..'Z' change), the case-insensitive address comparison
  built on it, `String.prototype.includes`, and `formatAddress`, the shortened display of an address.
*/
module Strings {

  predicate IsUpper(c: char) {
    'A' <= c <= 'Z'
  }

  function LowerChar(c: char): char {
    if IsUpper(c) then (c as int + 32) as char else c
  }

  /** `s.toLowerCase()` on ASCII text: every upper-case letter replaced by its lower-case one. */
  function ToLower(s: string): (r: string)
    ensures |r| == |s|
    ensures forall i :: 0 <= i < |s| ==> r[i] == LowerChar(s[i])
  {
    if s == [] then [] else [LowerChar(s[0])] + ToLower(s[1..])
  }

  /** `a.toLowerCase() === b.toLowerCase()`. */
  predicate SameAddress(a: string, b: string) {
    ToLower(a) == ToLower(b)
  }

  /** Two characters that differ at most in ASCII letter case. */
  predicate CharsMatch(c: char, d: char) {
    c == d || (IsUpper(c) && d as int == c as int + 32) || (IsUpper(d) && c as int == d as int + 32)
  }

  /** Lowering two characters gives the same one exactly when they differ at most in case. */
  lemma LowerCharMatch(c: char, d: char)
    ensures LowerChar(c) == LowerChar(d) <==> CharsMatch(c, d)
  {
  }

  /** The comparison holds exactly when the addresses have the same length and match position by position. */
  lemma SameAddressIff(a: string, b: string)
    ensures SameAddress(a, b) <==> |a| == |b| && forall i :: 0 <= i < |a| ==> CharsMatch(a[i], b[i])
  {
    if |a| == |b| && forall i :: 0 <= i < |a| ==> CharsMatch(a[i], b[i]) {
      forall i | 0 <= i < |a| ensures ToLower(a)[i] == ToLower(b)[i] {
        LowerCharMatch(a[i], b[i]);
      }
    }
    if SameAddress(a, b) {
      forall i | 0 <= i < |a| ensures CharsMatch(a[i], b[i]) {
        assert ToLower(a)[i] == ToLower(b)[i];
        LowerCharMatch(a[i], b[i]);
      }
    }
  }

  /** The comparison is an equivalence: reflexive, symmetric and transitive. */
  lemma SameAddressEquivalence(a: string, b: string, c: string)
    ensures SameAddress(a, a)
    ensures SameAddress(a, b) ==> SameAddress(b, a)
    ensures SameAddress(a, b) && SameAddress(b, c) ==> SameAddress(a, c)
  {
  }

  /** Lowering twice is lowering once. */
  lemma ToLowerIdempotent(s: string)
    ensures ToLower(ToLower(s)) == ToLower(s)
  {
    assert forall i :: 0 <= i < |s| ==> LowerChar(LowerChar(s[i])) == LowerChar(s[i]);
  }

  /** `s.includes(t)`: some window of `s` equals `t`. */
  function Contains(s: string, t: string): bool
    decreases |s|
  {
    if |s| < |t| then false else s[..|t|] == t || Contains(s[1..], t)
  }

  /** `t` occurs in `s` starting at position `i`. */
  predicate MatchesAt(s: string, t: string, i: int) {
    0 <= i && i + |t| <= |s| && s[i..i + |t|] == t
  }

  /** `Contains` agrees with its definition as the existence of a matching window. */
  lemma {:induction false} ContainsIff(s: string, t: string)
    ensures Contains(s, t) <==> exists i :: MatchesAt(s, t, i)
    decreases |s|
  {
    if |s| >= |t| && s != [] {
      ContainsIff(s[1..], t);
      if Contains(s[1..], t) {
        var i :| MatchesAt(s[1..], t, i);
        assert s[i + 1..i + 1 + |t|] == s[1..][i..i + |t|];
        assert MatchesAt(s, t, i + 1);
      }
      if s[..|t|] == t {
        assert MatchesAt(s, t, 0);
      }
      if exists i :: MatchesAt(s, t, i) {
        var i :| MatchesAt(s, t, i);
        if i > 0 {
          assert s[1..][i - 1..i - 1 + |t|] == s[i..i + |t|];
          assert MatchesAt(s[1..], t, i - 1);
        }
      }
    } else if s == [] && t == [] {
      assert MatchesAt(s, t, 0);
    }
  }

  function Min(a: int, b: int): int {
    if a < b then a else b
  }

  /** `address.slice(0, 6) + "..." + address.slice(-4)`, with `slice`'s clamping for short texts. */
  function FormatAddress(a: string): (r: string)
    ensures |r| == Min(|a|, 6) + 3 + Min(|a|, 4)
  {
    a[..Min(|a|, 6)] + "..." + a[|a| - Min(|a|, 4)..]
  }

  /** The display is the first six characters, then `...`, then the last four, each clamped to the text. */
  lemma FormatAddressParts(a: string)
    ensures var p := Min(|a|, 6); var s := Min(|a|, 4); var r := FormatAddress(a);
      r[..p] == a[..p] && r[p..p + 3] == "..." && r[p + 3..] == a[|a| - s..]
  {
    var p := Min(|a|, 6);
    var r := FormatAddress(a);
    assert r == a[..p] + "..." + a[|a| - Min(|a|, 4)..];
    assert r[..p] == a[..p];
    assert r[p..p + 3] == "...";
  }

  /** For a 42-character address the display keeps `0x` and four digits, then the last four digits. */
  lemma FormatAddressOfAddress(a: string)
    requires |a| == 42
    ensures var r := FormatAddress(a);
      |r| == 13 && r[..6] == a[..6] && r[6..9] == "..." && r[9..] == a[38..]
  {
    FormatAddressParts(a);
  }
}
