/**
  Positional numerals as JavaScript's `Number.prototype.toString(radix)` writes them for
  non-negative integers (lower-case digits), `String.prototype.padStart`, and the inverse
  reading of a digit string back into a number.
*/
module Numerals {

  predicate IsRadix(base: nat) {
    2 <= base <= 16
  }

  /** The digit character for `d`: '0'..'9', then 'a'..'f'. */
  function DigitChar(d: nat): (c: char)
    requires d < 16
    ensures DigitValue(c) == d
    ensures '0' <= c <= '9' || 'a' <= c <= 'f'
  {
    if d < 10 then ('0' as int + d) as char else ('a' as int + d - 10) as char
  }

  /** The value of a lower-case digit character; 16 for anything that is not one. */
  function DigitValue(c: char): nat {
    if '0' <= c <= '9' then c as int - '0' as int
    else if 'a' <= c <= 'f' then c as int - 'a' as int + 10
    else 16
  }

  predicate IsDigit(c: char, base: nat) {
    DigitValue(c) < base
  }

  predicate AllDigits(s: string, base: nat) {
    forall i :: 0 <= i < |s| ==> IsDigit(s[i], base)
  }

  /** `n.toString(base)`: the shortest digit string of `n`, most significant digit first. */
  function ToRadix(n: nat, base: nat): (s: string)
    requires IsRadix(base)
    ensures |s| >= 1
    ensures AllDigits(s, base)
    decreases n
  {
    if n < base then [DigitChar(n)] else ToRadix(n / base, base) + [DigitChar(n % base)]
  }

  /** The first digit of `n.toString(base)` is `0` only for zero: there is no leading zero. */
  lemma {:induction false} ToRadixLeadingDigit(n: nat, base: nat)
    requires IsRadix(base)
    ensures ToRadix(n, base)[0] == '0' <==> n == 0
    decreases n
  {
    if n < base {
      assert ToRadix(n, base) == [DigitChar(n)];
      assert DigitValue('0') == 0;
    } else {
      DivMod(n, base);
      var high := ToRadix(n / base, base);
      assert ToRadix(n, base) == high + [DigitChar(n % base)];
      ToRadixLeadingDigit(n / base, base);
    }
  }

  /** The number a digit string denotes in `base`. */
  function FromRadix(s: string, base: nat): nat {
    if s == [] then 0 else FromRadix(s[..|s| - 1], base) * base + DigitValue(s[|s| - 1])
  }

  /** `s.padStart(width, fill)`: `fill` repeated in front of `s` until it is `width` long. */
  function PadStart(s: string, width: nat, fill: char): (r: string)
    ensures |r| == if |s| < width then width else |s|
    ensures r[|r| - |s|..] == s
    ensures forall i :: 0 <= i < |r| - |s| ==> r[i] == fill
  {
    if |s| < width then seq(width - |s|, _ => fill) + s else s
  }

  /** Euclidean division by `base` splits `n` into its high part and its last digit. */
  lemma DivMod(n: nat, base: nat)
    requires IsRadix(base)
    ensures n == (n / base) * base + n % base && n % base < base
    ensures n < base * base ==> n / base < base
    ensures base <= n ==> 1 <= n / base < n
  {
  }

  /** Appending the last digit of `n` to a numeral of `n / base` gives a numeral of `n`. */
  lemma AppendDigit(n: nat, base: nat, high: string)
    requires IsRadix(base)
    requires FromRadix(high, base) == n / base
    ensures FromRadix(high + [DigitChar(n % base)], base) == n
  {
    var s := high + [DigitChar(n % base)];
    assert s[..|s| - 1] == high;
    DivMod(n, base);
  }

  /** Reading back what `ToRadix` wrote gives the number again. */
  lemma {:induction false} FromToRadix(n: nat, base: nat)
    requires IsRadix(base)
    ensures FromRadix(ToRadix(n, base), base) == n
    decreases n
  {
    if n >= base {
      DivMod(n, base);
      FromToRadix(n / base, base);
      AppendDigit(n, base, ToRadix(n / base, base));
    }
  }

  /** One digit exactly for the numbers below `base`, two for those below `base * base`. */
  lemma ToRadixLength(n: nat, base: nat)
    requires IsRadix(base)
    ensures n < base <==> |ToRadix(n, base)| == 1
    ensures base <= n < base * base ==> |ToRadix(n, base)| == 2
  {
    if base <= n {
      assert |ToRadix(n, base)| == |ToRadix(n / base, base)| + 1;
      DivMod(n, base);
    }
  }

  lemma {:induction false} ZerosValue(z: string, base: nat)
    requires forall i :: 0 <= i < |z| ==> z[i] == '0'
    ensures FromRadix(z, base) == 0
    decreases |z|
  {
    if z != [] {
      ZerosValue(z[..|z| - 1], base);
    }
  }

  /** Leading zeros do not change the value of a numeral. */
  lemma {:induction false} LeadingZeros(z: string, s: string, base: nat)
    requires forall i :: 0 <= i < |z| ==> z[i] == '0'
    ensures FromRadix(z + s, base) == FromRadix(s, base)
    decreases |s|
  {
    if s == [] {
      assert z + s == z;
      ZerosValue(z, base);
    } else {
      var t := z + s;
      assert t[..|t| - 1] == z + s[..|s| - 1];
      assert t[|t| - 1] == s[|s| - 1];
      LeadingZeros(z, s[..|s| - 1], base);
    }
  }

  /** Padding a numeral with '0' keeps it a numeral of the same value. */
  lemma ZeroPaddedValue(s: string, width: nat, base: nat)
    requires IsRadix(base)
    requires AllDigits(s, base)
    ensures AllDigits(PadStart(s, width, '0'), base)
    ensures FromRadix(PadStart(s, width, '0'), base) == FromRadix(s, base)
  {
    var r := PadStart(s, width, '0');
    var z := r[..|r| - |s|];
    assert r == z + s;
    assert DigitValue('0') == 0;
    LeadingZeros(z, s, base);
  }
}
