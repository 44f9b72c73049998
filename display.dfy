/**
  The countdown shown on the game card: `formatTime` turns a number of seconds into
  `HH:MM:SS`, each field the decimal value padded with '0' to at least two characters.
  `ParseClock` reads such a text back; it is the partner that the round trip is proved against.
*/
module Display {
  import opened Wrappers
  import opened Numerals

  /** One field of the clock: `n.toString().padStart(2, '0')`. */
  function Field(n: nat): string {
    PadStart(ToRadix(n, 10), 2, '0')
  }

  /** `formatTime(seconds)`: hours (unbounded), minutes of the hour, seconds of the minute. */
  function FormatTime(seconds: nat): string {
    var hours := seconds / 3600;
    var minutes := (seconds % 3600) / 60;
    var secs := seconds % 60;
    Field(hours) + ":" + Field(minutes) + ":" + Field(secs)
  }

  /** The number of seconds in `h` hours, `m` minutes and `s` seconds. */
  function ClockSeconds(h: nat, m: nat, s: nat): nat {
    h * 3600 + m * 60 + s
  }

  /**
    Reads `H..H:MM:SS` (two or more hour digits, minute and second fields below 60) back
    into a number of seconds; `None` for any other text.
  */
  function ParseClock(t: string): Option<nat> {
    if |t| >= 8 && t[|t| - 6] == ':' && t[|t| - 3] == ':' then
      var h, m, s := t[..|t| - 6], t[|t| - 5..|t| - 3], t[|t| - 2..];
      if AllDigits(h, 10) && AllDigits(m, 10) && AllDigits(s, 10)
         && FromRadix(m, 10) < 60 && FromRadix(s, 10) < 60
      then Some(ClockSeconds(FromRadix(h, 10), FromRadix(m, 10), FromRadix(s, 10)))
      else None
    else None
  }

  /** A field is a decimal numeral of at least two characters that reads back as `n`; exactly two below 100. */
  lemma FieldFacts(n: nat)
    ensures |Field(n)| >= 2 && AllDigits(Field(n), 10)
    ensures FromRadix(Field(n), 10) == n
    ensures n < 100 ==> |Field(n)| == 2
  {
    ToRadixLength(n, 10);
    ZeroPaddedValue(ToRadix(n, 10), 2, 10);
    FromToRadix(n, 10);
  }

  /** The three parts of `seconds` recombine to it. */
  lemma ClockArithmetic(seconds: nat)
    ensures ClockSeconds(seconds / 3600, (seconds % 3600) / 60, seconds % 60) == seconds
    ensures (seconds % 3600) / 60 < 60
  {
    var r := seconds % 3600;
    assert seconds == (seconds / 3600) * 3600 + r;
    assert r == (r / 60) * 60 + r % 60;
    assert seconds % 60 == r % 60 by {
      assert seconds == ((seconds / 3600) * 60) * 60 + r;
    }
  }

  /** Where the parts of `a:b:c` sit, for a two-character `b` and `c`. */
  lemma JoinedParts(a: string, b: string, c: string)
    requires |b| == 2 && |c| == 2
    ensures var t := a + ":" + b + ":" + c;
      |t| == |a| + 6 && t[|t| - 6] == ':' && t[|t| - 3] == ':'
      && t[..|t| - 6] == a && t[|t| - 5..|t| - 3] == b && t[|t| - 2..] == c
  {
    var t := a + ":" + b + ":" + c;
    assert t == a + ([':'] + b + [':'] + c);
  }

  /** `a:b:c` reads back as the seconds its three numerals stand for. */
  lemma ParseJoined(a: string, b: string, c: string)
    requires |a| >= 2 && |b| == 2 && |c| == 2
    requires AllDigits(a, 10) && AllDigits(b, 10) && AllDigits(c, 10)
    requires FromRadix(b, 10) < 60 && FromRadix(c, 10) < 60
    ensures ParseClock(a + ":" + b + ":" + c)
      == Some(ClockSeconds(FromRadix(a, 10), FromRadix(b, 10), FromRadix(c, 10)))
  {
    JoinedParts(a, b, c);
  }

  /** Three fields joined by ':' read back as the seconds they stand for. */
  lemma ParseFields(h: nat, m: nat, s: nat)
    requires m < 60 && s < 60
    ensures ParseClock(Field(h) + ":" + Field(m) + ":" + Field(s)) == Some(ClockSeconds(h, m, s))
  {
    FieldFacts(h);
    FieldFacts(m);
    FieldFacts(s);
    ParseJoined(Field(h), Field(m), Field(s));
  }

  /** The text `formatTime` shows reads back as the number of seconds it was given. */
  lemma ParseFormatTime(seconds: nat)
    ensures ParseClock(FormatTime(seconds)) == Some(seconds)
  {
    ClockArithmetic(seconds);
    ParseFields(seconds / 3600, (seconds % 3600) / 60, seconds % 60);
  }

  /** Different numbers of seconds are shown as different texts. */
  lemma FormatTimeInjective(a: nat, b: nat)
    requires FormatTime(a) == FormatTime(b)
    ensures a == b
  {
    ParseFormatTime(a);
    ParseFormatTime(b);
  }

  /** The shape of three joined fields: eight characters while the first field stays below 100. */
  lemma FieldsShape(h: nat, m: nat, s: nat)
    requires m < 60 && s < 60
    ensures var t := Field(h) + ":" + Field(m) + ":" + Field(s);
      |t| >= 8 && (h < 100 ==> |t| == 8) && t[|t| - 3] == ':' && t[|t| - 6] == ':'
  {
    FieldFacts(h);
    FieldFacts(m);
    FieldFacts(s);
    JoinedParts(Field(h), Field(m), Field(s));
  }

  /** The shape of the text: eight characters `HH:MM:SS` while the hours stay below 100. */
  lemma FormatTimeShape(seconds: nat)
    ensures |FormatTime(seconds)| >= 8
    ensures seconds < 360000 ==> |FormatTime(seconds)| == 8
    ensures FormatTime(seconds)[|FormatTime(seconds)| - 3] == ':'
    ensures FormatTime(seconds)[|FormatTime(seconds)| - 6] == ':'
  {
    var h, m, s := seconds / 3600, (seconds % 3600) / 60, seconds % 60;
    ClockArithmetic(seconds);
    assert FormatTime(seconds) == Field(h) + ":" + Field(m) + ":" + Field(s);
    FieldsShape(h, m, s);
  }

  /** The two values the countdown is documented with. */
  lemma FormatTimeExamples()
    ensures FormatTime(0) == "00:00:00"
    ensures FormatTime(3661) == "01:01:01"
  {
    SmallField(0);
    SmallField(1);
    var zero, one := Field(0), Field(1);
    assert zero == "00" && one == "01";
    assert FormatTime(0) == zero + ":" + zero + ":" + zero;
    assert 3661 / 3600 == 1 && (3661 % 3600) / 60 == 1 && 3661 % 60 == 1;
    assert FormatTime(3661) == one + ":" + one + ":" + one;
  }

  /** A one-digit field is that digit behind a '0'. */
  lemma SmallField(d: nat)
    requires d < 10
    ensures Field(d) == ['0', DigitChar(d)]
  {
    assert ToRadix(d, 10) == [DigitChar(d)];
  }
}
