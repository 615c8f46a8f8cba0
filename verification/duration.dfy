/**
 * The duration codec: `formatTime` renders a count of seconds as HH:MM:SS,
 * and the decoder inside `saveTask` reads a 1-, 2- or 3-field colon string back.
 */
module Duration {
  import opened Wrappers
  import opened Text

  predicate IsDigit(c: char) {
    '0' <= c <= '9'
  }

  /** A non-empty run of decimal digits: the only field text the model decodes. */
  predicate IsNumeral(s: string) {
    |s| >= 1 && forall i | 0 <= i < |s| :: IsDigit(s[i])
  }

  function DigitChar(d: nat): (c: char)
    requires d < 10
    ensures IsDigit(c) && c as int - '0' as int == d
  {
    ('0' as int + d) as char
  }

  function DigitValue(c: char): (d: nat)
    requires IsDigit(c)
    ensures d < 10
  {
    c as int - '0' as int
  }

  /** The value of a string of decimal digits (`Number` on a digit string; leading zeros allowed). */
  function NumeralValue(s: string): nat
    requires forall i | 0 <= i < |s| :: IsDigit(s[i])
  {
    if s == [] then 0 else NumeralValue(s[..|s| - 1]) * 10 + DigitValue(s[|s| - 1])
  }

  /** A leading zero does not change the value of a numeral. */
  lemma {:induction false} LeadingZero(s: string)
    requires forall i | 0 <= i < |s| :: IsDigit(s[i])
    ensures NumeralValue(['0'] + s) == NumeralValue(s)
  {
    if s != [] {
      var z := ['0'] + s;
      assert z[..|z| - 1] == ['0'] + s[..|s| - 1];
      LeadingZero(s[..|s| - 1]);
    } else {
      assert (['0'] + s)[..0] == [];
    }
  }

  /** `String(n)` for a non-negative integer: its decimal digits, without leading zeros. */
  function Decimal(n: nat): (s: string)
    ensures IsNumeral(s) && NumeralValue(s) == n
    ensures n > 0 ==> s[0] != '0'
    ensures n < 10 <==> |s| == 1
    ensures n < 100 ==> |s| <= 2
  {
    if n < 10 then [DigitChar(n)]
    else
      var s := Decimal(n / 10) + [DigitChar(n % 10)];
      assert s[..|s| - 1] == Decimal(n / 10);
      s
  }

  /** `String(n).padStart(2, '0')`. */
  function Pad2(n: nat): (s: string)
    ensures IsNumeral(s) && NumeralValue(s) == n
    ensures |s| >= 2
    ensures n < 100 ==> |s| == 2
    ensures n >= 10 ==> s == Decimal(n)
  {
    var d := Decimal(n);
    if |d| < 2 then
      LeadingZero(d);
      ['0'] + d
    else d
  }

  /** `formatTime`: hours (never wrapped), minutes and seconds, colon-separated. */
  function FormatTime(total: nat): string {
    Pad2(total / 3600) + ":" + Pad2(total % 3600 / 60) + ":" + Pad2(total % 60)
  }

  /**
   * The duration decoder of `saveTask`: split on ':', then SS, MM:SS or HH:MM:SS;
   * four or more fields leave the total at 0. A field that is not a numeral
   * (where JavaScript's `Number` would give NaN or coerce) does not decode.
   */
  function DecodeDuration(text: string): Option<nat> {
    DecodeFields(Split(text, ':'))
  }

  /** The branches of the decoder on the colon-separated fields. */
  function DecodeFields(parts: seq<string>): Option<nat> {
    if |parts| == 3 then
      if IsNumeral(parts[0]) && IsNumeral(parts[1]) && IsNumeral(parts[2])
      then Some(NumeralValue(parts[0]) * 3600 + NumeralValue(parts[1]) * 60 + NumeralValue(parts[2]))
      else None
    else if |parts| == 2 then
      if IsNumeral(parts[0]) && IsNumeral(parts[1])
      then Some(NumeralValue(parts[0]) * 60 + NumeralValue(parts[1]))
      else None
    else if |parts| == 1 then
      if IsNumeral(parts[0]) then Some(NumeralValue(parts[0])) else None
    else Some(0)
  }

  lemma NumeralHasNoColon(s: string)
    requires IsNumeral(s)
    ensures ':' !in s
  {
  }

  lemma JoinThree(a: string, b: string, c: string)
    ensures Join([a, b, c], ":") == a + ":" + b + ":" + c
  {
    assert [a, b, c][1..] == [b, c];
    assert [b, c][1..] == [c];
    assert Join([b, c], ":") == b + ":" + c;
    assert a + ":" + (b + ":" + c) == a + ":" + b + ":" + c;
  }

  /** The hours, minutes and seconds of a count of seconds recombine to it. */
  lemma HmsRecombine(total: nat)
    ensures total / 3600 * 3600 + total % 3600 / 60 * 60 + total % 60 == total
    ensures total % 3600 / 60 < 60 && total % 60 < 60
  {
    var r := total % 3600;
    assert total == total / 3600 * 3600 + r;
    assert r == r / 60 * 60 + r % 60;
    assert total % 60 == r % 60 by {
      assert total == (total / 3600 * 60) * 60 + r;
    }
  }

  /**
   * `formatTime` gives exactly three colon-separated numeral fields: the hours field has
   * at least two digits and is the full hour count (from 10 hours on, exactly `String(hours)`), minutes and seconds have exactly two
   * digits and stay below 60, and the three recombine to the input.
   */
  lemma {:induction false} FormatTimeFields(total: nat)
    ensures var f := Split(FormatTime(total), ':');
      && |f| == 3
      && IsNumeral(f[0]) && IsNumeral(f[1]) && IsNumeral(f[2])
      && |f[0]| >= 2 && |f[1]| == 2 && |f[2]| == 2
      && NumeralValue(f[0]) == total / 3600
      && (total / 3600 >= 10 ==> f[0] == Decimal(total / 3600))
      && NumeralValue(f[1]) < 60 && NumeralValue(f[2]) < 60
      && NumeralValue(f[0]) * 3600 + NumeralValue(f[1]) * 60 + NumeralValue(f[2]) == total
  {
    var h, m, s := Pad2(total / 3600), Pad2(total % 3600 / 60), Pad2(total % 60);
    HmsRecombine(total);
    NumeralHasNoColon(h);
    NumeralHasNoColon(m);
    NumeralHasNoColon(s);
    JoinThree(h, m, s);
    SplitJoin([h, m, s], ':');
  }

  /** Decoding the output of `formatTime` gives back the number of seconds. */
  lemma {:induction false} DecodeFormatTime(total: nat)
    ensures DecodeDuration(FormatTime(total)) == Some(total)
  {
    var h, m, s := Pad2(total / 3600), Pad2(total % 3600 / 60), Pad2(total % 60);
    DecodeThreeFields(h, m, s);
    HmsRecombine(total);
  }

  /** The three-field branch: HH:MM:SS is h*3600 + m*60 + s, whatever the size of each field. */
  lemma {:induction false} DecodeThreeFields(h: string, m: string, s: string)
    requires IsNumeral(h) && IsNumeral(m) && IsNumeral(s)
    ensures DecodeDuration(h + ":" + m + ":" + s)
         == Some(NumeralValue(h) * 3600 + NumeralValue(m) * 60 + NumeralValue(s))
  {
    NumeralHasNoColon(h);
    NumeralHasNoColon(m);
    NumeralHasNoColon(s);
    JoinThree(h, m, s);
    SplitJoin([h, m, s], ':');
  }

  /** The two-field branch: MM:SS is m*60 + s. */
  lemma {:induction false} DecodeTwoFields(m: string, s: string)
    requires IsNumeral(m) && IsNumeral(s)
    ensures DecodeDuration(m + ":" + s) == Some(NumeralValue(m) * 60 + NumeralValue(s))
  {
    NumeralHasNoColon(m);
    NumeralHasNoColon(s);
    assert Join([m, s], ":") == m + ":" + s by {
      assert [m, s][1..] == [s];
    }
    SplitJoin([m, s], ':');
  }

  /** The one-field branch: a bare numeral is a count of seconds. */
  lemma {:induction false} DecodeOneField(s: string)
    requires IsNumeral(s)
    ensures DecodeDuration(s) == Some(NumeralValue(s))
  {
    NumeralHasNoColon(s);
    SplitJoin([s], ':');
  }

  /** Four or more fields fall through every branch and decode to 0, whatever they hold. */
  lemma {:induction false} DecodeTooManyFields(parts: seq<string>)
    requires |parts| >= 4
    requires forall p | p in parts :: ':' !in p
    ensures DecodeDuration(Join(parts, ":")) == Some(0)
  {
    SplitJoin(parts, ':');
  }
}
