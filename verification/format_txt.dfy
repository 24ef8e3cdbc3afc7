/**
 TXT amounts as text. One TXT is 10^10 raw units; the printer divides and takes the remainder
 towards zero, as `i64` arithmetic does, pads the remainder to ten digits and trims zeros.
 A reader for such text, written independently, says what the text means.
 */
module FormatTxt {
  import opened Wrappers

  const TXT_DECIMALS: int := 10_000_000_000
  const FRACTION_DIGITS: nat := 10

  // ---------------------------------------------------------------------------------------------
  // Digits
  // ---------------------------------------------------------------------------------------------

  const DIGITS: string := "0123456789"

  predicate IsDigit(c: char)
  {
    '0' <= c <= '9'
  }

  predicate AllDigits(s: string)
  {
    forall i :: 0 <= i < |s| ==> IsDigit(s[i])
  }

  function DigitOf(d: nat): (c: char)
    requires d < 10
    ensures IsDigit(c) && ValueOf(c) == d && (c == '0' <==> d == 0)
  {
    DIGITS[d]
  }

  function ValueOf(c: char): (d: nat)
    requires IsDigit(c)
    ensures d < 10
  {
    (c as int) - ('0' as int)
  }

  /** `{}` of a non-negative number. */
  function Print(n: nat): (s: string)
    ensures |s| > 0 && AllDigits(s)
  {
    if n < 10 then [DigitOf(n)] else Print(n / 10) + [DigitOf(n % 10)]
  }

  /** `{:0width}` of a number below `10^width`. */
  function PrintPadded(n: nat, width: nat): (s: string)
    ensures |s| == width && AllDigits(s)
  {
    if width == 0 then "" else PrintPadded(n / 10, width - 1) + [DigitOf(n % 10)]
  }

  function Read(s: string): (n: nat)
    requires AllDigits(s)
  {
    if s == "" then 0 else 10 * Read(s[..|s| - 1]) + ValueOf(s[|s| - 1])
  }

  function Pow10(k: nat): (p: nat)
    ensures p > 0
  {
    if k == 0 then 1 else 10 * Pow10(k - 1)
  }

  lemma ReadSnoc(s: string, c: char)
    requires AllDigits(s) && IsDigit(c)
    ensures AllDigits(s + [c]) && Read(s + [c]) == 10 * Read(s) + ValueOf(c)
  {
    assert (s + [c])[..|s|] == s;
  }

  lemma {:induction false} ReadOfPrint(n: nat)
    ensures Read(Print(n)) == n
  {
    if n < 10 {
      assert Print(n)[..0] == "";
    } else {
      ReadOfPrint(n / 10);
      ReadSnoc(Print(n / 10), DigitOf(n % 10));
    }
  }

  lemma {:induction false} ReadOfPrintPadded(n: nat, width: nat)
    requires n < Pow10(width)
    ensures Read(PrintPadded(n, width)) == n
  {
    if width > 0 {
      ReadOfPrintPadded(n / 10, width - 1);
      ReadSnoc(PrintPadded(n / 10, width - 1), DigitOf(n % 10));
    }
  }

  // ---------------------------------------------------------------------------------------------
  // Fractions
  // ---------------------------------------------------------------------------------------------

  /** The raw units that the digits after the point stand for. */
  function FractionValue(s: string): (n: nat)
    requires AllDigits(s) && |s| <= FRACTION_DIGITS
  {
    Read(s) * Pow10(FRACTION_DIGITS - |s|)
  }

  /** `trim_end_matches('0')`. */
  function TrimZeros(s: string): (r: string)
    ensures |r| <= |s| && r == s[..|r|]
    ensures r != "" ==> r[|r| - 1] != '0'
  {
    if s != "" && s[|s| - 1] == '0' then TrimZeros(s[..|s| - 1]) else s
  }

  lemma DroppedZero(s: string)
    requires AllDigits(s) && |s| < FRACTION_DIGITS
    ensures AllDigits(s + ['0']) && FractionValue(s + ['0']) == FractionValue(s)
  {
    hide Read;
    ReadSnoc(s, '0');
    var a, b := Read(s), Pow10(FRACTION_DIGITS - |s| - 1);
    assert Pow10(FRACTION_DIGITS - |s|) == 10 * b;
    assert (10 * a) * b == a * (10 * b);
  }

  lemma {:induction false} TrimKeepsFraction(s: string)
    requires AllDigits(s) && |s| <= FRACTION_DIGITS
    ensures AllDigits(TrimZeros(s)) && FractionValue(TrimZeros(s)) == FractionValue(s)
  {
    if s != "" && s[|s| - 1] == '0' {
      var t := s[..|s| - 1];
      TrimKeepsFraction(t);
      DroppedZero(t);
      assert s == t + ['0'];
    }
  }

  /** Trimming stops at the point at the latest. */
  lemma {:induction false} TrimStopsAtPoint(whole: string, fraction: string)
    ensures TrimZeros(whole + "." + fraction) == whole + "." + TrimZeros(fraction)
  {
    var s := whole + "." + fraction;
    if fraction != "" && fraction[|fraction| - 1] == '0' {
      TrimStopsAtPoint(whole, fraction[..|fraction| - 1]);
      assert s[..|s| - 1] == whole + "." + fraction[..|fraction| - 1];
    } else {
      assert fraction == "" ==> s[|s| - 1] == '.';
    }
  }

  // ---------------------------------------------------------------------------------------------
  // The printer
  // ---------------------------------------------------------------------------------------------

  /** Division and remainder of `i64`: towards zero. */
  function TruncDiv(a: int, b: int): (r: int)
    requires b > 0
  {
    if a >= 0 then a / b else -(-a / b)
  }

  function TruncRem(a: int, b: int): (r: int)
    requires b > 0
    ensures a == b * TruncDiv(a, b) + r
  {
    a - b * TruncDiv(a, b)
  }

  function Abs(a: int): (r: nat)
  {
    if a >= 0 then a else -a
  }

  /** `{}` of a signed number. */
  function PrintSigned(n: int): (s: string)
  {
    if n < 0 then "-" + Print(-n) else Print(n)
  }

  function Format(raw: int): (s: string)
  {
    var whole := TruncDiv(raw, TXT_DECIMALS);
    var frac := Abs(TruncRem(raw, TXT_DECIMALS));
    if frac == 0 then PrintSigned(whole)
    else TrimZeros(PrintSigned(whole) + "." + PrintPadded(frac, FRACTION_DIGITS))
  }

  // ---------------------------------------------------------------------------------------------
  // The reader
  // ---------------------------------------------------------------------------------------------

  function IndexOf(s: string, c: char): (r: nat)
    ensures r <= |s|
    ensures forall i :: 0 <= i < r ==> s[i] != c
    ensures r < |s| ==> s[r] == c
  {
    if s == "" then 0 else if s[0] == c then 0 else 1 + IndexOf(s[1..], c)
  }

  /** Digits, then perhaps a point and up to ten more digits. */
  function ReadUnsigned(s: string): (r: Option<nat>)
  {
    var p := IndexOf(s, '.');
    var whole := s[..p];
    if whole == "" || !AllDigits(whole) then None
    else if p == |s| then Some(Read(whole) * TXT_DECIMALS)
    else
      var fraction := s[p + 1..];
      if fraction == "" || |fraction| > FRACTION_DIGITS || !AllDigits(fraction) then None
      else Some(Read(whole) * TXT_DECIMALS + FractionValue(fraction))
  }

  function ReadTxt(s: string): (r: Option<int>)
  {
    if s != "" && s[0] == '-' then
      match ReadUnsigned(s[1..])
      case None => None
      case Some(n) => Some(-(n as int))
    else
      match ReadUnsigned(s)
      case None => None
      case Some(n) => Some(n)
  }

  lemma PointPosition(whole: string, fraction: string)
    requires AllDigits(whole)
    ensures IndexOf(whole + "." + fraction, '.') == |whole|
    ensures IndexOf(whole, '.') == |whole|
  {
    var s := whole + "." + fraction;
    var p := IndexOf(s, '.');
    assert s[|whole|] == '.';
    forall i | 0 <= i < |whole|
      ensures whole[i] != '.' && s[i] != '.'
    {
      assert IsDigit(whole[i]) && s[i] == whole[i];
    }
  }

  /** The digits after the point: one to ten of them, the last not a zero, worth the remainder. */
  lemma FractionText(frac: nat)
    requires 0 < frac < TXT_DECIMALS
    ensures var t := TrimZeros(PrintPadded(frac, FRACTION_DIGITS));
            0 < |t| <= FRACTION_DIGITS && t[|t| - 1] != '0' && AllDigits(t) && FractionValue(t) == frac
  {
    var padded := PrintPadded(frac, FRACTION_DIGITS);
    assert Pow10(10) == TXT_DECIMALS;
    ReadOfPrintPadded(frac, FRACTION_DIGITS);
    TrimKeepsFraction(padded);
    assert FractionValue(padded) == frac * Pow10(0) == frac;
  }

  /**
   The shape of the text: the whole part in full, and, unless the amount is whole, a point and one
   to ten digits not ending in zero. Trimming takes neither the point nor a digit before it.
   */
  lemma FormatShape(raw: int)
    ensures var whole, frac := TruncDiv(raw, TXT_DECIMALS), Abs(TruncRem(raw, TXT_DECIMALS));
            if frac == 0 then Format(raw) == PrintSigned(whole)
            else frac < TXT_DECIMALS
                 && var t := TrimZeros(PrintPadded(frac, FRACTION_DIGITS));
                 Format(raw) == PrintSigned(whole) + "." + t
                 && 0 < |t| <= FRACTION_DIGITS && t[|t| - 1] != '0'
  {
    var whole, frac := TruncDiv(raw, TXT_DECIMALS), Abs(TruncRem(raw, TXT_DECIMALS));
    if frac != 0 {
      FractionText(frac);
      TrimStopsAtPoint(PrintSigned(whole), PrintPadded(frac, FRACTION_DIGITS));
    }
  }

  /** What the text without its sign reads as. */
  lemma ReadOfUnsignedText(whole: nat, frac: nat)
    requires frac < TXT_DECIMALS
    ensures var s := if frac == 0 then Print(whole)
                     else Print(whole) + "." + TrimZeros(PrintPadded(frac, FRACTION_DIGITS));
            s != "" && s[0] != '-' && ReadUnsigned(s) == Some(whole * TXT_DECIMALS + frac)
  {
    hide Print, PrintPadded, TrimZeros, FractionValue, Read, Pow10, IndexOf;
    var w := Print(whole);
    ReadOfPrint(whole);
    assert IsDigit(w[0]);
    if frac == 0 {
      PointPosition(w, "");
      assert w[..|w|] == w;
    } else {
      FractionText(frac);
      var t := TrimZeros(PrintPadded(frac, FRACTION_DIGITS));
      PointPosition(w, t);
      var s := w + "." + t;
      assert s[..|w|] == w && s[|w| + 1..] == t && s[0] == w[0];
    }
  }

  lemma WholeAndFraction(raw: int)
    ensures var whole, frac := TruncDiv(raw, TXT_DECIMALS), Abs(TruncRem(raw, TXT_DECIMALS));
            && frac < TXT_DECIMALS
            && (raw >= 0 ==> whole >= 0 && raw == whole * TXT_DECIMALS + frac)
            && (raw < 0 ==> whole <= 0 && -raw == -whole * TXT_DECIMALS + frac)
            && (whole < 0 <==> raw <= -TXT_DECIMALS)
  {
  }

  /**
   Reading what was printed gives the amount back, except for amounts strictly between -1 TXT and
   zero: their whole part is zero, which is printed without a sign, so they read as positive.
   */
  lemma ReadOfFormat(raw: int)
    ensures ReadTxt(Format(raw)) == Some(if -TXT_DECIMALS < raw < 0 then -raw else raw)
  {
    hide Print, PrintPadded, TrimZeros, ReadUnsigned, Format, TruncDiv, TruncRem, ReadTxt;
    FormatShape(raw);
    WholeAndFraction(raw);
    var whole, frac := TruncDiv(raw, TXT_DECIMALS), Abs(TruncRem(raw, TXT_DECIMALS));
    ReadOfUnsignedText(Abs(whole), frac);
    var text := if frac == 0 then Print(Abs(whole))
                else Print(Abs(whole)) + "." + TrimZeros(PrintPadded(frac, FRACTION_DIGITS));
    assert Format(raw) == if whole < 0 then "-" + text else text;
    ReadOfSigned(text);
  }

  /** A sign in front of an unsigned text negates what it reads as. */
  lemma ReadOfSigned(text: string)
    requires text != "" && text[0] != '-' && ReadUnsigned(text).Some?
    ensures ReadTxt(text) == ReadUnsigned(text)
    ensures ReadTxt("-" + text) == Some(-(ReadUnsigned(text).value as int))
  {
    hide ReadUnsigned;
    assert ("-" + text)[1..] == text;
  }

  lemma RoundTripExactly(raw: int)
    ensures ReadTxt(Format(raw)) == Some(raw) <==> raw >= 0 || raw <= -TXT_DECIMALS
  {
    ReadOfFormat(raw);
  }

  /** Outside that gap, different amounts have different texts. */
  lemma FormatIsInjective(a: int, b: int)
    requires a >= 0 || a <= -TXT_DECIMALS
    requires b >= 0 || b <= -TXT_DECIMALS
    requires Format(a) == Format(b)
    ensures a == b
  {
    ReadOfFormat(a);
    ReadOfFormat(b);
  }

  lemma TrailingZeroGoes(n: nat, width: nat)
    ensures TrimZeros(PrintPadded(10 * n, width + 1)) == TrimZeros(PrintPadded(n, width))
  {
    var s := PrintPadded(n, width);
    assert PrintPadded(10 * n, width + 1) == s + ['0'];
    assert (s + ['0'])[..|s|] == s;
  }

  /** The unit itself: fifteen thousand million raw units are one and a half. */
  lemma OneAndAHalf()
    ensures Format(15_000_000_000) == "1.5"
  {
    hide TrimZeros, PrintPadded;
    FormatShape(15_000_000_000);
    assert Print(1) == "1";
    TrailingZeroGoes(500_000_000, 9);
    TrailingZeroGoes(50_000_000, 8);
    TrailingZeroGoes(5_000_000, 7);
    TrailingZeroGoes(500_000, 6);
    TrailingZeroGoes(50_000, 5);
    TrailingZeroGoes(5_000, 4);
    TrailingZeroGoes(500, 3);
    TrailingZeroGoes(50, 2);
    TrailingZeroGoes(5, 1);
    LoneFive();
  }

  lemma LoneFive()
    ensures TrimZeros(PrintPadded(5, 1)) == "5"
  {
    assert PrintPadded(0, 0) == "";
    assert PrintPadded(5, 1) == "5";
  }
}
