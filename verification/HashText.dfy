/**
  The printed form of a set hash: two signed 32-bit words in hexadecimal, each padded
  on the left with zeros to at least eight characters. A negative word of eight digits
  prints as nine characters, so the printed pair has no fixed split point.
 */
module HashText {
  import opened HashedSets

  const DIGITS := "0123456789abcdef"

  function Hex(n: nat): (s: string)
    ensures s != ""
  {
    if n < 16 then [DIGITS[n]] else Hex(n / 16) + [DIGITS[n % 16]]
  }

  /** `int32(value)` */
  function Signed(value: Word): int {
    if value < 0x8000_0000 then value else value - MODULUS
  }

  /** `strconv.FormatInt(v, 16)` */
  function FormatHex(v: int): string {
    if v < 0 then "-" + Hex(-v) else Hex(v)
  }

  function Zeros(n: nat): string {
    seq(n, _ => '0')
  }

  /** The zeros put in front of a word's text. */
  function Padding(text: string): string {
    if |text| < 8 then Zeros(8 - |text|) else ""
  }

  function WordText(value: Word): string {
    var text := FormatHex(Signed(value));
    Padding(text) + text
  }

  /** `Hash64String`. */
  function Hash64String(w: Words): string {
    WordText(w.high) + WordText(w.low)
  }

  // ---- Reading the text back ----

  function DigitValue(c: char): nat {
    if '0' <= c <= '9' then (c as int) - ('0' as int)
    else if 'a' <= c <= 'f' then (c as int) - ('a' as int) + 10
    else 0
  }

  /** Value of a digit string, zeros in front included; a minus sign counts as a zero digit. */
  function HexValue(s: string): nat {
    if s == "" then 0 else 16 * HexValue(s[..|s| - 1]) + DigitValue(s[|s| - 1])
  }

  predicate IsNegative(s: string) {
    exists i :: 0 <= i < |s| && s[i] == '-'
  }

  function ReadWord(s: string): int {
    var n: int := HexValue(s);
    if IsNegative(s) then -n else n
  }

  lemma DigitsRead(d: nat)
    requires d < 16
    ensures DigitValue(DIGITS[d]) == d && DIGITS[d] != '-'
  {
    assert DIGITS[d] == "0123456789abcdef"[d];
  }

  lemma {:induction false} HexReads(n: nat)
    ensures HexValue(Hex(n)) == n
    ensures !IsNegative(Hex(n))
    ensures Hex(n)[0] != '-'
  {
    if n < 16 {
      DigitsRead(n);
      assert Hex(n)[..0] == "";
    } else {
      HexReads(n / 16);
      DigitsRead(n % 16);
      assert Hex(n)[..|Hex(n)| - 1] == Hex(n / 16);
    }
  }

  /** Characters that read as zero digits do not change the value when put in front. */
  lemma {:induction false} PaddingReads(pad: string, s: string)
    requires forall i :: 0 <= i < |pad| ==> DigitValue(pad[i]) == 0
    ensures HexValue(pad + s) == HexValue(s)
    decreases |pad| + |s|
  {
    if s != "" {
      assert (pad + s)[..|pad + s| - 1] == pad + s[..|s| - 1];
      PaddingReads(pad, s[..|s| - 1]);
    } else if pad != "" {
      assert pad + s == pad && pad[..|pad| - 1] + "" == pad[..|pad| - 1];
      PaddingReads(pad[..|pad| - 1], "");
    }
  }

  lemma {:induction false} HexLength(n: nat, k: nat)
    requires 1 <= k && n < Pow(16, k)
    ensures |Hex(n)| <= k
  {
    if n >= 16 {
      assert Pow(16, 1) == 16;
      HexLength(n / 16, k - 1);
    }
  }

  lemma HexFits(n: nat)
    requires n <= MODULUS - 1
    ensures |Hex(n)| <= 8
  {
    assert Pow(16, 8) == MODULUS by {
      PowAdd(16, 4, 4);
      assert Pow(16, 2) == 256 && Pow(16, 4) == 0x1_0000;
    }
    HexLength(n, 8);
  }

  /** A word's text is zeros, an optional minus sign and the digits of its magnitude. */
  lemma WordTextParts(value: Word) returns (pad: string, sign: string, n: int)
    ensures 0 <= n && WordText(value) == pad + (sign + Hex(n))
    ensures Signed(value) == if sign == "-" then -n else n
    ensures sign == "-" || sign == ""
    ensures forall i :: 0 <= i < |pad| ==> pad[i] == '0'
    ensures |WordText(value)| == 8 || (|WordText(value)| == 9 && WordText(value)[0] == '-')
  {
    hide Hex, Padding;
    var v := Signed(value);
    n := if v < 0 then -v else v;
    HexFits(n);
    sign := if v < 0 then "-" else "";
    var text := FormatHex(v);
    assert text == sign + Hex(n);
    pad := Padding(text);
    PaddingIsZeros(text);
  }

  lemma PaddingIsZeros(text: string)
    ensures forall i :: 0 <= i < |Padding(text)| ==> Padding(text)[i] == '0'
    ensures |Padding(text)| == if |text| < 8 then 8 - |text| else 0
  {
  }

  lemma SignShows(pad: string, sign: string, digits: string)
    requires forall i :: 0 <= i < |pad| ==> pad[i] == '0'
    requires (sign == "-" || sign == "") && !IsNegative(digits)
    ensures IsNegative(pad + (sign + digits)) <==> sign == "-"
  {
    var text := pad + (sign + digits);
    if sign == "-" {
      assert text[|pad|] == '-';
    } else {
      assert forall i :: 0 <= i < |text| ==> text[i] == if i < |pad| then pad[i] else digits[i - |pad|];
    }
  }

  /** A word's text can be read back. */
  lemma WordTextReads(value: Word)
    ensures ReadWord(WordText(value)) == Signed(value)
  {
    var pad, sign, n := WordTextParts(value);
    HexReads(n);
    hide Hex, HexValue, WordText, Signed, IsNegative;
    SignShows(pad, sign, Hex(n));
    PaddingReads(sign, Hex(n));
    PaddingReads(pad, sign + Hex(n));
  }

  /** It has 8 or 9 characters, 9 only with a leading minus, and never ends in a minus. */
  lemma WordTextShape(value: Word)
    ensures |WordText(value)| == 8 || (|WordText(value)| == 9 && WordText(value)[0] == '-')
    ensures WordText(value)[|WordText(value)| - 1] != '-'
  {
    var pad, sign, n := WordTextParts(value);
    HexLastDigit(n);
    hide Hex, WordText, Signed;
  }

  lemma HexLastDigit(n: nat)
    ensures Hex(n)[|Hex(n)| - 1] != '-'
  {
    DigitsRead(if n < 16 then n else n % 16);
  }

  lemma WordTextInjective(a: Word, b: Word)
    requires WordText(a) == WordText(b)
    ensures a == b
  {
    WordTextReads(a);
    WordTextReads(b);
  }

  /**
    Different hashes print differently, although the two words run together without a
    separator and each is 8 or 9 characters long.
   */
  lemma Hash64StringInjective(a: Words, b: Words)
    requires Hash64String(a) == Hash64String(b)
    ensures a == b
  {
    hide WordText;
    var s := Hash64String(a);
    var a1, a2, b1, b2 := WordText(a.high), WordText(a.low), WordText(b.high), WordText(b.low);
    WordTextShape(a.high);
    WordTextShape(a.low);
    WordTextShape(b.high);
    WordTextShape(b.low);
    // Where one split has a minus sign, the other would have a last digit.
    assert |a1| == 8 && |a2| == 9 ==> s[8] == '-';
    assert |b1| == 8 && |b2| == 9 ==> s[8] == '-';
    assert |a1| == 9 ==> s[8] == a1[8] != '-';
    assert |b1| == 9 ==> s[8] == b1[8] != '-';
    assert |a1| == |b1|;
    assert a1 == s[..|a1|] == b1 && a2 == s[|a1|..] == b2;
    WordTextInjective(a.high, b.high);
    WordTextInjective(a.low, b.low);
  }

  // ---- What the printed pair says ----

  /**
    The high word stands first. Its text ends before the ninth character, unless that one
    is not the sign of the low word and the pair is too long for two words of eight. In each
    part the digits are the magnitude of the word, and a minus sign its sign.
   */
  lemma PairReads(w: Words)
    ensures var s := Hash64String(w);
            && 16 <= |s| <= 18
            && var n := if |s| > 16 && s[8] != '-' then 9 else 8;
            && ReadWord(s[..n]) == (if w.high < 0x8000_0000 then w.high else w.high - 0x1_0000_0000)
            && ReadWord(s[n..]) == (if w.low < 0x8000_0000 then w.low else w.low - 0x1_0000_0000)
  {
    hide WordText, ReadWord;
    var s, high, low := Hash64String(w), WordText(w.high), WordText(w.low);
    WordTextShape(w.high);
    WordTextShape(w.low);
    WordTextReads(w.high);
    WordTextReads(w.low);
    assert |high| == 8 && |low| == 9 ==> s[8] == low[0];
    assert |high| == 9 ==> s[8] == high[8];
    assert s[..|high|] == high && s[|high|..] == low;
  }

  /** A word below 2^31 is its digits, with zeros in front of fewer than eight. */
  lemma Prints(value: Word, zeros: string, digits: string)
    requires value < 0x8000_0000 && digits == Hex(value)
    requires |zeros| + |digits| == 8 && forall i :: 0 <= i < |zeros| ==> zeros[i] == '0'
    ensures WordText(value) == zeros + digits
  {
    hide Hex;
    assert Padding(digits) == zeros;
  }

  /** From 2^31 on it is what is missing to 2^32, with a minus sign between the zeros and the digits. */
  lemma PrintsNegative(value: Word, zeros: string, digits: string)
    requires 0x8000_0000 <= value && digits == Hex(0x1_0000_0000 - value)
    requires |zeros| + 1 + |digits| == 8 || (zeros == "" && |digits| == 8)
    requires forall i :: 0 <= i < |zeros| ==> zeros[i] == '0'
    ensures WordText(value) == zeros + ("-" + digits)
  {
    hide Hex;
    assert Padding("-" + digits) == zeros;
  }

  /** Words without and with a sign, as they are printed. */
  lemma PrintedPairs()
    ensures Hash64String(Words(0x1000_0000, 0x2000_0000)) == "10000000" + "20000000"
    ensures Hash64String(Words(0x2b5e6, 0x56130)) == "0002b5e6" + "00056130"
    ensures Hash64String(Words(0xFFFF_FFFF, 0x8000_0000)) == "000000-1" + "-80000000"
  {
    OneDigit();
    hide Hex, WordText;
    HexOfLeading(1, "1");
    HexOfLeading(2, "2");
    HexOfLeading(8, "8");
    HexOfHash();
    Prints(0x1000_0000, "", "10000000");
    Prints(0x2000_0000, "", "20000000");
    Prints(0x2b5e6, "000", "2b5e6");
    Prints(0x56130, "000", "56130");
    PrintsNegative(0xFFFF_FFFF, "000000", "1");
    PrintsNegative(0x8000_0000, "", "80000000");
    assert "000" + "2b5e6" == "0002b5e6" && "000" + "56130" == "00056130";
    assert "000000" + ("-" + "1") == "000000-1" && "" + ("-" + "80000000") == "-80000000";
  }

  lemma OneDigit()
    ensures Hex(1) == "1" && Hex(2) == "2" && Hex(8) == "8"
  {
  }

  lemma HexOfLeading(digit: nat, text: string)
    requires 0 < digit && Hex(digit) == text
    ensures Hex(digit * 0x1000_0000) == text + "0000000"
  {
    hide Hex;
    HexShifts(digit, text);
    HexShifts(digit * 0x1000, text + "000");
    var s := text + "000" + "000";
    HexDigit(digit * 0x100_0000, s, 0);
    assert text + "0000000" == s + [DIGITS[0]];
  }

  /** One more digit. */
  lemma HexDigit(n: nat, text: string, d: nat)
    requires 0 < n && d < 16 && Hex(n) == text
    ensures Hex(16 * n + d) == text + [DIGITS[d]]
  {
    var m := 16 * n + d;
    assert m / 16 == n && m % 16 == d;
  }

  lemma HexShifts(n: nat, text: string)
    requires 0 < n && Hex(n) == text
    ensures Hex(n * 0x1000) == text + "000"
  {
    hide Hex;
    HexDigit(n, text, 0);
    var s := text + [DIGITS[0]];
    HexDigit(16 * n, s, 0);
    var t := s + [DIGITS[0]];
    HexDigit(256 * n, t, 0);
    assert text + "000" == t + [DIGITS[0]];
  }

  lemma HexOfHash()
    ensures Hex(0x2b5e6) == "2b5e6" && Hex(0x56130) == "56130"
  {
    HexDigit(0x2, "2", 0xb);
    HexDigit(0x2b, "2b", 0x5);
    HexDigit(0x2b5, "2b5", 0xe);
    HexDigit(0x2b5e, "2b5e", 0x6);
    HexDigit(0x5, "5", 0x6);
    HexDigit(0x56, "56", 0x1);
    HexDigit(0x561, "561", 0x3);
    HexDigit(0x5613, "5613", 0x0);
    hide *;
  }
}
