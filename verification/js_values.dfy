/** JavaScript values as they arrive from the spreadsheet decoder: cells of a
    row, their truthiness, their `Number(...)` coercion, and the decimal
    rendering of row numbers inside template strings. */
module JsValues {

  datatype Option<T> = None | Some(value: T)

  /** A JavaScript `Date` object: either an Invalid Date (every getter yields
      NaN) or an instant with the local calendar year and 0-based month the
      runtime assigns to it. */
  datatype JsDate = InvalidDate | ValidDate(time: int, year: int, month: int)

  /** One cell value produced by the decoder. `Undefined` is an absent column.
      Numbers are modelled as integers. */
  datatype Cell =
    | Undefined
    | Str(s: string)
    | Num(n: int)
    | Bool(b: bool)
    | DateCell(d: JsDate)

  /** A decoded row: column header text to cell. */
  type Row = map<string, Cell>

  /** Property access `row[key]`: a missing column reads as `undefined`. */
  function Field(row: Row, key: string): Cell {
    if key in row then row[key] else Undefined
  }

  /** JavaScript truthiness. Every object, an Invalid Date included, is truthy. */
  predicate Truthy(c: Cell) {
    match c
    case Undefined => false
    case Str(s) => s != ""
    case Num(n) => n != 0
    case Bool(b) => b
    case DateCell(_) => true
  }

  /** The characters `Number(...)` strips from both ends of a string: the
      ECMAScript WhiteSpace and LineTerminator code points. */
  predicate IsWhitespace(ch: char) {
    var c := ch as int;
    || 0x09 <= c <= 0x0D
    || c == 0x20 || c == 0xA0 || c == 0x1680
    || 0x2000 <= c <= 0x200A
    || c == 0x2028 || c == 0x2029 || c == 0x202F || c == 0x205F
    || c == 0x3000 || c == 0xFEFF
  }

  predicate IsDigit(ch: char) {
    '0' <= ch <= '9'
  }

  function DigitValue(ch: char): nat
    requires IsDigit(ch)
  {
    ch as int - '0' as int
  }

  function DigitChar(d: nat): (ch: char)
    requires d < 10
    ensures IsDigit(ch) && DigitValue(ch) == d
  {
    ('0' as int + d) as char
  }

  predicate AllDigits(s: string) {
    forall i :: 0 <= i < |s| ==> IsDigit(s[i])
  }

  /** Value of a run of decimal digits, most significant first. */
  function DigitsValue(s: string): nat
    requires AllDigits(s)
  {
    if |s| == 0 then 0 else DigitsValue(s[..|s| - 1]) * 10 + DigitValue(s[|s| - 1])
  }

  /** `String(n)` for a non-negative integer: shortest decimal digits. */
  function NatToString(n: nat): (s: string)
    ensures |s| >= 1 && AllDigits(s)
    ensures |s| > 1 ==> s[0] != '0'
    decreases n
  {
    if n < 10 then [DigitChar(n)] else NatToString(n / 10) + [DigitChar(n % 10)]
  }

  function TrimStart(s: string): (r: string)
    ensures |r| <= |s| && r == s[|s| - |r|..]
    ensures |r| > 0 ==> !IsWhitespace(r[0])
  {
    if |s| > 0 && IsWhitespace(s[0]) then TrimStart(s[1..]) else s
  }

  function TrimEnd(s: string): (r: string)
    ensures |r| <= |s| && r == s[..|r|]
    ensures |r| > 0 ==> !IsWhitespace(r[|r| - 1])
  {
    if |s| > 0 && IsWhitespace(s[|s| - 1]) then TrimEnd(s[..|s| - 1]) else s
  }

  function Trim(s: string): string {
    TrimEnd(TrimStart(s))
  }

  /** Unsigned decimal digits; None (NaN) when empty or when any character is
      not a digit. */
  function ParseDigits(s: string): (r: Option<int>)
    ensures r.Some? <==> |s| > 0 && AllDigits(s)
    ensures r.Some? ==> r.value >= 0
  {
    if |s| > 0 && AllDigits(s) then Some(DigitsValue(s)) else None
  }

  /** Value of a digit of the `0x`, `0o` and `0b` literals, letters in
      either case; None for any other character. */
  function RadixDigit(ch: char): Option<nat> {
    if IsDigit(ch) then Some(DigitValue(ch))
    else if 'a' <= ch <= 'f' then Some(ch as int - 'a' as int + 10)
    else if 'A' <= ch <= 'F' then Some(ch as int - 'A' as int + 10)
    else None
  }

  predicate AllRadixDigits(s: string, radix: nat) {
    forall i :: 0 <= i < |s| ==> RadixDigit(s[i]).Some? && RadixDigit(s[i]).value < radix
  }

  /** Value of a run of digits in base `radix`, most significant first. */
  function RadixValue(s: string, radix: nat): nat
    requires AllRadixDigits(s, radix)
  {
    if |s| == 0 then 0
    else RadixValue(s[..|s| - 1], radix) * radix + RadixDigit(s[|s| - 1]).value
  }

  /** The base a literal prefix letter selects (`x`, `o`, `b`, either case),
      0 for any other letter. */
  function PrefixRadix(ch: char): nat {
    if ch == 'x' || ch == 'X' then 16
    else if ch == 'o' || ch == 'O' then 8
    else if ch == 'b' || ch == 'B' then 2
    else 0
  }

  /** A literal with a base prefix: `0` followed by `x`, `o` or `b`. */
  predicate IsPrefixed(t: string) {
    |t| >= 2 && t[0] == '0' && PrefixRadix(t[1]) > 0
  }

  /** The digits after a base prefix, read in that base; None when there are
      none or one is out of range. */
  function ParsePrefixed(t: string): Option<int>
    requires IsPrefixed(t)
  {
    var radix := PrefixRadix(t[1]);
    var digits := t[2..];
    if |digits| > 0 && AllRadixDigits(digits, radix) then Some(RadixValue(digits, radix)) else None
  }

  /** A trimmed literal: the empty text is 0, an unsigned `0x`/`0o`/`0b`
      literal is read in its base, an optional sign precedes decimal digits,
      everything else is NaN (None). */
  function ParseLiteral(t: string): Option<int> {
    if |t| == 0 then Some(0)
    else if IsPrefixed(t) then ParsePrefixed(t)
    else if t[0] == '-' then
      match ParseDigits(t[1..])
      case Some(v) => Some(-v)
      case None => None
    else if t[0] == '+' then ParseDigits(t[1..])
    else ParseDigits(t)
  }

  /** `Number(s)` on a string, for integer literals: surrounding whitespace is
      ignored, then the literal is read. */
  function ParseNumber(s: string): Option<int> {
    ParseLiteral(Trim(s))
  }

  /** A run of decimal digits reads as its decimal value. */
  lemma DecimalLiteral(t: string)
    requires |t| > 0 && AllDigits(t)
    ensures ParseLiteral(t) == Some(DigitsValue(t))
  {
    assert IsDigit(t[0]);
    assert |t| >= 2 ==> IsDigit(t[1]) && PrefixRadix(t[1]) == 0;
  }

  /** `Number(c)`; None stands for NaN. A Date converts to its time value. */
  function ToNumber(c: Cell): Option<int> {
    match c
    case Undefined => None
    case Str(s) => ParseNumber(s)
    case Num(n) => Some(n)
    case Bool(b) => Some(if b then 1 else 0)
    case DateCell(d) => if d.ValidDate? then Some(d.time) else None
  }

  /** `isNaN(c)`: true when `Number(c)` is NaN. */
  predicate IsNaN(c: Cell) {
    ToNumber(c).None?
  }

  /** Abstract relational comparison `c <= 0`: false whenever `Number(c)` is NaN. */
  predicate LessOrEqualZero(c: Cell) {
    match ToNumber(c)
    case Some(v) => v <= 0
    case None => false
  }

  /** `s.endsWith(suffix)`. */
  predicate EndsWith(s: string, suffix: string) {
    |suffix| <= |s| && s[|s| - |suffix|..] == suffix
  }

  /** A number greater than zero after coercion: the only amounts the
      positivity rule accepts. */
  predicate IsPositiveNumber(c: Cell) {
    ToNumber(c).Some? && ToNumber(c).value > 0
  }

  lemma NotNaNAndPositive(c: Cell)
    ensures !(IsNaN(c) || LessOrEqualZero(c)) <==> IsPositiveNumber(c)
  {
  }

  /** Decimal rendering and decimal reading are inverse on naturals. */
  lemma {:induction false} DigitsValueOfNatToString(n: nat)
    ensures DigitsValue(NatToString(n)) == n
    decreases n
  {
    var s := NatToString(n);
    if n >= 10 {
      DigitsValueOfNatToString(n / 10);
      assert s[..|s| - 1] == NatToString(n / 10);
    }
  }

  /** `String` on row numbers is injective: different rows print differently. */
  lemma NatToStringInjective(a: nat, b: nat)
    ensures NatToString(a) == NatToString(b) ==> a == b
  {
    DigitsValueOfNatToString(a);
    DigitsValueOfNatToString(b);
  }

  /** `Number(String(n)) == n`: the coercion inverts the rendering. */
  lemma ParseNumberOfNatToString(n: nat)
    ensures ParseNumber(NatToString(n)) == Some(n)
  {
    var s := NatToString(n);
    assert IsDigit(s[0]) && IsDigit(s[|s| - 1]);
    TrimmedLiteral(s);
    DecimalLiteral(s);
    DigitsValueOfNatToString(n);
  }

  /** A string whose trimmed text is non-empty and holds no decimal digit at
      all is NaN: every literal form read here needs at least one digit. */
  lemma NonNumericTextIsNaN(s: string)
    requires |Trim(s)| > 0
    requires forall i :: 0 <= i < |Trim(s)| ==> !IsDigit(Trim(s)[i])
    ensures IsNaN(Str(s))
  {
  }

  lemma {:induction false} TrimStartAppend(s: string, c: char)
    requires IsWhitespace(c)
    ensures TrimStart(s + [c]) == if TrimStart(s) == [] then [] else TrimStart(s) + [c]
  {
    if |s| == 0 {
      assert TrimStart([c]) == TrimStart([c][1..]);
    } else if IsWhitespace(s[0]) {
      assert (s + [c])[1..] == s[1..] + [c];
      TrimStartAppend(s[1..], c);
    }
  }

  /** One whitespace character in front of or after a text never changes the
      number it reads as. */
  lemma PaddingIsIgnored(s: string, c: char)
    requires IsWhitespace(c)
    ensures ParseNumber([c] + s) == ParseNumber(s)
    ensures ParseNumber(s + [c]) == ParseNumber(s)
  {
    assert ([c] + s)[1..] == s;
    TrimStartAppend(s, c);
    var t := TrimStart(s);
    if t != [] {
      assert (t + [c])[..|t|] == t;
    }
  }

  /** Leading and trailing no-break spaces, vertical tabs, byte-order marks and
      the other Unicode spaces are stripped before the number is read. */
  lemma UnicodeSpacesAreTrimmed(n: nat)
    ensures ParseNumber([0xA0 as char] + (NatToString(n) + [0xFEFF as char])) == Some(n)
    ensures ParseNumber([0x0B as char] + ([0x3000 as char] + NatToString(n))) == Some(n)
  {
    var d := NatToString(n);
    ParseNumberOfNatToString(n);
    PaddingIsIgnored(d, 0xFEFF as char);
    PaddingIsIgnored(d + [0xFEFF as char], 0xA0 as char);
    PaddingIsIgnored(d, 0x3000 as char);
    PaddingIsIgnored([0x3000 as char] + d, 0x0B as char);
  }

  /** Binary, octal and hexadecimal literals are read in their base; a base
      prefix with no digits, or a sign in front of a prefixed literal, gives
      NaN. */
  lemma PrefixedLiterals()
    ensures ParseLiteral("0b101") == Some(5)
    ensures ParseLiteral("0o17") == Some(15)
    ensures ParseLiteral("0X1f") == Some(31)
    ensures ParseLiteral("0x") == None
    ensures ParseLiteral("-0x10") == None
  {
    assert IsPrefixed("0b101") && "0b101"[2..] == "101";
    assert RadixValue("101", 2) == 5 by {
      assert "101"[..2] == "10" && "10"[..1] == "1" && "1"[..0] == "";
    }
    assert IsPrefixed("0o17") && "0o17"[2..] == "17";
    assert RadixValue("17", 8) == 15 by {
      assert "17"[..1] == "1" && "1"[..0] == "";
    }
    assert IsPrefixed("0X1f") && "0X1f"[2..] == "1f";
    assert RadixValue("1f", 16) == 31 by {
      assert "1f"[..1] == "1" && "1"[..0] == "";
    }
    assert IsPrefixed("0x") && "0x"[2..] == "";
    assert !IsPrefixed("-0x10") && "-0x10"[1..] == "0x10";
    assert !IsDigit("0x10"[1]);
  }

  /** Surrounding spaces do not change a prefixed literal's value. */
  lemma PaddedPrefixedLiteral()
    ensures ParseNumber([' '] + ("0X1f" + [' '])) == Some(31)
  {
    PrefixedLiterals();
    TrimmedLiteral("0X1f");
    PaddingIsIgnored("0X1f", ' ');
    PaddingIsIgnored("0X1f" + [' '], ' ');
  }

  /** Text with no whitespace at either end is its own trimmed form. */
  lemma TrimmedLiteral(t: string)
    requires |t| > 0 && !IsWhitespace(t[0]) && !IsWhitespace(t[|t| - 1])
    ensures ParseNumber(t) == ParseLiteral(t)
  {
    assert TrimStart(t) == t;
  }
}
