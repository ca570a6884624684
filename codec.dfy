/** The value-level conversions behind the SIE 4 field decoders: bytes of the PC8 character
    set (IBM code page 437) to text, and text to the integers, dates, decimal amounts and
    currency codes the records carry.  Each stands for the library function the parser
    calls on a token it has already cut out of the input. */
module Codec {
  import opened Nom

  type byte = b: int | 0 <= b < 256

  /** The bytes of a string written in ASCII: each character's code (a character beyond
      ASCII, which the model never writes, becomes `?`). */
  function Ascii(s: string): (r: seq<byte>)
    ensures |r| == |s|
    ensures forall k :: 0 <= k < |s| && s[k] as int < 128 ==> r[k] == s[k] as int
  {
    seq(|s|, k requires 0 <= k < |s| => if s[k] as int < 128 then s[k] as int else '?' as int)
  }

  lemma AsciiConcat(a: string, b: string)
    ensures Ascii(a + b) == Ascii(a) + Ascii(b)
  {
    assert forall k :: 0 <= k < |a| ==> (a + b)[k] == a[k];
    assert forall k :: |a| <= k < |a| + |b| ==> (a + b)[k] == b[k - |a|];
  }

  // ---------------------------------------------------------------- code page 437

  /** The character of a byte from 0x80 to 0xFF in code page 437. */
  function Cp437High(b: byte): (c: char)
    requires b >= 128
    ensures c as int >= 128
  {
    match b
    case 128 => 'Ç'  case 129 => 'ü'  case 130 => 'é'  case 131 => 'â'
    case 132 => 'ä'  case 133 => 'à'  case 134 => 'å'  case 135 => 'ç'
    case 136 => 'ê'  case 137 => 'ë'  case 138 => 'è'  case 139 => 'ï'
    case 140 => 'î'  case 141 => 'ì'  case 142 => 'Ä'  case 143 => 'Å'
    case 144 => 'É'  case 145 => 'æ'  case 146 => 'Æ'  case 147 => 'ô'
    case 148 => 'ö'  case 149 => 'ò'  case 150 => 'û'  case 151 => 'ù'
    case 152 => 'ÿ'  case 153 => 'Ö'  case 154 => 'Ü'  case 155 => '¢'
    case 156 => '£'  case 157 => '¥'  case 158 => '₧'  case 159 => 'ƒ'
    case 160 => 'á'  case 161 => 'í'  case 162 => 'ó'  case 163 => 'ú'
    case 164 => 'ñ'  case 165 => 'Ñ'  case 166 => 'ª'  case 167 => 'º'
    case 168 => '¿'  case 169 => '⌐'  case 170 => '¬'  case 171 => '½'
    case 172 => '¼'  case 173 => '¡'  case 174 => '«'  case 175 => '»'
    case 176 => '░'  case 177 => '▒'  case 178 => '▓'  case 179 => '│'
    case 180 => '┤'  case 181 => '╡'  case 182 => '╢'  case 183 => '╖'
    case 184 => '╕'  case 185 => '╣'  case 186 => '║'  case 187 => '╗'
    case 188 => '╝'  case 189 => '╜'  case 190 => '╛'  case 191 => '┐'
    case 192 => '└'  case 193 => '┴'  case 194 => '┬'  case 195 => '├'
    case 196 => '─'  case 197 => '┼'  case 198 => '╞'  case 199 => '╟'
    case 200 => '╚'  case 201 => '╔'  case 202 => '╩'  case 203 => '╦'
    case 204 => '╠'  case 205 => '═'  case 206 => '╬'  case 207 => '╧'
    case 208 => '╨'  case 209 => '╤'  case 210 => '╥'  case 211 => '╙'
    case 212 => '╘'  case 213 => '╒'  case 214 => '╓'  case 215 => '╫'
    case 216 => '╪'  case 217 => '┘'  case 218 => '┌'  case 219 => '█'
    case 220 => '▄'  case 221 => '▌'  case 222 => '▐'  case 223 => '▀'
    case 224 => 'α'  case 225 => 'ß'  case 226 => 'Γ'  case 227 => 'π'
    case 228 => 'Σ'  case 229 => 'σ'  case 230 => 'µ'  case 231 => 'τ'
    case 232 => 'Φ'  case 233 => 'Θ'  case 234 => 'Ω'  case 235 => 'δ'
    case 236 => '∞'  case 237 => 'φ'  case 238 => 'ε'  case 239 => '∩'
    case 240 => '≡'  case 241 => '±'  case 242 => '≥'  case 243 => '≤'
    case 244 => '⌠'  case 245 => '⌡'  case 246 => '÷'  case 247 => '≈'
    case 248 => '°'  case 249 => '∙'  case 250 => '·'  case 251 => '√'
    case 252 => 'ⁿ'  case 253 => '²'  case 254 => '■'  case _ => '\U{A0}'
  }

  /** One byte of PC8 text, in the dialect that keeps 0x00 to 0x7F as ASCII, control
      characters included. */
  function Cp437(b: byte): (c: char)
    ensures b < 128 <==> c as int < 128
    ensures b < 128 ==> c as int == b
  {
    if b < 128 then b as char else Cp437High(b)
  }

  /** A PC8 byte string as text. */
  function Decode(bs: seq<byte>): (s: string)
    ensures |s| == |bs| && forall k :: 0 <= k < |bs| ==> s[k] == Cp437(bs[k])
  {
    seq(|bs|, k requires 0 <= k < |bs| => Cp437(bs[k]))
  }

  /** Decoding is the identity on ASCII, so every token made of digits, signs and letters
      reads back as the same characters. */
  lemma DecodeAscii(s: string)
    requires forall k :: 0 <= k < |s| ==> s[k] as int < 128
    ensures Decode(Ascii(s)) == s
  {
  }

  /** Bytes outside ASCII never decode to an ASCII character, so a decoded token is ASCII
      exactly when its bytes are. */
  lemma DecodeKeepsNonAscii(bs: seq<byte>, k: int)
    requires 0 <= k < |bs|
    ensures bs[k] >= 128 <==> Decode(bs)[k] as int >= 128
  {
  }

  // ---------------------------------------------------------------- decimal digits

  predicate IsDigit(c: char) {
    '0' <= c <= '9'
  }

  predicate AllDigits(s: string) {
    forall k :: 0 <= k < |s| ==> IsDigit(s[k])
  }

  function Pow10(n: nat): (p: nat)
    ensures p > 0
  {
    if n == 0 then 1 else 10 * Pow10(n - 1)
  }

  /** The number a run of decimal digits spells, most significant digit first. */
  function DigitsValue(s: string): nat
    requires AllDigits(s)
  {
    if s == [] then 0 else DigitsValue(s[..|s| - 1]) * 10 + (s[|s| - 1] as int - '0' as int)
  }

  function DigitChar(d: int): (c: char)
    requires 0 <= d < 10
    ensures IsDigit(c) && c as int - '0' as int == d
  {
    (d + '0' as int) as char
  }

  /** The shortest decimal spelling of `n`. */
  function DigitsOf(n: nat): (s: string)
    ensures s != [] && AllDigits(s) && DigitsValue(s) == n
    ensures s[0] == '0' ==> n == 0
  {
    if n < 10 then [DigitChar(n)]
    else
      var s := DigitsOf(n / 10) + [DigitChar(n % 10)];
      assert s[..|s| - 1] == DigitsOf(n / 10);
      s
  }

  /** `n` in exactly `w` digits, with leading zeros. */
  function Fixed(n: nat, w: nat): (s: string)
    requires n < Pow10(w)
    ensures |s| == w && AllDigits(s) && DigitsValue(s) == n
  {
    if w == 0 then []
    else
      var s := Fixed(n / 10, w - 1) + [DigitChar(n % 10)];
      assert s[..|s| - 1] == Fixed(n / 10, w - 1);
      s
  }

  lemma ShiftDigit(x: int, p: int, y: int, d: int)
    ensures (x * p + y) * 10 + d == x * (p * 10) + (y * 10 + d)
  {
  }

  /** Digits written after others scale the first run by a power of ten. */
  lemma {:induction false} DigitsConcat(a: string, b: string)
    requires AllDigits(a) && AllDigits(b)
    ensures AllDigits(a + b) && DigitsValue(a + b) == DigitsValue(a) * Pow10(|b|) + DigitsValue(b)
    decreases |b|
  {
    if b != [] {
      var b', d := b[..|b| - 1], b[|b| - 1] as int - '0' as int;
      assert AllDigits(a + b) && DigitsValue(a + b) == DigitsValue(a + b') * 10 + d by {
        assert (a + b)[..|a + b| - 1] == a + b';
        assert (a + b)[|a + b| - 1] == b[|b| - 1];
      }
      DigitsConcat(a, b');
      ShiftDigit(DigitsValue(a), Pow10(|b'|), DigitsValue(b'), d);
    } else {
      assert a + b == a;
    }
  }

  // ---------------------------------------------------------------- integers

  const I32Min: int := -0x8000_0000
  const I32Max: int := 0x7FFF_FFFF
  const U32Max: int := 0xFFFF_FFFF

  /** Rust's `FromStr` for a primitive integer type with range `lo..=hi`: an optional `+`
      (or `-` when the type is signed), then one or more decimal digits whose value lies
      in the range.  A `-` for an unsigned type is an invalid digit. */
  function FromStrInt(s: string, signed: bool, lo: int, hi: int): (r: Option<int>)
    ensures r.Some? ==> lo <= r.value <= hi
    ensures r.Some? && !signed ==> r.value >= 0
    ensures r.Some? ==> AllDigits(s) || (|s| > 1 && (s[0] == '+' || (signed && s[0] == '-')) && AllDigits(s[1..]))
  {
    if s == [] then None
    else
      var neg := signed && s[0] == '-';
      var digits := if s[0] == '+' || neg then s[1..] else s;
      if digits == [] || !AllDigits(digits) then None
      else
        var v := if neg then -(DigitsValue(digits) as int) else DigitsValue(digits) as int;
        if lo <= v <= hi then Some(v) else None
  }

  function ParseI32(s: string): (r: Option<int>)
    ensures r.Some? ==> I32Min <= r.value <= I32Max
  {
    FromStrInt(s, true, I32Min, I32Max)
  }

  function ParseU32(s: string): (r: Option<int>)
    ensures r.Some? ==> 0 <= r.value <= U32Max
    ensures s != [] && s[0] == '-' ==> r.None?
  {
    FromStrInt(s, false, 0, U32Max)
  }

  /** The shortest decimal spelling of an integer. */
  function ShowInt(n: int): string {
    if n < 0 then "-" + DigitsOf(-n) else DigitsOf(n)
  }

  /** Every integer of the range reads back from its own spelling. */
  lemma IntRoundTrip(n: int, signed: bool, lo: int, hi: int)
    requires lo <= n <= hi
    requires n < 0 ==> signed
    ensures FromStrInt(ShowInt(n), signed, lo, hi) == Some(n)
  {
    if n < 0 {
      var d := DigitsOf(-n);
      assert ShowInt(n) == "-" + d;
      assert ("-" + d)[0] == '-' && ("-" + d)[1..] == d;
    } else {
      var d := DigitsOf(n);
      assert d[0] != '+' && d[0] != '-' by { assert IsDigit(d[0]); }
    }
  }

  /** An integer outside the range is refused even when it is well formed. */
  lemma IntOutOfRange(n: int, signed: bool, lo: int, hi: int)
    requires n < lo || hi < n
    ensures FromStrInt(ShowInt(n), signed, lo, hi).None?
  {
    if n < 0 {
      assert ShowInt(n)[1..] == DigitsOf(-n);
    }
  }

  lemma I32Extremes()
    ensures ParseI32("-2147483648") == Some(I32Min)
    ensures ParseI32("2147483648").None?
    ensures ParseU32("4294967295") == Some(U32Max)
    ensures ParseU32("-1").None?
  {
    IntRoundTrip(I32Min, true, I32Min, I32Max);
    assert ShowInt(I32Min) == "-2147483648" by { ShowDigits10(2147483648); }
    IntOutOfRange(2147483648, true, I32Min, I32Max);
    assert ShowInt(2147483648) == "2147483648" by { ShowDigits10(2147483648); }
    IntRoundTrip(U32Max, false, 0, U32Max);
    assert ShowInt(U32Max) == "4294967295" by { ShowDigits10(4294967295); }
  }

  /** The spelling of the two ten-digit numbers above, digit by digit. */
  lemma ShowDigits10(n: nat)
    requires n == 2147483648 || n == 4294967295
    ensures n == 2147483648 ==> DigitsOf(n) == "2147483648"
    ensures n == 4294967295 ==> DigitsOf(n) == "4294967295"
  {
    var s := DigitsOf(n);
    assert s == DigitsOf(n / 10) + [DigitChar(n % 10)];
    assert n / 10 >= 10 && n / 100 >= 10 && n / 1000 >= 10 && n / 10000 >= 10;
    assert n / 100000 >= 10 && n / 1000000 >= 10 && n / 10000000 >= 10 && n / 100000000 >= 10;
    assert n / 1000000000 < 10;
  }

  // ---------------------------------------------------------------- dates

  /** A calendar date of the proleptic Gregorian calendar. */
  datatype Date = Date(year: int, month: int, day: int)

  /** The Gregorian leap-year rule.  The `time` crate tests `year % 4 == 0` and so on with
      Rust's remainder, which truncates toward zero; whether that remainder is zero depends
      only on the magnitude of the year, which is what is tested here. */
  predicate IsLeapYear(y: int) {
    var a := if y < 0 then -y else y;
    a % 4 == 0 && (a % 100 != 0 || a % 400 == 0)
  }

  function DaysInMonth(y: int, m: int): (n: int)
    requires 1 <= m <= 12
    ensures 28 <= n <= 31
  {
    if m == 2 then (if IsLeapYear(y) then 29 else 28)
    else if m == 4 || m == 6 || m == 9 || m == 11 then 30
    else 31
  }

  /** A date the `time` crate can represent in its default configuration. */
  predicate ValidDate(d: Date) {
    -9999 <= d.year <= 9999 && 1 <= d.month <= 12 && 1 <= d.day <= DaysInMonth(d.year, d.month)
  }

  /** The date written as `[year][month][day]` in the `time` crate's default modifiers:
      `[year]` is an optional `+` or `-` followed by exactly four digits, `[month]` and
      `[day]` are two digits each, with no separators and nothing after them.  Unsigned, this
      is the ISO 8601 basic calendar date YYYYMMDD (section 4.1.2.2 of ISO 8601:2004). */
  function ParseDate(s: string): (r: Option<Date>)
    ensures r.Some? ==> ValidDate(r.value)
    ensures r.Some? <==> |DateDigits(s)| == 8 && AllDigits(DateDigits(s))
                         && ValidDate(DigitsDate(DateDigits(s), Negative(s)))
    ensures r.Some? ==> |s| == 8 || (|s| == 9 && (s[0] == '+' || s[0] == '-'))
    ensures r.Some? ==> r.value == DigitsDate(DateDigits(s), Negative(s))
  {
    var t := DateDigits(s);
    if |t| == 8 && AllDigits(t) then
      var d := DigitsDate(t, Negative(s));
      if ValidDate(d) then Some(d) else None
    else None
  }

  /** The text after the optional sign of `[year]`. */
  function DateDigits(s: string): (t: string)
    ensures t == s || (s != [] && (s[0] == '+' || s[0] == '-') && t == s[1..])
  {
    if s != [] && (s[0] == '+' || s[0] == '-') then s[1..] else s
  }

  predicate Negative(s: string) {
    s != [] && s[0] == '-'
  }

  /** The date eight digits spell: four of year, negated after a minus, two of month and two
      of day. */
  function DigitsDate(t: string, negative: bool): (d: Date)
    requires |t| == 8 && AllDigits(t)
    ensures d.month == DigitsValue(t[4..6]) && d.day == DigitsValue(t[6..])
    ensures d.year == if negative then -(DigitsValue(t[..4]) as int) else DigitsValue(t[..4])
  {
    var y: int := DigitsValue(t[..4]);
    Date(if negative then -y else y, DigitsValue(t[4..6]), DigitsValue(t[6..]))
  }

  function FormatDate(d: Date): (s: string)
    requires ValidDate(d) && d.year >= 0
  {
    Fixed(d.year, 4) + Fixed(d.month, 2) + Fixed(d.day, 2)
  }

  /** Every date from year 0 on reads back from its YYYYMMDD form. */
  lemma DateRoundTrip(d: Date)
    requires ValidDate(d) && d.year >= 0
    ensures ParseDate(FormatDate(d)) == Some(d)
  {
    var y, m, dd := Fixed(d.year, 4), Fixed(d.month, 2), Fixed(d.day, 2);
    var s := y + m + dd;
    assert s[..4] == y && s[4..6] == m && s[6..] == dd;
  }

  /** A date with its year's sign written out: `-` before a negative year (BCE, counted
      astronomically), `+` or nothing before the others. */
  function SignedFormat(d: Date, plus: bool): (s: string)
    requires ValidDate(d)
  {
    var u := Date(if d.year < 0 then -d.year else d.year, d.month, d.day);
    YearSignValid(d, d.year < 0);
    (if d.year < 0 then "-" else if plus then "+" else "") + FormatDate(u)
  }

  /** From year 0 on, the signed form without `+` is the YYYYMMDD form. */
  lemma UnsignedFormat(d: Date)
    requires ValidDate(d) && d.year >= 0
    ensures SignedFormat(d, false) == FormatDate(d)
  {
    assert "" + FormatDate(d) == FormatDate(d);
  }

  /** Every date `time` can represent, negative years included, reads back from its signed
      form, with or without the optional `+`. */
  lemma {:induction false} SignedDateRoundTrip(d: Date, plus: bool)
    requires ValidDate(d)
    ensures ParseDate(SignedFormat(d, plus)) == Some(d)
  {
    var u := Date(if d.year < 0 then -d.year else d.year, d.month, d.day);
    YearSignValid(d, d.year < 0);
    var f := FormatDate(u);
    DateRoundTrip(u);
    var s := SignedFormat(d, plus);
    if d.year < 0 || plus {
      assert s == (if d.year < 0 then "-" else "+") + f;
      SignDigitsParse(s, f, u);
    } else {
      assert s == f && u == d;
    }
  }

  /** A sign followed by the YYYYMMDD form of a date from year 0 on. */
  lemma {:induction false} SignDigitsParse(s: string, f: string, u: Date)
    requires u.year >= 0 && ParseDate(f) == Some(u)
    requires |s| == 9 && (s[0] == '+' || s[0] == '-') && s[1..] == f
    ensures ParseDate(s) == Some(Date(if s[0] == '-' then -u.year else u.year, u.month, u.day))
  {
    assert DateDigits(s) == f;
    assert DigitsDate(f, false) == u;
    YearSignValid(u, Negative(s));
  }

  /** A valid date stays valid with its year negated: leap years are symmetric about 0. */
  lemma YearSignValid(u: Date, negative: bool)
    requires ValidDate(u)
    ensures ValidDate(Date(if negative then -u.year else u.year, u.month, u.day))
  {
    LeapYearSymmetric(u.year);
  }

  lemma LeapYearSymmetric(y: int)
    ensures IsLeapYear(-y) == IsLeapYear(y)
  {
  }

  /** A minus sign before the year makes it negative: `-20230101` is 1 January 2023 BCE;
      a plus sign changes nothing. */
  lemma SignedYearExample()
    ensures ParseDate("-20230101") == Some(Date(-2023, 1, 1))
    ensures ParseDate("+20230228") == Some(Date(2023, 2, 28))
  {
    MinusYear();
    DateExample();
    assert "+20230228"[1..] == "20230228";
    SignDigitsParse("+20230228", "20230228", Date(2023, 2, 28));
  }

  lemma MinusYear()
    ensures ParseDate("-20230101") == Some(Date(-2023, 1, 1))
  {
    var jan := Date(2023, 1, 1);
    DateRoundTrip(jan);
    Spell2023();
    SpellTwoDigits(1);
    assert "2023" + "01" == "202301";
    assert "202301" + "01" == "20230101";
    assert "-20230101"[1..] == "20230101";
    SignDigitsParse("-20230101", "20230101", jan);
  }

  /** A month outside 1 to 12 makes a well-shaped token an invalid date. */
  lemma Month13Invalid()
    ensures ParseDate("20201301").None?
  {
    var s := "20201301";
    assert s[4..6] == "13";
    assert DigitsValue("13") == 13 by { assert "13"[..1] == "1"; }
  }

  lemma DateExample()
    ensures ParseDate("20230228") == Some(Date(2023, 2, 28))
  {
    DateRoundTrip(Date(2023, 2, 28));
    Spell2023();
    SpellTwoDigits(2);
    SpellTwoDigits(28);
    assert "2023" + "02" == "202302";
    assert "202302" + "28" == "20230228";
  }

  lemma Spell2023()
    ensures Fixed(2023, 4) == "2023"
  {
    assert Fixed(2, 1) == "2";
    assert Fixed(20, 2) == "20";
    assert Fixed(202, 3) == "202";
  }

  lemma SpellTwoDigits(n: nat)
    requires n == 1 || n == 2 || n == 28
    ensures n == 1 ==> Fixed(n, 2) == "01"
    ensures n == 2 ==> Fixed(n, 2) == "02"
    ensures n == 28 ==> Fixed(n, 2) == "28"
  {
    assert Fixed(n / 10, 1) == [DigitChar(n / 10)];
  }

  // ---------------------------------------------------------------- decimal amounts

  /** A decimal number `mantissa / 10^scale`; the scale is kept, so 72.00 and 72 differ in
      representation as they do in `rust_decimal`. */
  datatype Decimal = Decimal(mantissa: int, scale: nat)

  /** `rust_decimal`'s `FromStr` on plain notation: an optional sign, one or more digits,
      then optionally a point and one or more digits. */
  function ParseDecimal(s: string): (r: Option<Decimal>)
    ensures r.Some? ==> s != []
    ensures s != [] && s[0] == '-' && r.Some? ==> r.value.mantissa <= 0
    ensures (s == [] || s[0] != '-') && r.Some? ==> r.value.mantissa >= 0
  {
    if s != [] && (s[0] == '-' || s[0] == '+') then
      match ParseUnsigned(s[1..])
      case Some(d) => Some(if s[0] == '-' then Decimal(-d.mantissa, d.scale) else d)
      case None => None
    else ParseUnsigned(s)
  }

  /** The unsigned part: digits, then optionally a point and more digits; the scale is the
      number of digits after the point. */
  function ParseUnsigned(s: string): (r: Option<Decimal>)
    ensures r.Some? ==> s != [] && r.value.mantissa >= 0
  {
    var n := PrefixLen(IsDigit, s);
    var whole := s[..n];
    assert AllDigits(whole);
    if n == 0 then None
    else if n == |s| then Some(Decimal(DigitsValue(whole), 0))
    else if s[n] == '.' && n + 1 < |s| && AllDigits(s[n + 1..]) then
      var frac := s[n + 1..];
      DigitsConcat(whole, frac);
      Some(Decimal(DigitsValue(whole + frac), |frac|))
    else None
  }

  /** The plain notation of a decimal with exactly `scale` fraction digits. */
  function FormatDecimal(d: Decimal): string {
    if d.mantissa < 0 then "-" + FormatUnsigned(-d.mantissa, d.scale)
    else FormatUnsigned(d.mantissa, d.scale)
  }

  function Zeros(k: nat): (s: string)
    ensures |s| == k && AllDigits(s) && DigitsValue(s) == 0
  {
    if k == 0 then [] else
      var s := Zeros(k - 1) + ['0'];
      assert s[..k - 1] == Zeros(k - 1);
      s
  }

  /** The digits of `a`, with leading zeros up to at least `w` of them. */
  function PaddedDigits(a: nat, w: nat): (s: string)
    ensures |s| >= w && AllDigits(s) && DigitsValue(s) == a
  {
    var ds := DigitsOf(a);
    if |ds| >= w then ds
    else
      DigitsConcat(Zeros(w - |ds|), ds);
      Zeros(w - |ds|) + ds
  }

  /** The digits of the mantissa with a point before the last `scale` of them. */
  function FormatUnsigned(a: nat, scale: nat): (s: string)
    ensures s != [] && IsDigit(s[0])
  {
    var ds := PaddedDigits(a, scale + 1);
    if scale == 0 then ds
    else ds[..|ds| - scale] + "." + ds[|ds| - scale..]
  }

  /** `PrefixLen` of digits finds the whole run when a non-digit ends it. */
  lemma DigitRun(whole: string, tail: string)
    requires AllDigits(whole)
    requires tail == [] || !IsDigit(tail[0])
    ensures PrefixLen(IsDigit, whole + tail) == |whole|
  {
    assert forall k :: 0 <= k < |whole| ==> (whole + tail)[k] == whole[k];
    assert tail != [] ==> (whole + tail)[|whole|] == tail[0];
  }

  lemma UnsignedRoundTrip(a: nat, scale: nat)
    ensures ParseUnsigned(FormatUnsigned(a, scale)) == Some(Decimal(a, scale))
  {
    var ds := PaddedDigits(a, scale + 1);
    PointedParses(ds, scale, FormatUnsigned(a, scale));
  }

  /** Digits with a point before the last `scale` of them parse to the digits' value at
      that scale. */
  lemma PointedParses(ds: string, scale: nat, s: string)
    requires |ds| > scale && AllDigits(ds)
    requires s == if scale == 0 then ds else ds[..|ds| - scale] + "." + ds[|ds| - scale..]
    ensures ParseUnsigned(s) == Some(Decimal(DigitsValue(ds), scale))
  {
    if scale == 0 {
      DigitsParse(ds);
    } else {
      var whole, frac := ds[..|ds| - scale], ds[|ds| - scale..];
      assert whole + frac == ds && AllDigits(whole) && AllDigits(frac) by {
        assert forall k :: 0 <= k < |whole| ==> whole[k] == ds[k];
        assert forall k :: 0 <= k < |frac| ==> frac[k] == ds[|whole| + k];
      }
      WholeDotFrac(whole, frac, ds, s);
    }
  }

  /** Digits alone parse to their value at scale zero. */
  lemma DigitsParse(ds: string)
    requires ds != [] && AllDigits(ds)
    ensures ParseUnsigned(ds) == Some(Decimal(DigitsValue(ds), 0))
  {
    assert PrefixLen(IsDigit, ds) == |ds| by {
      DigitRun(ds, []);
      assert ds + [] == ds;
    }
    assert ds[..|ds|] == ds;
  }

  /** Digits, a point and more digits parse to the value of all the digits, scaled by the
      number after the point. */
  lemma WholeDotFrac(whole: string, frac: string, ds: string, s: string)
    requires whole != [] && frac != [] && AllDigits(whole) && AllDigits(frac)
    requires ds == whole + frac && s == whole + "." + frac
    ensures AllDigits(ds)
    ensures ParseUnsigned(s) == Some(Decimal(DigitsValue(ds), |frac|))
  {
    assert s == whole + ("." + frac);
    assert PrefixLen(IsDigit, s) == |whole| by {
      DigitRun(whole, "." + frac);
    }
    assert s[|whole|] == '.';
    assert s[..|whole|] == whole;
    assert s[|whole| + 1..] == frac;
  }

  /** Every decimal reads back, mantissa and scale, from its plain notation. */
  lemma DecimalRoundTrip(d: Decimal)
    ensures ParseDecimal(FormatDecimal(d)) == Some(d)
  {
    DecimalParses(d, FormatDecimal(d));
  }

  lemma DecimalParses(d: Decimal, s: string)
    requires s == FormatDecimal(d)
    ensures ParseDecimal(s) == Some(d)
  {
    if d.mantissa < 0 {
      var a: nat := -d.mantissa;
      var u := FormatUnsigned(a, d.scale);
      assert s == "-" + u;
      NegativeParses(a, d.scale, u);
      assert Decimal(-(a as int), d.scale) == d;
    } else {
      var u := FormatUnsigned(d.mantissa, d.scale);
      assert s == u;
      NonNegativeParses(d.mantissa, d.scale, u);
      assert Decimal(d.mantissa, d.scale) == d;
    }
  }

  lemma NonNegativeParses(a: nat, scale: nat, u: string)
    requires u == FormatUnsigned(a, scale)
    ensures ParseDecimal(u) == Some(Decimal(a, scale))
  {
    UnsignedRoundTrip(a, scale);
    UnsignedParse(u);
  }

  lemma NegativeParses(a: nat, scale: nat, u: string)
    requires u == FormatUnsigned(a, scale)
    ensures ParseDecimal("-" + u) == Some(Decimal(-(a as int), scale))
  {
    UnsignedRoundTrip(a, scale);
    SignedParse(u);
  }

  /** Text that starts with a digit parses without a sign. */
  lemma UnsignedParse(u: string)
    requires u != [] && IsDigit(u[0])
    ensures ParseDecimal(u) == ParseUnsigned(u)
  {
  }

  /** A leading `-` negates what the rest parses to. */
  lemma SignedParse(u: string)
    requires ParseUnsigned(u).Some?
    ensures ParseDecimal("-" + u)
            == Some(Decimal(-ParseUnsigned(u).value.mantissa, ParseUnsigned(u).value.scale))
  {
    assert ("-" + u)[0] == '-' && ("-" + u)[1..] == u;
  }

  lemma DecimalExample()
    ensures ParseDecimal("-72.00") == Some(Decimal(-7200, 2))
  {
    DecimalRoundTrip(Decimal(-7200, 2));
    assert FormatUnsigned(7200, 2) == "72.00" by {
      Spell7200();
      var ds := PaddedDigits(7200, 3);
      assert ds == "7200";
      assert ds[..2] == "72" && ds[2..] == "00";
    }
    assert FormatDecimal(Decimal(-7200, 2)) == "-72.00";
  }

  lemma Spell7200()
    ensures DigitsOf(7200) == "7200"
  {
    assert DigitsOf(7) == "7";
    assert DigitsOf(72) == "72";
    assert DigitsOf(720) == "720";
  }

  // ---------------------------------------------------------------- currencies

  /** An ISO 4217 currency, by its alphabetic code. */
  datatype Currency = Currency(code: string)

  /** The ISO 4217 alphabetic codes, grouped by first letter. */
  function CodesFrom(a: char): set<string> {
    match a
    case 'A' => {"AED", "AFN", "ALL", "AMD", "ANG", "AOA", "ARS", "AUD", "AWG", "AZN"}
    case 'B' => {"BAM", "BBD", "BDT", "BGN", "BHD", "BIF", "BMD", "BND", "BOB", "BOV", "BRL",
                 "BSD", "BTN", "BWP", "BYN", "BZD"}
    case 'C' => {"CAD", "CDF", "CHE", "CHF", "CHW", "CLF", "CLP", "CNY", "COP", "COU", "CRC",
                 "CUC", "CUP", "CVE", "CZK"}
    case 'D' => {"DJF", "DKK", "DOP", "DZD"}
    case 'E' => {"EGP", "ERN", "ETB", "EUR"}
    case 'F' => {"FJD", "FKP"}
    case 'G' => {"GBP", "GEL", "GHS", "GIP", "GMD", "GNF", "GTQ", "GYD"}
    case 'H' => {"HKD", "HNL", "HRK", "HTG", "HUF"}
    case 'I' => {"IDR", "ILS", "INR", "IQD", "IRR", "ISK"}
    case 'J' => {"JMD", "JOD", "JPY"}
    case 'K' => {"KES", "KGS", "KHR", "KMF", "KPW", "KRW", "KWD", "KYD", "KZT"}
    case 'L' => {"LAK", "LBP", "LKR", "LRD", "LSL", "LYD"}
    case 'M' => {"MAD", "MDL", "MGA", "MKD", "MMK", "MNT", "MOP", "MRU", "MUR", "MVR", "MWK",
                 "MXN", "MXV", "MYR", "MZN"}
    case 'N' => {"NAD", "NGN", "NIO", "NOK", "NPR", "NZD"}
    case 'O' => {"OMR"}
    case 'P' => {"PAB", "PEN", "PGK", "PHP", "PKR", "PLN", "PYG"}
    case 'Q' => {"QAR"}
    case 'R' => {"RON", "RSD", "RUB", "RWF"}
    case 'S' => {"SAR", "SBD", "SCR", "SDG", "SEK", "SGD", "SHP", "SLE", "SLL", "SOS", "SRD",
                 "SSP", "STN", "SVC", "SYP", "SZL"}
    case 'T' => {"THB", "TJS", "TMT", "TND", "TOP", "TRY", "TTD", "TWD", "TZS"}
    case 'U' => {"UAH", "UGX", "USD", "USN", "UYI", "UYU", "UYW", "UZS"}
    case 'V' => {"VED", "VES", "VND", "VUV"}
    case 'W' => {"WST"}
    case 'X' => {"XAF", "XAG", "XAU", "XBA", "XBB", "XBC", "XBD", "XCD", "XDR", "XOF", "XPD",
                 "XPF", "XPT", "XSU", "XTS", "XUA", "XXX"}
    case 'Y' => {"YER"}
    case 'Z' => {"ZAR", "ZMW", "ZWL"}
    case _ => {}
  }

  predicate IsCurrencyCode(s: string) {
    |s| == 3 && s in CodesFrom(s[0])
  }

  /** `iso_currency`'s `FromStr`: the text must be one of the codes, exactly. */
  function ParseCurrency(s: string): (r: Option<Currency>)
    ensures r.Some? <==> IsCurrencyCode(s)
    ensures r.Some? ==> r.value.code == s
  {
    if IsCurrencyCode(s) then Some(Currency(s)) else None
  }

  lemma CurrencyExamples()
    ensures ParseCurrency("SEK") == Some(Currency("SEK"))
    ensures ParseCurrency("BTC").None?
    ensures ParseCurrency("sek").None?
  {
  }
}
