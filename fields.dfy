/** The field decoders of src/item.rs (`ParseField`): one parser per field type, run on
    the input right where the field starts (the record body skips the spaces before it). */
module Fields {
  import opened Nom
  import opened Codec
  import opened Unbalanced
  import opened Lexical

  datatype FormatType = PC8
  datatype TypeNo = Sie4
  datatype ChartAccountsType = Bas95 | Bas96 | EuBas97 | Ne2007

  // ---------------------------------------------------------------- text and flags

  /** `String`: the decoded text. */
  function StringField(i: seq<byte>): (r: Res<byte, string>)
    ensures Consumes(r, i)
    ensures r.Error? <==> i != [] && i[0] != '"' as int && !IsUnquoted(i[0])
  {
    Map(Text, (s: string) => s, i)
  }

  /** The bytes that write text in quotes. */
  function Quote(s: string): seq<byte>
    requires forall k :: 0 <= k < |s| ==> s[k] as int < 128
  {
    ['"' as int] + Escape(Ascii(s)) + ['"' as int]
  }

  /** Quoted ASCII text without backslashes reads back whatever follows it. */
  lemma StringFieldQuoted(s: string, rest: seq<byte>)
    requires forall k :: 0 <= k < |s| ==> s[k] as int < 128 && s[k] != '\\'
    ensures StringField(Quote(s) + rest) == Done(rest, s)
  {
    QuotedRoundTrip(Ascii(s), rest);
    DecodeAscii(s);
  }

  /** ASCII text with neither quotes nor backslashes: what reads back unchanged between
      two quotes. */
  predicate PlainText(s: string) {
    forall k :: 0 <= k < |s| ==> s[k] as int < 128 && s[k] != '"' && s[k] != '\\'
  }

  /** Text without quotes is quoted by putting quotes around it. */
  lemma QuotePlain(s: string)
    requires forall k :: 0 <= k < |s| ==> s[k] as int < 128 && s[k] != '"'
    ensures Quote(s) == Ascii("\"" + s + "\"")
  {
    EscapeNoQuote(Ascii(s));
    AsciiConcat("\"" + s, "\"");
    AsciiConcat("\"", s);
  }

  /** `bool`: `0` is false and `1` is true; any other first byte is a recoverable Error. */
  function BoolField(i: seq<byte>): (r: Res<byte, bool>)
    ensures Consumes(r, i)
    ensures r.Incomplete? <==> i == []
    ensures r.Done? <==> i != [] && (i[0] == '0' as int || i[0] == '1' as int)
    ensures r.Done? ==> r.rest == i[1..] && (r.value <==> i[0] == '1' as int)
    ensures r.Error? <==> i != [] && i[0] != '0' as int && i[0] != '1' as int
  {
    var zero, one := Ascii("0"), Ascii("1");
    assert zero == ['0' as int] && one == ['1' as int];
    Alt2(s => Map(t => Tag(zero, t), _ => false, s), s => Map(t => Tag(one, t), _ => true, s), i)
  }

  // ---------------------------------------------------------------- integers

  predicate IsDigitByte(b: byte) {
    '0' as int <= b <= '9' as int
  }

  /** `digit1`, streaming. */
  function Digit1(i: seq<byte>): (r: Res<byte, seq<byte>>)
    ensures Consumes(r, i)
  {
    TakeWhile1(IsDigitByte, i)
  }

  /** `preceded(opt(tag("-")), cut(digit1))`. */
  function SignedDigits(i: seq<byte>): (r: Res<byte, seq<byte>>)
    ensures Consumes(r, i)
  {
    var minus := Ascii("-");
    Preceded(s => Opt(t => Tag(minus, t), s), s => Cut(Digit1, s), i)
  }

  /** What follows the optional minus sign: the input without its first byte when that
      byte is `-`. */
  function Unsigned(i: seq<byte>): (j: seq<byte>)
    ensures |i| - 1 <= |j| <= |i| && j == i[|i| - |j|..]
  {
    if i != [] && i[0] == '-' as int then i[1..] else i
  }

  /** `i32` and `u32`: an optional `-` and one or more digits, recognised as a token and
      converted by Rust's `FromStr` for the type, whose range is `lo..=hi`.  A non-digit
      where a digit must come is a Failure (`cut`); digits up to the end of the input ask
      for more; a token the conversion refuses (overflow, or `-` for an unsigned type) is
      a recoverable Error. */
  function IntField(signed: bool, lo: int, hi: int, i: seq<byte>): (r: Res<byte, int>)
    ensures Consumes(r, i)
    ensures r.Done? ==> lo <= r.value <= hi
  {
    MapRes(s => Recognize(SignedDigits, s), (b: seq<byte>) => FromStrInt(Decode(b), signed, lo, hi), i)
  }

  function I32Field(i: seq<byte>): (r: Res<byte, int>)
    ensures Consumes(r, i)
    ensures r.Done? ==> I32Min <= r.value <= I32Max
  {
    IntField(true, I32Min, I32Max, i)
  }

  function U32Field(i: seq<byte>): (r: Res<byte, int>)
    ensures Consumes(r, i)
    ensures r.Done? ==> 0 <= r.value <= U32Max
  {
    IntField(false, 0, U32Max, i)
  }

  /** The optional minus sign never fails on non-empty input: the digits are read from
      what follows it. */
  lemma SignedDigitsUnfold(i: seq<byte>)
    ensures SignedDigits(i) == if i == [] then Incomplete else Cut(Digit1, Unsigned(i))
  {
    var minus := Ascii("-");
    assert minus == ['-' as int];
    if i != [] && i[0] == '-' as int {
      assert Tag(minus, i) == Done(i[1..], minus);
    }
  }

  /** `cut(digit1)`: no digit is a Failure, digits up to the end ask for more. */
  lemma CutDigit1(j: seq<byte>)
    ensures var r, n := Cut(Digit1, j), PrefixLen(IsDigitByte, j);
            && (r.Incomplete? <==> forall k :: 0 <= k < |j| ==> IsDigitByte(j[k]))
            && (r.Failure? <==> j != [] && !IsDigitByte(j[0]))
            && (r.Done? <==> 0 < n < |j|)
            && (r.Done? ==> r == Done(j[n..], j[..n]))
            && !r.Error? && !r.Panic?
  {
  }

  /** The token the integer field recognises is what the sign and `cut(digit1)` consume. */
  lemma SignedDigitsRecognized(i: seq<byte>)
    ensures i == [] ==> Recognize(SignedDigits, i).Incomplete?
    ensures i != [] ==>
              var c := Cut(Digit1, Unsigned(i));
              Recognize(SignedDigits, i) == if c.Done? then Done(c.rest, i[..|i| - |c.rest|]) else c.PropagateFailure()
  {
    SignedDigitsUnfold(i);
  }

  /** `map_res`: the conversion of the recognised token. */
  lemma IntFieldUnfold(signed: bool, lo: int, hi: int, i: seq<byte>)
    ensures var t := Recognize(SignedDigits, i);
            IntField(signed, lo, hi, i) ==
              if !t.Done? then t.PropagateFailure()
              else if FromStrInt(Decode(t.value), signed, lo, hi).Some? then Done(t.rest, FromStrInt(Decode(t.value), signed, lo, hi).value)
              else Error
  {
  }

  /** The outcomes of the integer field that its input's shape alone decides: no input or
      only digits ask for more, and a non-digit where the first digit must come is a
      Failure. */
  lemma IntFieldOutcome(signed: bool, lo: int, hi: int, i: seq<byte>)
    ensures var r, j := IntField(signed, lo, hi, i), Unsigned(i);
            && (r.Incomplete? <==> i == [] || forall k :: 0 <= k < |j| ==> IsDigitByte(j[k]))
            && (r.Failure? <==> i != [] && j != [] && !IsDigitByte(j[0]))
            && !r.Panic?
  {
    SignedDigitsRecognized(i);
    IntFieldUnfold(signed, lo, hi, i);
    CutDigit1(Unsigned(i));
  }

  /** Digits followed by a non-digit form a token, and the conversion of that token
      decides between a value and a recoverable Error. */
  lemma IntFieldConverts(signed: bool, lo: int, hi: int, i: seq<byte>, token: seq<byte>, tail: seq<byte>)
    requires 0 < PrefixLen(IsDigitByte, Unsigned(i)) < |Unsigned(i)|
    requires tail == Unsigned(i)[PrefixLen(IsDigitByte, Unsigned(i))..]
    requires i == token + tail
    ensures var v := FromStrInt(Decode(token), signed, lo, hi);
            IntField(signed, lo, hi, i) == if v.Some? then Done(tail, v.value) else Error
  {
    var j := Unsigned(i);
    var n := PrefixLen(IsDigitByte, j);
    assert Recognize(SignedDigits, i) == Done(tail, token) by {
      CutDigit1(j);
      assert Cut(Digit1, j) == Done(j[n..], j[..n]);
      SignedDigitsRecognized(i);
      assert token == i[..|i| - |tail|];
    }
    IntFieldUnfold(signed, lo, hi, i);
  }

  /** The leading digits of `digits + rest` are exactly `digits`. */
  lemma DigitRun(digits: seq<byte>, rest: seq<byte>)
    requires forall k :: 0 <= k < |digits| ==> IsDigitByte(digits[k])
    requires rest != [] && !IsDigitByte(rest[0])
    ensures PrefixLen(IsDigitByte, digits + rest) == |digits|
  {
    var i := digits + rest;
    var m := PrefixLen(IsDigitByte, i);
    assert i[|digits|] == rest[0];
    assert forall k :: 0 <= k < |digits| ==> i[k] == digits[k];
  }

  /** A token of an optional minus and digits, followed by a non-digit, is converted whole. */
  lemma IntFieldToken(signed: bool, lo: int, hi: int, sign: seq<byte>, digits: seq<byte>, rest: seq<byte>)
    requires sign == [] || sign == ['-' as int]
    requires digits != [] && forall k :: 0 <= k < |digits| ==> IsDigitByte(digits[k])
    requires rest != [] && !IsDigitByte(rest[0])
    ensures var v := FromStrInt(Decode(sign + digits), signed, lo, hi);
            IntField(signed, lo, hi, sign + digits + rest) == if v.Some? then Done(rest, v.value) else Error
  {
    var i := sign + digits + rest;
    var j := digits + rest;
    assert Unsigned(i) == j by {
      if sign == [] {
        assert i == j;
        assert !(digits[0] == '-' as int);
      } else {
        assert i == ['-' as int] + j;
      }
    }
    assert PrefixLen(IsDigitByte, j) == |digits| by {
      DigitRun(digits, rest);
    }
    assert j[|digits|..] == rest;
    IntFieldConverts(signed, lo, hi, i, sign + digits, rest);
  }

  /** Every integer of the type's range reads back from its spelling, whatever non-digit
      follows it. */
  lemma IntFieldRoundTrip(signed: bool, lo: int, hi: int, n: int, rest: seq<byte>)
    requires lo <= n <= hi && (n < 0 ==> signed)
    requires rest != [] && !IsDigitByte(rest[0])
    ensures IntField(signed, lo, hi, Ascii(ShowInt(n)) + rest) == Done(rest, n)
  {
    var sign: seq<byte> := if n < 0 then ['-' as int] else [];
    var digits := Ascii(DigitsOf(if n < 0 then -n else n));
    ShowIntBytes(n);
    assert FromStrInt(Decode(sign + digits), signed, lo, hi) == Some(n) by {
      DecodeAscii(ShowInt(n));
      IntRoundTrip(n, signed, lo, hi);
    }
    IntFieldToken(signed, lo, hi, sign, digits, rest);
    assert Ascii(ShowInt(n)) + rest == sign + digits + rest;
  }

  /** The bytes of an integer's spelling: an optional minus, then digits. */
  lemma ShowIntBytes(n: int)
    ensures var digits := Ascii(DigitsOf(if n < 0 then -n else n));
            && Ascii(ShowInt(n)) == (if n < 0 then ['-' as int] else []) + digits
            && digits != [] && forall k :: 0 <= k < |digits| ==> IsDigitByte(digits[k])
  {
    var d := DigitsOf(if n < 0 then -n else n);
    if n < 0 {
      AsciiConcat("-", d);
    }
    forall k | 0 <= k < |d| ensures IsDigitByte(Ascii(d)[k]) {
      assert IsDigit(d[k]);
    }
  }

  /** A minus sign is no part of a `u32`: the token is well formed, so it is a recoverable
      Error rather than a Failure. */
  lemma U32RefusesMinus(n: nat, rest: seq<byte>)
    requires rest != [] && !IsDigitByte(rest[0])
    ensures U32Field(Ascii("-" + DigitsOf(n)) + rest).Error?
  {
    var s := "-" + DigitsOf(n);
    var digits := Ascii(DigitsOf(n));
    assert Ascii(s) == ['-' as int] + digits;
    IntFieldToken(false, 0, U32Max, ['-' as int], digits, rest);
    DecodeAscii(s);
    assert FromStrInt(s, false, 0, U32Max).None? by {
      assert !IsDigit(s[0]);
    }
  }

  // ---------------------------------------------------------------- tokens parsed under cut

  /** `Date`, `Currency` and `Decimal`: an unquoted token whose whole text `parse` must
      accept, under `cut`: a token of the right shape with an invalid value is a Failure.
      The parse's own remainder is dropped; the field's remainder is the token's. */
  function TokenField<T>(parse: string -> Option<T>, i: seq<byte>): (r: Res<byte, T>)
    ensures Consumes(r, i)
    ensures r.Incomplete? <==> UnquotedText(i).Incomplete?
    ensures r.Error? <==> i != [] && !IsUnquoted(i[0])
    ensures r.Failure? <==> UnquotedText(i).Done? && parse(Decode(UnquotedText(i).value)).None?
    ensures r.Done? <==> UnquotedText(i).Done? && parse(Decode(UnquotedText(i).value)).Some?
    ensures r.Done? ==> r == Done(UnquotedText(i).rest, parse(Decode(UnquotedText(i).value)).value)
  {
    var t :- UnquotedText(i);
    var v :- Cut(s => FromStr(parse, s), t.value);
    Done(t.rest, v.value)
  }

  function DateField(i: seq<byte>): (r: Res<byte, Date>)
    ensures Consumes(r, i)
    ensures r.Done? ==> ValidDate(r.value)
  {
    TokenField(ParseDate, i)
  }

  function CurrencyField(i: seq<byte>): (r: Res<byte, Currency>)
    ensures Consumes(r, i)
    ensures r.Done? ==> IsCurrencyCode(r.value.code)
  {
    TokenField(ParseCurrency, i)
  }

  function DecimalField(i: seq<byte>): (r: Res<byte, Decimal>)
    ensures Consumes(r, i)
    ensures r.Incomplete? <==> UnquotedText(i).Incomplete?
    ensures r.Error? <==> i != [] && !IsUnquoted(i[0])
    ensures r.Failure? <==> UnquotedText(i).Done? && ParseDecimal(Decode(UnquotedText(i).value)).None?
    ensures r.Done? && r.value.mantissa < 0 ==> i[0] == '-' as int
  {
    TokenField(ParseDecimal, i)
  }

  /** Text written as one unquoted token: ASCII characters that may appear in unquoted
      text, at least one of them. */
  predicate IsToken(s: string) {
    s != [] && forall k :: 0 <= k < |s| ==> s[k] as int < 128 && IsUnquoted(s[k] as int)
  }

  /** A token made of unquoted ASCII bytes is cut out whole. */
  lemma TokenOf(s: string, rest: seq<byte>)
    requires IsToken(s)
    requires rest != [] && !IsUnquoted(rest[0])
    ensures UnquotedText(Ascii(s) + rest) == Done(rest, Ascii(s))
  {
    var i := Ascii(s) + rest;
    var t := UnquotedText(i);
    assert !IsUnquoted(i[|s|]);
    assert IsUnquoted(i[0]);
    RunSplit(IsUnquoted, Ascii(s), rest, t.value, t.rest);
  }

  /** The token of any valid date, its year's sign written out and the `+` optional,
      reads back as that date. */
  lemma DateFieldRoundTrip(d: Date, plus: bool, rest: seq<byte>)
    requires ValidDate(d)
    requires rest != [] && !IsUnquoted(rest[0])
    ensures DateField(Ascii(SignedFormat(d, plus)) + rest) == Done(rest, d)
  {
    SignedToken(d, plus);
    TokenOf(SignedFormat(d, plus), rest);
    DecodeAscii(SignedFormat(d, plus));
    SignedDateRoundTrip(d, plus);
  }

  /** A signed date is one token: a sign byte is unquoted. */
  lemma SignedToken(d: Date, plus: bool)
    requires ValidDate(d)
    ensures IsToken(SignedFormat(d, plus))
  {
    var u := Date(if d.year < 0 then -d.year else d.year, d.month, d.day);
    YearSignValid(d, d.year < 0);
    var sign: string := if d.year < 0 then "-" else if plus then "+" else "";
    assert SignedFormat(d, plus) == sign + FormatDate(u);
    TokenAfterSign(sign, FormatDate(u));
  }

  lemma TokenAfterSign(sign: string, t: string)
    requires sign == "-" || sign == "+" || sign == ""
    requires IsToken(t)
    ensures IsToken(sign + t)
  {
    forall k | 0 <= k < |sign + t|
      ensures (sign + t)[k] as int < 128 && IsUnquoted((sign + t)[k] as int)
    {
      if k >= |sign| {
        assert (sign + t)[k] == t[k - |sign|];
      }
    }
  }

  /** The token of a decimal in plain notation reads back as that decimal. */
  lemma DecimalFieldRoundTrip(d: Decimal, rest: seq<byte>)
    requires rest != [] && !IsUnquoted(rest[0])
    ensures DecimalField(Ascii(FormatDecimal(d)) + rest) == Done(rest, d)
  {
    FormatDecimalShape(d);
    TokenOf(FormatDecimal(d), rest);
    DecodeAscii(FormatDecimal(d));
    DecimalRoundTrip(d);
  }

  /** The plain notation of a decimal is one token. */
  lemma FormatDecimalShape(d: Decimal)
    ensures IsToken(FormatDecimal(d))
  {
    DecimalToken(d, FormatDecimal(d));
  }

  lemma DecimalToken(d: Decimal, s: string)
    requires s == FormatDecimal(d)
    ensures IsToken(s)
  {
    var a: nat := if d.mantissa < 0 then -d.mantissa else d.mantissa;
    var u := FormatUnsigned(a, d.scale);
    UnsignedToken(a, d.scale, u);
    if d.mantissa < 0 {
      assert s == "-" + u;
    } else {
      assert s == u;
    }
  }

  /** Digits with or without a point, and with or without a minus in front, are one token. */
  lemma UnsignedToken(a: nat, scale: nat, u: string)
    requires u == FormatUnsigned(a, scale)
    ensures IsToken(u) && IsToken("-" + u)
  {
    var ds := PaddedDigits(a, scale + 1);
    PointedToken(ds, scale, u);
    assert forall k :: 1 <= k < |"-" + u| ==> ("-" + u)[k] == u[k - 1];
  }

  lemma PointedToken(ds: string, scale: nat, u: string)
    requires |ds| > scale && AllDigits(ds)
    requires u == if scale == 0 then ds else ds[..|ds| - scale] + "." + ds[|ds| - scale..]
    ensures IsToken(u)
  {
    forall k | 0 <= k < |u| ensures u[k] as int < 128 && IsUnquoted(u[k] as int) {
      if scale == 0 || k < |ds| - scale {
        assert u[k] == ds[k] && IsDigit(ds[k]);
      } else if k > |ds| - scale {
        assert u[k] == ds[k - 1] && IsDigit(ds[k - 1]);
      }
    }
  }

  // ---------------------------------------------------------------- optional fields

  /* The three cases of the `optional` test follow: a token of the right shape but an
     invalid date is a hard error, a missing date leaves the input untouched, and a code
     that is not ISO 4217 is a hard error. */

  lemma InvalidDateToken()
    ensures DateField(Ascii("20201301 \"next\"")).Failure?
    ensures Opt(DateField, Ascii("20201301 \"next\"")).Failure?
  {
    var i := Ascii("20201301 \"next\"");
    assert i == Ascii("20201301") + Ascii(" \"next\"");
    TokenOf("20201301", Ascii(" \"next\""));
    DecodeAscii("20201301");
    Month13Invalid();
    OptSemantics(DateField, i);
  }

  lemma MissingDate()
    ensures DateField(Ascii(" \"next\"")).Error?
    ensures Opt(DateField, Ascii(" \"next\"")) == Done(Ascii(" \"next\""), None)
  {
    var i := Ascii(" \"next\"");
    assert i[0] == ' ' as int;
    OptSemantics(DateField, i);
  }

  lemma BtcToken()
    ensures CurrencyField(Ascii("BTC \"next\"")).Failure?
    ensures Opt(CurrencyField, Ascii("BTC \"next\"")).Failure?
  {
    var i := Ascii("BTC \"next\"");
    assert i == Ascii("BTC") + Ascii(" \"next\"");
    TokenOf("BTC", Ascii(" \"next\""));
    DecodeAscii("BTC");
    CurrencyExamples();
    OptSemantics(CurrencyField, i);
  }

  // ---------------------------------------------------------------- brace-delimited lists

  /** `List<T>`: the brace region, then `many0(complete(element))` over it; the field's
      remainder starts after the closing brace, whatever of the region the elements left. */
  function ListField<T>(element: Parser<byte, T>, i: seq<byte>): (r: Res<byte, seq<T>>)
    ensures Consumes(r, i)
    ensures r.Done? <==> InCurlyBraces(i).Done? && Many0(s => Complete(element, s), InCurlyBraces(i).value).Done?
    ensures r.Done? ==> r == Done(InCurlyBraces(i).rest, Many0(s => Complete(element, s), InCurlyBraces(i).value).value)
  {
    var o :- InCurlyBraces(i);
    var items :- Many0(s => Complete(element, s), o.value);
    Done(o.rest, items.value)
  }

  /** "{}" is the empty list for any element parser that does not fail hard on no input. */
  lemma EmptyList<T>(element: Parser<byte, T>, rest: seq<byte>)
    requires element([]).Error? || element([]).Incomplete?
    ensures ListField(element, Ascii("{}") + rest) == Done(rest, [])
  {
    assert Ascii("{}") == ['{' as int] + [] + ['}' as int];
    PlainRegion([], rest);
  }

  /** `SubItems<T>`: blanks and line breaks, then a brace region read as a list whose
      element is one record `#LABEL ...` (src/item.rs:132-138 has the same region and
      `many0(complete(..))` as `List<T>`). */
  function SubItems<T>(tag: seq<byte>, body: Parser<byte, T>, i: seq<byte>): (r: Res<byte, seq<T>>)
    ensures Consumes(r, i)
    ensures r.Done? ==> TakeWhile(IsBlank, i).Done? && r == ListField(s => SubItem(tag, body, s), TakeWhile(IsBlank, i).rest)
  {
    var w :- TakeWhile(IsBlank, i);
    ListField(s => SubItem(tag, body, s), w.rest)
  }

  /** Every element a list yields is a value of its element parser. */
  lemma ListAll<T>(element: Parser<byte, T>, i: seq<byte>, P: T -> bool)
    requires forall j :: element(j).Done? ==> P(element(j).value)
    ensures ListField(element, i).Done? ==> forall k :: 0 <= k < |ListField(element, i).value| ==> P(ListField(element, i).value[k])
  {
    var o := InCurlyBraces(i);
    if o.Done? {
      Many0All(s => Complete(element, s), o.value, P);
    }
  }

  /** Every record a `SubItems` region yields is a value of the record's body parser. */
  lemma SubItemsAll<T>(tag: seq<byte>, body: Parser<byte, T>, i: seq<byte>, P: T -> bool)
    requires forall j :: body(j).Done? ==> P(body(j).value)
    ensures SubItems(tag, body, i).Done? ==> forall k :: 0 <= k < |SubItems(tag, body, i).value| ==> P(SubItems(tag, body, i).value[k])
  {
    var w := TakeWhile(IsBlank, i);
    if w.Done? {
      forall j | SubItem(tag, body, j).Done? ensures P(SubItem(tag, body, j).value) {
        var x := SubItemIsBody(tag, body, j);
      }
      ListAll(s => SubItem(tag, body, s), w.rest, P);
    }
  }

  /** A record of a region is what the body parser makes of some input. */
  lemma SubItemIsBody<T>(tag: seq<byte>, body: Parser<byte, T>, i: seq<byte>) returns (x: seq<byte>)
    requires SubItem(tag, body, i).Done?
    ensures SubItem(tag, body, i) == body(x)
  {
    var a := TakeWhile<byte>(NotHash, i);
    x := Tag(tag, a.rest[1..]).rest;
  }

  predicate NotHash(b: byte) {
    b != '#' as int
  }

  /** One record of a `SubItems` region: skip to `#`, then `preceded(char('#'), tag(label))`,
      then the record's body.  The run stops only at a `#`, so `char('#')` always takes
      the byte after it. */
  function SubItem<T>(tag: seq<byte>, body: Parser<byte, T>, i: seq<byte>): (r: Res<byte, T>)
    ensures (forall s :: Consumes(body(s), s)) ==> Consumes(r, i)
    ensures (forall k :: 0 <= k < |i| ==> NotHash(i[k])) ==> r.Incomplete?
  {
    var a :- TakeWhile<byte>(NotHash, i);
    assert Char('#' as int, a.rest) == Done(a.rest[1..], '#' as int);
    var l :- Tag(tag, a.rest[1..]);
    body(l.rest)
  }

  /** The record after a run without `#` is what the body makes of the bytes behind
      `#` and the label. */
  lemma SubItemAt<T>(tag: seq<byte>, body: Parser<byte, T>, lead: seq<byte>, b: seq<byte>)
    requires forall k :: 0 <= k < |lead| ==> NotHash(lead[k])
    ensures SubItem(tag, body, lead + (['#' as int] + (tag + b))) == body(b)
  {
    var h := ['#' as int] + (tag + b);
    TakeWhileSplit<byte>(NotHash, lead, h);
    assert h[1..] == tag + b;
    assert (tag + b)[|tag|..] == b;
  }

  /** Input without `#` could still grow into a record: the region parser asks for
      more. */
  lemma SubItemNoHash<T>(tag: seq<byte>, body: Parser<byte, T>, t: seq<byte>)
    requires forall k :: 0 <= k < |t| ==> NotHash(t[k])
    ensures SubItem(tag, body, t).Incomplete?
  {
  }

  /** `many0(complete(..))` over two elements and a tail it cannot read yields the two. */
  lemma {:induction false} ManyTwo<T>(element: Parser<byte, T>, a: seq<byte>, b: seq<byte>, t: seq<byte>, x: T, y: T)
    requires a != [] && b != []
    requires element(a + (b + t)) == Done(b + t, x)
    requires element(b + t) == Done(t, y)
    requires element(t).Error? || element(t).Incomplete?
    ensures Many0(s => Complete(element, s), a + (b + t)) == Done(t, [x, y])
  {
    var p := s => Complete(element, s);
    assert p(t).Error?;
    assert Many0(p, t) == Done(t, []);
    assert [y] + [] == [y];
    assert Many0(p, b + t) == Done(t, [y]);
    assert [x] + [y] == [x, y];
  }

  /** A brace region whose elements `many0` reads as `vs` is the list `vs`, and the
      remainder starts after the closing brace. */
  lemma ListRegion<T>(element: Parser<byte, T>, c: seq<byte>, rest: seq<byte>, t: seq<byte>, vs: seq<T>)
    requires TakeUntilUnbalancedSpec(c + (['}' as int] + rest), ByteBraces) == Done(['}' as int] + rest, c)
    requires Many0(s => Complete(element, s), c) == Done(t, vs)
    ensures ListField(element, ['{' as int] + (c + (['}' as int] + rest))) == Done(rest, vs)
  {
    BracedRegion(c, rest);
  }

  /** The blanks in front of a list of records are skipped, and the list is the field. */
  lemma SubItemsAfter<T>(tag: seq<byte>, body: Parser<byte, T>, i: seq<byte>, blanks: seq<byte>, region: seq<byte>, rest: seq<byte>, vs: seq<T>)
    requires TakeWhile(IsBlank, i) == Done(region, blanks)
    requires ListField(s => SubItem(tag, body, s), region) == Done(rest, vs)
    ensures SubItems(tag, body, i) == Done(rest, vs)
  {
  }

  /** `take_while` over blanks stops at the first byte that is not one. */
  lemma SkipBlanks(blanks: seq<byte>, region: seq<byte>)
    requires forall k :: 0 <= k < |blanks| ==> IsBlank(blanks[k])
    requires region != [] && !IsBlank(region[0])
    ensures TakeWhile(IsBlank, blanks + region) == Done(region, blanks)
  {
    TakeWhileSplit<byte>(IsBlank, blanks, region);
  }

  // ---------------------------------------------------------------- fixed literals

  function FormatTypeField(i: seq<byte>): (r: Res<byte, FormatType>)
    ensures Consumes(r, i)
    ensures r.Done? <==> Ascii("PC8") <= i
    ensures r.Done? ==> r.rest == i[3..]
  {
    Map(s => Tag(Ascii("PC8"), s), _ => PC8, i)
  }

  function TypeNoField(i: seq<byte>): (r: Res<byte, TypeNo>)
    ensures Consumes(r, i)
    ensures r.Done? <==> Ascii("4") <= i
    ensures r.Done? ==> r.rest == i[1..]
  {
    Map(s => Tag(Ascii("4"), s), _ => Sie4, i)
  }

  /** The literal each chart-of-accounts type is written as. */
  function ChartName(t: ChartAccountsType): (s: string)
    ensures forall k :: 0 <= k < |s| ==> s[k] as int < 128
  {
    match t
    case Bas95 => "BAS95"
    case Bas96 => "BAS96"
    case EuBas97 => "EUBAS97"
    case Ne2007 => "NE2007"
  }

  /** One alternative of the chart-of-accounts type: its literal. */
  function ChartTag(t: ChartAccountsType, i: seq<byte>): (r: Res<byte, ChartAccountsType>)
    ensures Consumes(r, i)
    ensures r.Done? ==> r.value == t && i == Ascii(ChartName(t)) + r.rest
  {
    Map(s => Tag(Ascii(ChartName(t)), s), _ => t, i)
  }

  /** The chart-of-accounts type: the first of the four literals the input starts with. */
  function ChartAccountsTypeField(i: seq<byte>): (r: Res<byte, ChartAccountsType>)
    ensures Consumes(r, i)
    ensures r.Done? ==> i == Ascii(ChartName(r.value)) + r.rest
  {
    Alt([s => ChartTag(Bas95, s), s => ChartTag(Bas96, s), s => ChartTag(EuBas97, s), s => ChartTag(Ne2007, s)], i)
  }

  /** Each literal reads back as its type, and the literal is what the field consumes. */
  lemma ChartRoundTrip(t: ChartAccountsType, rest: seq<byte>)
    ensures ChartAccountsTypeField(Ascii(ChartName(t)) + rest) == Done(rest, t)
  {
    var i := Ascii(ChartName(t)) + rest;
    var ps: seq<Parser<byte, ChartAccountsType>> :=
      [s => ChartTag(Bas95, s), s => ChartTag(Bas96, s), s => ChartTag(EuBas97, s), s => ChartTag(Ne2007, s)];
    var kinds := [Bas95, Bas96, EuBas97, Ne2007];
    var k := match t case Bas95 => 0 case Bas96 => 1 case EuBas97 => 2 case Ne2007 => 3;
    assert kinds[k] == t;
    forall j | 0 <= j < 4 && j != k ensures ps[j](i).Error? {
      ChartTagOther(kinds[j], t, rest);
    }
    assert ps[k](i) == Done(rest, t) by {
      assert Ascii(ChartName(t)) <= i;
    }
    AltSelect(ps, i, k);
  }

  /** The literal of another type is no prefix of this one's, nor the other way round. */
  lemma ChartTagOther(u: ChartAccountsType, t: ChartAccountsType, rest: seq<byte>)
    requires u != t
    ensures ChartTag(u, Ascii(ChartName(t)) + rest).Error?
  {
    var i := Ascii(ChartName(t)) + rest;
    var w := Ascii(ChartName(u));
    assert i[0] != w[0] || i[4] != w[4];
  }
}
