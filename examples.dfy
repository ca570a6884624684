/** The records of the unit tests of src/item.rs, read through the model. */
module Examples {
  import opened Nom
  import opened Codec
  import opened Lexical
  import opened Fields
  import opened Records
  import opened Unbalanced

  // ---------------------------------------------------------------- single values

  lemma Spell1220()
    ensures ShowInt(1220) == "1220"
  {
    assert DigitsOf(1) == "1";
    assert DigitsOf(12) == "12";
    assert DigitsOf(122) == "122";
  }

  /** An unsigned integer field followed by `rest`. */
  lemma {:induction false} U32Value(n: nat, digits: string, rest: seq<byte>)
    requires n <= U32Max && ShowInt(n) == digits
    requires rest != [] && !IsDigitByte(rest[0])
    ensures ParseValue(TyU32, Ascii(digits) + rest) == Done(rest, VInt(n))
  {
    IntFieldRoundTrip(false, 0, U32Max, n, rest);
  }

  /** A quoted string field followed by `rest`. */
  lemma {:induction false} StringValue(s: string, rest: seq<byte>)
    requires PlainText(s)
    ensures ParseValue(TyString, Ascii("\"" + s + "\"") + rest) == Done(rest, VString(s))
  {
    QuotePlain(s);
    StringFieldQuoted(s, rest);
  }

  // ---------------------------------------------------------------- one field at a time

  /** A quoted string field after `sep`; the remaining fields go on from after it. */
  lemma {:induction false} StepString(fs: seq<Field>, sep: seq<byte>, s: string, rest: seq<byte>)
    requires fs != [] && fs[0].ty == TyString && PlainText(s)
    requires forall k :: 0 <= k < |sep| ==> IsWhitespace(sep[k])
    ensures ParseFields(fs, sep + (Ascii("\"" + s + "\"") + rest)) == Prepend(VString(s), ParseFields(fs[1..], rest))
  {
    StringValue(s, rest);
    assert Ascii("\"" + s + "\"")[0] == '"' as int;
    FieldsStep(fs, sep, Ascii("\"" + s + "\"") + rest, rest, VString(s));
  }

  /** An unsigned integer field after `sep`. */
  lemma {:induction false} StepU32(fs: seq<Field>, sep: seq<byte>, n: nat, digits: string, rest: seq<byte>)
    requires fs != [] && fs[0].ty == TyU32 && n <= U32Max && ShowInt(n) == digits
    requires forall k :: 0 <= k < |sep| ==> IsWhitespace(sep[k])
    requires rest != [] && !IsDigitByte(rest[0])
    ensures ParseFields(fs, sep + (Ascii(digits) + rest)) == Prepend(VInt(n), ParseFields(fs[1..], rest))
  {
    U32Value(n, digits, rest);
    ShowIntBytes(n);
    FieldsStep(fs, sep, Ascii(digits) + rest, rest, VInt(n));
  }

  /** An empty list of strings after `sep`. */
  lemma {:induction false} StepEmptyList(fs: seq<Field>, sep: seq<byte>, rest: seq<byte>)
    requires fs != [] && fs[0].ty == TyList(TyString)
    requires forall k :: 0 <= k < |sep| ==> IsWhitespace(sep[k])
    ensures ParseFields(fs, sep + (Ascii("{}") + rest)) == Prepend(VList([]), ParseFields(fs[1..], rest))
  {
    assert ParseValue(TyString, []).Incomplete?;
    ListEmpty(TyString, rest);
    assert Ascii("{}")[0] == '{' as int;
    FieldsStep(fs, sep, Ascii("{}") + rest, rest, VList([]));
  }

  /** The first byte of a token is not a space or a tab. */
  lemma {:induction false} TokenHead(s: string, rest: seq<byte>)
    requires IsToken(s)
    ensures (Ascii(s) + rest)[0] == s[0] as int && !IsWhitespace((Ascii(s) + rest)[0])
  {
  }

  /** An amount in plain notation after `sep`. */
  lemma {:induction false} StepAmount(fs: seq<Field>, sep: seq<byte>, d: Decimal, rest: seq<byte>)
    requires fs != [] && fs[0].ty == TyAmount
    requires forall k :: 0 <= k < |sep| ==> IsWhitespace(sep[k])
    requires rest != [] && !IsUnquoted(rest[0])
    ensures ParseFields(fs, sep + (Ascii(FormatDecimal(d)) + rest)) == Prepend(VAmount(d), ParseFields(fs[1..], rest))
  {
    DecimalFieldRoundTrip(d, rest);
    FormatDecimalShape(d);
    TokenHead(FormatDecimal(d), rest);
    FieldsStep(fs, sep, Ascii(FormatDecimal(d)) + rest, rest, VAmount(d));
  }

  /** A date, present, in an optional date field after `sep`. */
  lemma {:induction false} StepSomeDate(fs: seq<Field>, sep: seq<byte>, d: Date, rest: seq<byte>)
    requires fs != [] && fs[0].ty == TyOption(TyDate) && ValidDate(d) && d.year >= 0
    requires forall k :: 0 <= k < |sep| ==> IsWhitespace(sep[k])
    requires rest != [] && !IsUnquoted(rest[0])
    ensures ParseFields(fs, sep + (Ascii(FormatDate(d)) + rest))
            == Prepend(VOption(Some(VDate(d))), ParseFields(fs[1..], rest))
  {
    var x := Ascii(FormatDate(d)) + rest;
    UnsignedFormat(d);
    DateFieldRoundTrip(d, false, rest);
    assert ParseValue(TyDate, x) == Done(rest, VDate(d));
    OptionPresent(TyDate, x);
    DateToken(d);
    TokenHead(FormatDate(d), rest);
    FieldsStep(fs, sep, x, rest, VOption(Some(VDate(d))));
  }

  /** Eight digits are one token. */
  lemma DateToken(d: Date)
    requires ValidDate(d) && d.year >= 0
    ensures IsToken(FormatDate(d))
  {
    var s := FormatDate(d);
    assert forall k :: 0 <= k < |s| ==> IsDigit(s[k]);
  }

  /** A quoted string, present, in an optional string field after `sep`. */
  lemma {:induction false} StepSomeString(fs: seq<Field>, sep: seq<byte>, s: string, rest: seq<byte>)
    requires fs != [] && fs[0].ty == TyOption(TyString) && PlainText(s)
    requires forall k :: 0 <= k < |sep| ==> IsWhitespace(sep[k])
    ensures ParseFields(fs, sep + (Ascii("\"" + s + "\"") + rest))
            == Prepend(VOption(Some(VString(s))), ParseFields(fs[1..], rest))
  {
    var x := Ascii("\"" + s + "\"") + rest;
    StringValue(s, rest);
    OptionPresent(TyString, x);
    assert x[0] == '"' as int;
    FieldsStep(fs, sep, x, rest, VOption(Some(VString(s))));
  }

  /** Whether an optional date or string field, facing `x`, finds itself absent. */
  predicate AbsentBefore(t: FieldType, x: seq<byte>) {
    x != [] && !IsWhitespace(x[0]) && !IsUnquoted(x[0])
    && (t == TyOption(TyDate) || (t == TyOption(TyString) && x[0] != '"' as int))
  }

  /** An optional date or string field in front of a byte that starts neither of them is
      absent and leaves the input where it was (after the spaces before it). */
  lemma {:induction false} StepNone(fs: seq<Field>, sep: seq<byte>, x: seq<byte>)
    requires fs != [] && AbsentBefore(fs[0].ty, x)
    requires forall k :: 0 <= k < |sep| ==> IsWhitespace(sep[k])
    ensures ParseFields(fs, sep + x) == Prepend(VOption(None), ParseFields(fs[1..], x))
  {
    OptionAbsent(fs[0].ty.inner, x);
    FieldsStep(fs, sep, x, x, VOption(None));
  }

  /** `n` absent optional values. */
  function Absent(n: nat): (vs: seq<Value>)
    ensures |vs| == n && forall k :: 0 <= k < n ==> vs[k] == VOption(None)
  {
    seq(n, k => VOption(None))
  }

  /** Trailing optional fields that all find themselves absent take nothing. */
  lemma {:induction false} AbsentTail(fs: seq<Field>, x: seq<byte>)
    requires forall k :: 0 <= k < |fs| ==> AbsentBefore(fs[k].ty, x)
    ensures ParseFields(fs, x) == Done(x, Absent(|fs|))
    decreases |fs|
  {
    if fs == [] {
      NoMoreFields(fs, x);
    } else {
      assert AbsentBefore(fs[0].ty, x);
      AbsentTail(fs[1..], x);
      AbsentCons(fs, x);
    }
  }

  lemma {:induction false} AbsentCons(fs: seq<Field>, x: seq<byte>)
    requires fs != [] && AbsentBefore(fs[0].ty, x)
    requires ParseFields(fs[1..], x) == Done(x, Absent(|fs| - 1))
    ensures ParseFields(fs, x) == Done(x, Absent(|fs|))
  {
    var e: seq<byte> := [];
    assert e + x == x;
    StepNone(fs, e, x);
    AbsentOneMore(|fs| - 1);
  }

  lemma AbsentOneMore(n: nat)
    ensures Absent(n + 1) == [VOption(None)] + Absent(n)
  {
    assert forall k :: 0 <= k < n + 1 ==> ([VOption(None)] + Absent(n))[k] == VOption(None);
  }

  /** A record of two fields. */
  lemma {:induction false} Record2(k: Kind, i: seq<byte>, rest: seq<byte>, a: Value, b: Value)
    requires ParseFields(Schema(k), i) == Done(rest, [a] + ([b] + []))
    ensures ParseRecord(k, i) == Done(rest, Item(k, [a, b]))
  {
    assert [a] + ([b] + []) == [a, b];
    RecordFromFields(k, i, rest, [a, b]);
  }

  // ---------------------------------------------------------------- KONTO

  lemma KontoLabel()
    ensures LabelBytes(Konto) == Ascii("KONTO")
  {
    assert Label(Konto) == "KONTO";
  }

  /** A KONTO body: a space, the account number, a space, the quoted name, then `rest`. */
  lemma {:induction false} KontoFields(n: nat, digits: string, name: string, rest: seq<byte>)
    requires n <= U32Max && ShowInt(n) == digits
    requires PlainText(name)
    ensures ParseFields(Schema(Konto), [' ' as int] + (Ascii(digits) + ([' ' as int] + (Ascii("\"" + name + "\"") + rest))))
            == Done(rest, [VInt(n)] + ([VString(name)] + []))
  {
    var fs, sp := Schema(Konto), [' ' as int];
    var x := sp + (Ascii("\"" + name + "\"") + rest);
    NoMoreFields(fs[1..][1..], rest);
    StepString(fs[1..], sp, name, rest);
    StepU32(fs, sp, n, digits, x);
  }

  lemma {:induction false} KontoRecord(n: nat, digits: string, name: string, rest: seq<byte>)
    requires n <= U32Max && ShowInt(n) == digits
    requires PlainText(name)
    ensures ParseRecord(Konto, [' ' as int] + (Ascii(digits) + ([' ' as int] + (Ascii("\"" + name + "\"") + rest))))
            == Done(rest, Item(Konto, [VInt(n), VString(name)]))
  {
    KontoFields(n, digits, name, rest);
    Record2(Konto, [' ' as int] + (Ascii(digits) + ([' ' as int] + (Ascii("\"" + name + "\"") + rest))), rest, VInt(n), VString(name));
  }

  lemma Ascii5(a: string, b: string, c: string, d: string, e: string)
    ensures Ascii(a + b + c + d + e) == Ascii(a) + Ascii(b) + Ascii(c) + Ascii(d) + Ascii(e)
  {
    AsciiConcat(a + b + c + d, e);
    AsciiConcat(a + b + c, d);
    AsciiConcat(a + b, c);
    AsciiConcat(a, b);
  }

  lemma Ascii3(a: string, b: string, c: string)
    ensures Ascii(a + b + c) == Ascii(a) + Ascii(b) + Ascii(c)
  {
    AsciiConcat(a + b, c);
    AsciiConcat(a, b);
  }

  lemma LineRegroup(h: seq<byte>, sp: seq<byte>, d: seq<byte>, q: seq<byte>, n: seq<byte>, nl: seq<byte>)
    ensures h + sp + d + (sp + q) + n + (q + nl) == [] + h + (sp + (d + (sp + (q + n + q + nl))))
  {
  }

  lemma KontoPieces()
    ensures Ascii("#KONTO ") == ['#' as int] + LabelBytes(Konto) + [' ' as int]
    ensures Ascii(" \"") == [' ' as int] + Ascii("\"")
    ensures Ascii("\"\n") == Ascii("\"") + Ascii("\n")
  {
    KontoLabel();
  }

  /** The bytes of a KONTO line, cut where the parsers cut them. */
  lemma KontoInput(digits: string, name: string)
    ensures Ascii("#KONTO " + digits + " \"" + name + "\"\n")
            == [] + ['#' as int] + LabelBytes(Konto)
               + ([' ' as int] + (Ascii(digits) + ([' ' as int] + (Ascii("\"" + name + "\"") + Ascii("\n")))))
  {
    var h, sp, q, nl := ['#' as int] + LabelBytes(Konto), [' ' as int], Ascii("\""), Ascii("\n");
    var d, n := Ascii(digits), Ascii(name);
    KontoPieces();
    Ascii5("#KONTO ", digits, " \"", name, "\"\n");
    Ascii3("\"", name, "\"");
    LineRegroup(h, sp, d, q, n, nl);
  }

  /** `Item::parse` of the KONTO test gives account 1220 with its name, and stops before
      the line break. */
  lemma KontoExample()
    ensures ParseItem(Ascii("#KONTO " + "1220" + " \"" + "Inventarier och verktyg" + "\"\n"))
            == Done(Ascii("\n"), Item(Konto, [VInt(1220), VString("Inventarier och verktyg")]))
  {
    var name := "Inventarier och verktyg";
    var b := [' ' as int] + (Ascii("1220") + ([' ' as int] + (Ascii("\"" + name + "\"") + Ascii("\n"))));
    KontoInput("1220", name);
    Dispatch([], Konto, b);
    Spell1220();
    KontoNamePlain();
    KontoRecord(1220, "1220", name, Ascii("\n"));
  }

  lemma KontoNamePlain()
    ensures PlainText("Inventarier och verktyg")
  {
  }

  // ---------------------------------------------------------------- PROGRAM

  /** An unquoted string field followed by `rest`: the token, decoded. */
  lemma {:induction false} TokenValue(s: string, rest: seq<byte>)
    requires IsToken(s) && rest != [] && !IsUnquoted(rest[0])
    ensures ParseValue(TyString, Ascii(s) + rest) == Done(rest, VString(s))
  {
    TokenOf(s, rest);
    assert (Ascii(s) + rest)[0] == s[0] as int;
    DecodeAscii(s);
  }

  /** An unquoted string field after `sep`. */
  lemma {:induction false} StepToken(fs: seq<Field>, sep: seq<byte>, s: string, rest: seq<byte>)
    requires fs != [] && fs[0].ty == TyString && IsToken(s)
    requires forall k :: 0 <= k < |sep| ==> IsWhitespace(sep[k])
    requires rest != [] && !IsUnquoted(rest[0])
    ensures ParseFields(fs, sep + (Ascii(s) + rest)) == Prepend(VString(s), ParseFields(fs[1..], rest))
  {
    TokenValue(s, rest);
    assert (Ascii(s) + rest)[0] == s[0] as int;
    FieldsStep(fs, sep, Ascii(s) + rest, rest, VString(s));
  }

  lemma ProgramPieces()
    ensures LabelBytes(Program) == Ascii("PROGRAM")
    ensures Ascii("#PROGRAM ") == ['#' as int] + LabelBytes(Program) + [' ' as int]
    ensures Ascii(" ") == [' ' as int]
    ensures IsToken("9.0") && PlainText("Vi iMproved")
  {
    assert Label(Program) == "PROGRAM";
  }

  /** The bytes of the PROGRAM line, cut where the parsers cut them. */
  lemma ProgramInput()
    ensures Ascii("#PROGRAM " + "\"Vi iMproved\"" + " " + "9.0" + "\n")
            == [] + ['#' as int] + LabelBytes(Program)
               + ([' ' as int] + (Ascii("\"Vi iMproved\"") + ([' ' as int] + (Ascii("9.0") + Ascii("\n")))))
  {
    ProgramPieces();
    Ascii5("#PROGRAM ", "\"Vi iMproved\"", " ", "9.0", "\n");
  }

  /** A PROGRAM body: a space, the quoted name, a space, the unquoted version, then `rest`. */
  lemma {:induction false} ProgramFields(name: string, version: string, rest: seq<byte>)
    requires PlainText(name) && IsToken(version)
    requires rest != [] && !IsUnquoted(rest[0])
    ensures ParseFields(Schema(Program), [' ' as int] + (Ascii("\"" + name + "\"") + ([' ' as int] + (Ascii(version) + rest))))
            == Done(rest, [VString(name)] + ([VString(version)] + []))
  {
    var fs, sp := Schema(Program), [' ' as int];
    var x := sp + (Ascii(version) + rest);
    NoMoreFields(fs[1..][1..], rest);
    StepToken(fs[1..], sp, version, rest);
    StepString(fs, sp, name, x);
  }

  lemma {:induction false} ProgramRecord(name: string, version: string, rest: seq<byte>)
    requires PlainText(name) && IsToken(version)
    requires rest != [] && !IsUnquoted(rest[0])
    ensures ParseRecord(Program, [' ' as int] + (Ascii("\"" + name + "\"") + ([' ' as int] + (Ascii(version) + rest))))
            == Done(rest, Item(Program, [VString(name), VString(version)]))
  {
    ProgramFields(name, version, rest);
    Record2(Program, [' ' as int] + (Ascii("\"" + name + "\"") + ([' ' as int] + (Ascii(version) + rest))), rest,
            VString(name), VString(version));
  }

  /** The example of the documentation of `Item::parse`: a PROGRAM record with a quoted
      name and an unquoted version. */
  lemma ProgramExample()
    ensures ParseItem(Ascii("#PROGRAM " + "\"Vi iMproved\"" + " " + "9.0" + "\n"))
            == Done(Ascii("\n"), Item(Program, [VString("Vi iMproved"), VString("9.0")]))
  {
    var nl := Ascii("\n");
    var b := [' ' as int] + (Ascii("\"" + "Vi iMproved" + "\"") + ([' ' as int] + (Ascii("9.0") + nl)));
    ProgramInput();
    assert "\"" + "Vi iMproved" + "\"" == "\"Vi iMproved\"";
    Dispatch([], Program, b);
    ProgramPieces();
    assert nl[0] == '\n' as int;
    ProgramRecord("Vi iMproved", "9.0", nl);
  }

  // ---------------------------------------------------------------- TRANS

  lemma Spell1930()
    ensures ShowInt(1930) == "1930"
  {
    assert DigitsOf(1) == "1";
    assert DigitsOf(19) == "19";
    assert DigitsOf(193) == "193";
  }

  lemma Spell58352()
    ensures FormatDecimal(Decimal(58352, 2)) == "583.52"
  {
    assert DigitsOf(5) == "5";
    assert DigitsOf(58) == "58";
    assert DigitsOf(583) == "583";
    assert DigitsOf(5835) == "5835";
    var ds := PaddedDigits(58352, 3);
    assert ds == "58352";
    assert ds[..3] == "583" && ds[3..] == "52";
  }

  lemma Spell19200()
    ensures FormatDecimal(Decimal(19200, 2)) == "192.00"
  {
    assert DigitsOf(1) == "1";
    assert DigitsOf(19) == "19";
    assert DigitsOf(192) == "192";
    assert DigitsOf(1920) == "1920";
    var ds := PaddedDigits(19200, 3);
    assert ds == "19200";
    assert ds[..3] == "192" && ds[3..] == "00";
  }

  lemma Spell20230320()
    ensures ValidDate(Date(2023, 3, 20)) && FormatDate(Date(2023, 3, 20)) == "20230320"
  {
    Spell2023();
    assert Fixed(3, 2) == "03" by { assert Fixed(0, 1) == "0"; }
    assert Fixed(20, 2) == "20" by { assert Fixed(2, 1) == "2"; }
  }

  /** The record the second TRANS test expects: account 1930, no objects, 583.52 and no
      optional field. */
  function Trans2Item(): Item {
    Item(Trans, [VInt(1930), VList([]), VAmount(Decimal(58352, 2))] + Absent(4))
  }

  /** Whitespace only. */
  predicate Spaces(sep: seq<byte>) {
    forall k :: 0 <= k < |sep| ==> IsWhitespace(sep[k])
  }

  lemma Cons3(a: Value, b: Value, c: Value, w: seq<Value>)
    ensures [a] + ([b] + ([c] + w)) == [a, b, c] + w
  {
  }

  /** The field types of a TRANS record. */
  predicate TransShape(fs: seq<Field>) {
    |fs| == 7 && fs[0].ty == TyU32 && fs[1].ty == TyList(TyString) && fs[2].ty == TyAmount
    && fs[3].ty == TyOption(TyDate) && fs[4].ty == TyOption(TyString)
    && fs[5].ty == TyOption(TyString) && fs[6].ty == TyOption(TyString)
  }

  lemma TransSchemaShape()
    ensures TransShape(Schema(Trans))
  {
  }

  /** Spaces in front of anything: the first byte is no digit. */
  lemma {:induction false} SpacesHead(sep: seq<byte>, x: seq<byte>)
    requires sep != [] && Spaces(sep)
    ensures (sep + x) != [] && !IsDigitByte((sep + x)[0]) && !IsUnquoted((sep + x)[0])
  {
    assert (sep + x)[0] == sep[0];
  }

  /** A TRANS body with an account, no objects and an amount, in front of a byte that no
      optional field accepts: the four optional fields are all absent. */
  lemma {:induction false} TransNoOptions(fs: seq<Field>, n: nat, digits: string, d: Decimal, s1: seq<byte>, s2: seq<byte>,
                       s3: seq<byte>, nl: seq<byte>)
    requires TransShape(fs) && n <= U32Max && ShowInt(n) == digits
    requires Spaces(s1) && Spaces(s2) && Spaces(s3) && s2 != []
    requires AbsentBefore(TyOption(TyString), nl)
    ensures ParseFields(fs, s1 + (Ascii(digits) + (s2 + (Ascii("{}") + (s3 + (Ascii(FormatDecimal(d)) + nl))))))
            == Done(nl, [VInt(n), VList([]), VAmount(d)] + Absent(4))
  {
    var x := s3 + (Ascii(FormatDecimal(d)) + nl);
    Cons3(VInt(n), VList([]), VAmount(d), Absent(4));
    TransAmountOnly(fs[2..], d, s3, nl);
    assert fs[1..][1..] == fs[2..];
    StepEmptyList(fs[1..], s2, x);
    SpacesHead(s2, Ascii("{}") + x);
    StepU32(fs, s1, n, digits, s2 + (Ascii("{}") + x));
  }

  /** The last five TRANS fields: an amount, then nothing any optional field accepts. */
  lemma {:induction false} TransAmountOnly(fs: seq<Field>, d: Decimal, s3: seq<byte>, nl: seq<byte>)
    requires |fs| == 5 && fs[0].ty == TyAmount && fs[1].ty == TyOption(TyDate)
    requires fs[2].ty == TyOption(TyString) && fs[3].ty == TyOption(TyString) && fs[4].ty == TyOption(TyString)
    requires Spaces(s3) && AbsentBefore(TyOption(TyString), nl)
    ensures ParseFields(fs, s3 + (Ascii(FormatDecimal(d)) + nl)) == Done(nl, [VAmount(d)] + Absent(4))
  {
    assert forall k :: 0 <= k < |fs[1..]| ==> AbsentBefore(fs[1..][k].ty, nl);
    AbsentTail(fs[1..], nl);
    StepAmount(fs, s3, d, nl);
  }

  /** A TRANS record whose optional fields are all absent. */
  lemma {:induction false} TransNoOptionsRecord(n: nat, digits: string, d: Decimal, s1: seq<byte>, s2: seq<byte>,
                                                s3: seq<byte>, nl: seq<byte>)
    requires n <= U32Max && ShowInt(n) == digits
    requires Spaces(s1) && Spaces(s2) && Spaces(s3) && s2 != []
    requires AbsentBefore(TyOption(TyString), nl)
    ensures ParseRecord(Trans, s1 + (Ascii(digits) + (s2 + (Ascii("{}") + (s3 + (Ascii(FormatDecimal(d)) + nl))))))
            == Done(nl, Item(Trans, [VInt(n), VList([]), VAmount(d)] + Absent(4)))
  {
    var i := s1 + (Ascii(digits) + (s2 + (Ascii("{}") + (s3 + (Ascii(FormatDecimal(d)) + nl)))));
    TransSchemaShape();
    TransNoOptions(Schema(Trans), n, digits, d, s1, s2, s3, nl);
    RecordFromFields(Trans, i, nl, [VInt(n), VList([]), VAmount(d)] + Absent(4));
  }

  lemma {:induction false} Ascii7(a: string, b: string, c: string, d: string, e: string, f: string, g: string)
    ensures Ascii(a + b + c + d + e + f + g)
            == Ascii(a) + (Ascii(b) + (Ascii(c) + (Ascii(d) + (Ascii(e) + (Ascii(f) + Ascii(g))))))
  {
    AsciiConcat(a + b + c + d + e + f, g);
    AsciiConcat(a + b + c + d + e, f);
    Ascii5(a, b, c, d, e);
    assert Ascii(a + b + c + d + e + f + g)
           == Ascii(a) + Ascii(b) + Ascii(c) + Ascii(d) + Ascii(e) + Ascii(f) + Ascii(g);
  }

  /** Spaces and tabs spelled as text. */
  lemma SpacesText(t: string)
    requires forall k :: 0 <= k < |t| ==> t[k] == ' ' || t[k] == '\t'
    ensures Spaces(Ascii(t))
  {
  }

  /** `Trans::parse_item` of the second TRANS test: account 1930, no objects, 583.52, and
      none of the four optional fields, before the line break. */
  lemma Trans2Example()
    ensures ParseRecord(Trans, Ascii(" " + "1930" + " " + "{}" + "\t\t " + "583.52" + "\n"))
            == Done(Ascii("\n"), Trans2Item())
  {
    Ascii7(" ", "1930", " ", "{}", "\t\t ", "583.52", "\n");
    TransLiterals();
    Spell58352();
    TransNoOptionsRecord(1930, "1930", Decimal(58352, 2), Ascii(" "), Ascii(" "), Ascii("\t\t "), Ascii("\n"));
  }

  /** The separators and the account of the TRANS tests. */
  lemma TransLiterals()
    ensures Spaces(Ascii(" ")) && Spaces(Ascii("\t\t ")) && Ascii(" ") != []
    ensures AbsentBefore(TyOption(TyString), Ascii("\n"))
    ensures 1930 <= U32Max && ShowInt(1930) == "1930"
  {
    SpacesText(" ");
    SpacesText("\t\t ");
    Spell1930();
    assert Ascii("\n")[0] == '\n' as int;
  }

  // the first TRANS test: a date and a text

  lemma Cons2(a: Value, b: Value, w: seq<Value>)
    ensures [a] + ([b] + w) == [a, b] + w
  {
  }

  /** The optional fields of a TRANS body with a date and a text, before a byte that no
      optional field accepts. */
  lemma {:induction false} TransDateText(fs: seq<Field>, date: Date, text: string, s4: seq<byte>, s5: seq<byte>,
                                         nl: seq<byte>)
    requires |fs| == 4 && fs[0].ty == TyOption(TyDate) && fs[1].ty == TyOption(TyString)
    requires fs[2].ty == TyOption(TyString) && fs[3].ty == TyOption(TyString)
    requires ValidDate(date) && date.year >= 0 && PlainText(text)
    requires Spaces(s4) && Spaces(s5) && s5 != [] && AbsentBefore(TyOption(TyString), nl)
    ensures ParseFields(fs, s4 + (Ascii(FormatDate(date)) + (s5 + (Ascii("\"" + text + "\"") + nl))))
            == Done(nl, [VOption(Some(VDate(date))), VOption(Some(VString(text)))] + Absent(2))
  {
    var x := Ascii("\"" + text + "\"") + nl;
    assert forall k :: 0 <= k < |fs[2..]| ==> AbsentBefore(fs[2..][k].ty, nl);
    AbsentTail(fs[2..], nl);
    assert fs[1..][1..] == fs[2..];
    StepSomeString(fs[1..], s5, text, nl);
    SpacesHead(s5, x);
    StepSomeDate(fs, s4, date, s5 + x);
    Cons2(VOption(Some(VDate(date))), VOption(Some(VString(text))), Absent(2));
  }

  /** A TRANS body with every field up to the text. */
  lemma {:induction false} TransDated(fs: seq<Field>, n: nat, digits: string, d: Decimal, date: Date, text: string,
                                      s1: seq<byte>, s2: seq<byte>, s3: seq<byte>, s4: seq<byte>, s5: seq<byte>,
                                      nl: seq<byte>)
    requires TransShape(fs) && n <= U32Max && ShowInt(n) == digits
    requires ValidDate(date) && date.year >= 0 && PlainText(text)
    requires Spaces(s1) && Spaces(s2) && Spaces(s3) && Spaces(s4) && Spaces(s5)
    requires s2 != [] && s4 != [] && s5 != [] && AbsentBefore(TyOption(TyString), nl)
    ensures ParseFields(fs, s1 + (Ascii(digits) + (s2 + (Ascii("{}") + (s3 + (Ascii(FormatDecimal(d))
              + (s4 + (Ascii(FormatDate(date)) + (s5 + (Ascii("\"" + text + "\"") + nl))))))))))
            == Done(nl, [VInt(n), VList([]), VAmount(d)] + ([VOption(Some(VDate(date))), VOption(Some(VString(text)))] + Absent(2)))
  {
    var y := s4 + (Ascii(FormatDate(date)) + (s5 + (Ascii("\"" + text + "\"") + nl)));
    var x := s3 + (Ascii(FormatDecimal(d)) + y);
    TransDateText(fs[3..], date, text, s4, s5, nl);
    assert fs[2..][1..] == fs[3..];
    SpacesHead(s4, Ascii(FormatDate(date)) + (s5 + (Ascii("\"" + text + "\"") + nl)));
    StepAmount(fs[2..], s3, d, y);
    assert fs[1..][1..] == fs[2..];
    StepEmptyList(fs[1..], s2, x);
    SpacesHead(s2, Ascii("{}") + x);
    StepU32(fs, s1, n, digits, s2 + (Ascii("{}") + x));
    Cons3(VInt(n), VList([]), VAmount(d), [VOption(Some(VDate(date))), VOption(Some(VString(text)))] + Absent(2));
  }

  lemma {:induction false} TransDatedRecord(n: nat, digits: string, d: Decimal, date: Date, text: string,
                                            s1: seq<byte>, s2: seq<byte>, s3: seq<byte>, s4: seq<byte>, s5: seq<byte>,
                                            nl: seq<byte>)
    requires n <= U32Max && ShowInt(n) == digits
    requires ValidDate(date) && date.year >= 0 && PlainText(text)
    requires Spaces(s1) && Spaces(s2) && Spaces(s3) && Spaces(s4) && Spaces(s5)
    requires s2 != [] && s4 != [] && s5 != [] && AbsentBefore(TyOption(TyString), nl)
    ensures ParseRecord(Trans, s1 + (Ascii(digits) + (s2 + (Ascii("{}") + (s3 + (Ascii(FormatDecimal(d))
              + (s4 + (Ascii(FormatDate(date)) + (s5 + (Ascii("\"" + text + "\"") + nl))))))))))
            == Done(nl, Item(Trans, [VInt(n), VList([]), VAmount(d)]
                                    + ([VOption(Some(VDate(date))), VOption(Some(VString(text)))] + Absent(2))))
  {
    var i := s1 + (Ascii(digits) + (s2 + (Ascii("{}") + (s3 + (Ascii(FormatDecimal(d))
              + (s4 + (Ascii(FormatDate(date)) + (s5 + (Ascii("\"" + text + "\"") + nl)))))))));
    TransSchemaShape();
    TransDated(Schema(Trans), n, digits, d, date, text, s1, s2, s3, s4, s5, nl);
    RecordFromFields(Trans, i, nl, [VInt(n), VList([]), VAmount(d)]
                                   + ([VOption(Some(VDate(date))), VOption(Some(VString(text)))] + Absent(2)));
  }

  // the third TRANS test: the input ends inside the optional fields

  /** The optional fields of a TRANS body that ends right after a quoted text: the date is
      absent, the text is read, and the quantity asks for more input. */
  lemma {:induction false} TransTextAtEnd(fs: seq<Field>, s4: seq<byte>, text: string)
    requires |fs| == 4 && fs[0].ty == TyOption(TyDate) && fs[1].ty == TyOption(TyString)
    requires fs[2].ty == TyOption(TyString) && fs[3].ty == TyOption(TyString)
    requires Spaces(s4) && PlainText(text)
    ensures ParseFields(fs, s4 + Ascii("\"" + text + "\"")).Incomplete?
  {
    var q := Ascii("\"" + text + "\"");
    assert q + [] == q && [] + q == q;
    assert fs[1..][1..] == fs[2..];
    FieldsAtEnd(fs[2..], []);
    StepSomeString(fs[1..], [], text, []);
    assert q[0] == '"' as int;
    StepNone(fs, s4, q);
  }

  /** A TRANS body cut short after the text. */
  lemma {:induction false} TransCutShort(fs: seq<Field>, n: nat, digits: string, d: Decimal, text: string,
                                         s1: seq<byte>, s2: seq<byte>, s3: seq<byte>, s4: seq<byte>)
    requires TransShape(fs) && n <= U32Max && ShowInt(n) == digits && PlainText(text)
    requires Spaces(s1) && Spaces(s2) && Spaces(s3) && Spaces(s4) && s2 != [] && s4 != []
    ensures ParseFields(fs, s1 + (Ascii(digits) + (s2 + (Ascii("{}") + (s3 + (Ascii(FormatDecimal(d))
              + (s4 + Ascii("\"" + text + "\"")))))))).Incomplete?
  {
    var y := s4 + Ascii("\"" + text + "\"");
    var x := s3 + (Ascii(FormatDecimal(d)) + y);
    TransTextAtEnd(fs[3..], s4, text);
    assert fs[2..][1..] == fs[3..];
    SpacesHead(s4, Ascii("\"" + text + "\""));
    StepAmount(fs[2..], s3, d, y);
    assert fs[1..][1..] == fs[2..];
    StepEmptyList(fs[1..], s2, x);
    SpacesHead(s2, Ascii("{}") + x);
    StepU32(fs, s1, n, digits, s2 + (Ascii("{}") + x));
  }

  /** A record whose fields run out of input runs out of input. */
  lemma RecordIncomplete(k: Kind, i: seq<byte>)
    requires ParseFields(Schema(k), i).Incomplete?
    ensures ParseRecord(k, i).Incomplete?
  {
  }

  // the TRANS tests as written

  lemma {:induction false} Ascii8(a: string, b: string, c: string, d: string, e: string, f: string, g: string,
                                  h: string)
    ensures Ascii(a + b + c + d + e + f + g + h)
            == Ascii(a) + (Ascii(b) + (Ascii(c) + (Ascii(d) + (Ascii(e) + (Ascii(f) + (Ascii(g) + Ascii(h)))))))
  {
    AsciiConcat(a + b + c + d + e + f + g, h);
    AsciiConcat(a + b + c + d + e + f, g);
    AsciiConcat(a + b + c + d + e, f);
    Ascii5(a, b, c, d, e);
  }

  lemma {:induction false} Ascii11(a: string, b: string, c: string, d: string, e: string, f: string, g: string,
                                   h: string, i: string, j: string, k: string)
    ensures Ascii(a + b + c + d + e + f + g + h + i + j + k)
            == Ascii(a) + (Ascii(b) + (Ascii(c) + (Ascii(d) + (Ascii(e) + (Ascii(f) + (Ascii(g) + (Ascii(h)
               + (Ascii(i) + (Ascii(j) + Ascii(k))))))))))
  {
    AsciiConcat(a + b + c + d + e + f + g + h + i + j, k);
    AsciiConcat(a + b + c + d + e + f + g + h + i, j);
    AsciiConcat(a + b + c + d + e + f + g + h, i);
    Ascii8(a, b, c, d, e, f, g, h);
  }

  /** The record the first TRANS test expects. */
  function Trans1Item(): Item {
    Item(Trans, [VInt(1930), VList([]), VAmount(Decimal(19200, 2))]
                + ([VOption(Some(VDate(Date(2023, 3, 20)))), VOption(Some(VString("Stonks")))] + Absent(2)))
  }

  /** `Trans::parse_item` of the first TRANS test: account 1930, no objects, 192.00, the
      date 2023-03-20 and the text "Stonks", before the line break. */
  lemma Trans1Example()
    ensures ParseRecord(Trans, Ascii(" " + "1930" + " " + "{}" + " " + "192.00" + " " + "20230320" + " "
                                     + "\"Stonks\"" + "\n"))
            == Done(Ascii("\n"), Trans1Item())
  {
    Ascii11(" ", "1930", " ", "{}", " ", "192.00", " ", "20230320", " ", "\"Stonks\"", "\n");
    TransLiterals();
    Spell19200();
    Spell20230320();
    Stonks();
    var sp := Ascii(" ");
    TransDatedRecord(1930, "1930", Decimal(19200, 2), Date(2023, 3, 20), "Stonks", sp, sp, sp, sp, sp, Ascii("\n"));
  }

  /** `Trans::parse_item` of the third TRANS test fails: the input ends after the text, and a
      streaming parser cannot tell whether a quantity follows. */
  lemma Trans3Example()
    ensures ParseRecord(Trans, Ascii(" " + "1930" + " " + "{}" + " " + "583.52" + " " + "\"Stonks\"")).Incomplete?
  {
    Ascii8(" ", "1930", " ", "{}", " ", "583.52", " ", "\"Stonks\"");
    TransLiterals();
    Spell58352();
    Stonks();
    var sp := Ascii(" ");
    TransSchemaShape();
    TransCutShort(Schema(Trans), 1930, "1930", Decimal(58352, 2), "Stonks", sp, sp, sp, sp);
    RecordIncomplete(Trans, Ascii(" " + "1930" + " " + "{}" + " " + "583.52" + " " + "\"Stonks\""));
  }

  /** `Item::parse` of the cut-off TRANS line: the record is incomplete. */
  lemma Trans3Item(b: seq<byte>)
    requires b == Ascii(" " + "1930" + " " + "{}" + " " + "583.52" + " " + "\"Stonks\"")
    ensures ParseItem(['#' as int] + LabelBytes(Trans) + b) == Incomplete
  {
    Trans3Record(b);
    Dispatch([], Trans, b);
    assert [] + ['#' as int] + LabelBytes(Trans) + b == ['#' as int] + LabelBytes(Trans) + b;
  }

  lemma Trans3Record(b: seq<byte>)
    requires b == Ascii(" " + "1930" + " " + "{}" + " " + "583.52" + " " + "\"Stonks\"")
    ensures ParseRecord(Trans, b) == Incomplete
  {
    Trans3Example();
  }

  lemma Stonks()
    ensures PlainText("Stonks") && "\"" + "Stonks" + "\"" == "\"Stonks\""
  {
  }

  // ---------------------------------------------------------------- VER

  // the transactions of the VER test: a brace block with two TRANS records

  /** Bytes in which the brace scanner meets no brace and no backslash. */
  predicate Plain(s: seq<byte>) {
    forall k :: 0 <= k < |s| ==> !IsSpecial(ByteBraces, s[k])
  }

  lemma PlainConcat(a: seq<byte>, b: seq<byte>)
    requires Plain(a) && Plain(b)
    ensures Plain(a + b)
  {
  }

  /** A brace block holding plain bytes, `{}`, plain bytes, `{}` and plain bytes: the
      scanner stops at the closing brace and takes everything before it. */
  lemma {:induction false} ScanTwoPairs(p1: seq<byte>, p2: seq<byte>, p3: seq<byte>, rest: seq<byte>)
    requires Plain(p1) && Plain(p2) && Plain(p3)
    ensures TakeUntilUnbalancedSpec(p1 + (Ascii("{}") + (p2 + (Ascii("{}") + (p3 + (['}' as byte] + rest))))), ByteBraces)
            == Done(['}' as byte] + rest, p1 + (Ascii("{}") + (p2 + (Ascii("{}") + p3))))
  {
    var b, pair, close := ByteBraces, Ascii("{}"), ['}' as byte] + rest;
    assert pair == [b.open, b.close];
    CloserFirst(rest, b);
    PlainPrefix(p3, close, b);
    assert p3 + [] == p3;
    PairPrefix(p3 + close, b);
    PlainPrefix(p2, pair + (p3 + close), b);
    PairPrefix(p2 + (pair + (p3 + close)), b);
    PlainPrefix(p1, pair + (p2 + (pair + (p3 + close))), b);
  }

  // regrouping concatenations, one level at a time

  lemma Tail2(p1: seq<byte>, p2: seq<byte>, z: seq<byte>)
    ensures (p1 + p2) + z == p1 + (p2 + z)
  {
  }

  lemma Tail3(p1: seq<byte>, p2: seq<byte>, p3: seq<byte>, z: seq<byte>)
    ensures (p1 + (p2 + p3)) + z == p1 + (p2 + (p3 + z))
  {
    Tail2(p1, p2 + p3, z);
    Tail2(p2, p3, z);
  }

  lemma Tail4(p1: seq<byte>, p2: seq<byte>, p3: seq<byte>, p4: seq<byte>, z: seq<byte>)
    ensures (p1 + (p2 + (p3 + p4))) + z == p1 + (p2 + (p3 + (p4 + z)))
  {
    Tail2(p1, p2 + (p3 + p4), z);
    Tail3(p2, p3, p4, z);
  }

  lemma Tail6(p1: seq<byte>, p2: seq<byte>, p3: seq<byte>, p4: seq<byte>, p5: seq<byte>, p6: seq<byte>,
              z: seq<byte>)
    ensures (p1 + (p2 + (p3 + (p4 + (p5 + p6))))) + z == p1 + (p2 + (p3 + (p4 + (p5 + (p6 + z)))))
  {
    Tail2(p1, p2 + (p3 + (p4 + (p5 + p6))), z);
    Tail2(p2, p3 + (p4 + (p5 + p6)), z);
    Tail4(p3, p4, p5, p6, z);
  }

  /** A record of `tag` at the head of a region: `lead`, `#`, the tag, a head, `{}` and a
      tail, then whatever follows. */
  lemma {:induction false} RecordInRegion<T>(tag: seq<byte>, body: Parser<byte, T>, lead: seq<byte>, h: seq<byte>,
                                             m: seq<byte>, a: seq<byte>, z: seq<byte>, x: T)
    requires a == lead + (['#' as byte] + (tag + (h + (Ascii("{}") + m))))
    requires forall k :: 0 <= k < |lead| ==> NotHash(lead[k])
    requires body(h + (Ascii("{}") + (m + z))) == Done(z, x)
    ensures SubItem(tag, body, a + z) == Done(z, x)
  {
    Tail6(lead, ['#' as byte], tag, h, Ascii("{}"), m, z);
    Tail3(h, Ascii("{}"), m, z);
    Tail2(tag, h + (Ascii("{}") + m), z);
    SubItemAt(tag, body, lead, h + (Ascii("{}") + (m + z)));
  }

  /** Two records of `tag`, then bytes without `#`: the elements of the region are read in
      order. */
  lemma {:induction false} TwoRecords<T>(tag: seq<byte>, body: Parser<byte, T>, lead: seq<byte>,
                                         h1: seq<byte>, m1: seq<byte>, h2: seq<byte>, m2: seq<byte>,
                                         a: seq<byte>, b: seq<byte>, t: seq<byte>, x: T, y: T)
    requires a == lead + (['#' as byte] + (tag + (h1 + (Ascii("{}") + m1))))
    requires b == lead + (['#' as byte] + (tag + (h2 + (Ascii("{}") + m2))))
    requires forall k :: 0 <= k < |lead| ==> NotHash(lead[k])
    requires forall k :: 0 <= k < |t| ==> NotHash(t[k])
    requires body(h1 + (Ascii("{}") + (m1 + (b + t)))) == Done(b + t, x)
    requires body(h2 + (Ascii("{}") + (m2 + t))) == Done(t, y)
    ensures Many0(s => Complete(s => SubItem(tag, body, s), s), a + (b + t)) == Done(t, [x, y])
  {
    RecordInRegion(tag, body, lead, h1, m1, a, b + t, x);
    RecordInRegion(tag, body, lead, h2, m2, b, t, y);
    SubItemNoHash(tag, body, t);
    ManyTwo(s => SubItem(tag, body, s), a, b, t, x, y);
  }

  /** Two records of `tag` in a brace block after a line break, with no brace in them but
      the `{}` of each: `SubItems` reads both and stops after the closing brace. */
  lemma {:induction false} TwoSubItems<T>(tag: seq<byte>, body: Parser<byte, T>, lead: seq<byte>,
                                          h1: seq<byte>, m1: seq<byte>, h2: seq<byte>, m2: seq<byte>,
                                          a: seq<byte>, b: seq<byte>, t: seq<byte>, rest: seq<byte>, x: T, y: T)
    requires a == lead + (['#' as byte] + (tag + (h1 + (Ascii("{}") + m1))))
    requires b == lead + (['#' as byte] + (tag + (h2 + (Ascii("{}") + m2))))
    requires forall k :: 0 <= k < |lead| ==> NotHash(lead[k])
    requires forall k :: 0 <= k < |t| ==> NotHash(t[k])
    requires Plain(lead + (['#' as byte] + (tag + h1))) && Plain(m1 + (lead + (['#' as byte] + (tag + h2))))
    requires Plain(m2 + t)
    requires body(h1 + (Ascii("{}") + (m1 + (b + t)))) == Done(b + t, x)
    requires body(h2 + (Ascii("{}") + (m2 + t))) == Done(t, y)
    ensures SubItems(tag, body, ['\n' as byte] + (['{' as byte] + ((a + (b + t)) + (['}' as byte] + rest))))
            == Done(rest, [x, y])
  {
    TwoRecords(tag, body, lead, h1, m1, h2, m2, a, b, t, x, y);
    TwoPairs(lead, tag, h1, m1, h2, m2, a, b, t, rest);
    BlockAfterBreak(tag, body, a + (b + t), rest, t, [x, y]);
  }

  /** A brace block after a line break, whose contents the scanner takes whole and whose
      records are read up to `t`. */
  lemma {:induction false} BlockAfterBreak<T>(tag: seq<byte>, body: Parser<byte, T>, c: seq<byte>, rest: seq<byte>,
                                              t: seq<byte>, vs: seq<T>)
    requires TakeUntilUnbalancedSpec(c + (['}' as byte] + rest), ByteBraces) == Done(['}' as byte] + rest, c)
    requires Many0(s => Complete(s => SubItem(tag, body, s), s), c) == Done(t, vs)
    ensures SubItems(tag, body, ['\n' as byte] + (['{' as byte] + (c + (['}' as byte] + rest)))) == Done(rest, vs)
  {
    ListRegion(s => SubItem(tag, body, s), c, rest, t, vs);
    BraceFirst(c, rest);
    AfterBreak(tag, body, ['{' as byte] + (c + (['}' as byte] + rest)), rest, vs);
  }

  lemma BraceFirst(c: seq<byte>, rest: seq<byte>)
    ensures (['{' as byte] + (c + (['}' as byte] + rest)))[0] == '{' as byte
  {
  }

  /** A list of records after a line break. */
  lemma {:induction false} AfterBreak<T>(tag: seq<byte>, body: Parser<byte, T>, region: seq<byte>, rest: seq<byte>,
                                         vs: seq<T>)
    requires region != [] && region[0] == '{' as byte
    requires ListField(s => SubItem(tag, body, s), region) == Done(rest, vs)
    ensures SubItems(tag, body, ['\n' as byte] + region) == Done(rest, vs)
  {
    var nl: seq<byte> := ['\n' as byte];
    SkipBreak(nl, region);
    SubItemsAfter(tag, body, nl + region, nl, region, rest, vs);
  }

  lemma SkipBreak(nl: seq<byte>, region: seq<byte>)
    requires nl == ['\n' as byte] && region != [] && region[0] == '{' as byte
    ensures TakeWhile(IsBlank, nl + region) == Done(region, nl)
  {
    SkipBlanks(nl, region);
  }

  /** The scan of that brace block. */
  lemma {:induction false} TwoPairs(lead: seq<byte>, tag: seq<byte>, h1: seq<byte>, m1: seq<byte>, h2: seq<byte>,
                                    m2: seq<byte>, a: seq<byte>, b: seq<byte>, t: seq<byte>, rest: seq<byte>)
    requires a == lead + (['#' as byte] + (tag + (h1 + (Ascii("{}") + m1))))
    requires b == lead + (['#' as byte] + (tag + (h2 + (Ascii("{}") + m2))))
    requires Plain(lead + (['#' as byte] + (tag + h1))) && Plain(m1 + (lead + (['#' as byte] + (tag + h2))))
    requires Plain(m2 + t)
    ensures TakeUntilUnbalancedSpec((a + (b + t)) + (['}' as byte] + rest), ByteBraces)
            == Done(['}' as byte] + rest, a + (b + t))
  {
    var pair, close := Ascii("{}"), ['}' as byte] + rest;
    var p1, p2, p3 := lead + (['#' as byte] + (tag + h1)), m1 + (lead + (['#' as byte] + (tag + h2))), m2 + t;
    // a + (b + t) == p1 + (pair + (p2 + (pair + p3)))
    Tail4(lead, ['#' as byte], tag, h1, pair + m1);
    Tail4(lead, ['#' as byte], tag, h2, pair + m2);
    Tail2(pair, m1, b + t);
    Tail2(pair, m2, t);
    Tail4(lead, ['#' as byte], tag, h2, pair + (m2 + t));
    Tail2(m1, lead + (['#' as byte] + (tag + h2)), pair + (m2 + t));
    assert a + (b + t) == p1 + (pair + (p2 + (pair + p3)));
    Tail2(pair, p3, close);
    Tail2(p2, pair + p3, close);
    Tail2(pair, p2 + (pair + p3), close);
    Tail2(p1, pair + (p2 + (pair + p3)), close);
    Tail2(p3, [], close);
    ScanTwoPairs(p1, p2, p3, rest);
  }

  /** A TRANS record with an account, no objects, an amount, a date and a text. */
  function TransItem(n: nat, d: Decimal, date: Date, text: string): Item {
    Item(Trans, [VInt(n), VList([]), VAmount(d)] + ([VOption(Some(VDate(date))), VOption(Some(VString(text)))] + Absent(2)))
  }

  /** The bytes of a TRANS body before its `{}`: the account between single spaces. */
  function TransHead(digits: string): seq<byte> {
    [' ' as byte] + (Ascii(digits) + [' ' as byte])
  }

  /** The bytes of a TRANS body after its `{}`: amount, date and quoted text, each after a
      single space. */
  function TransTail(amount: string, date: string, text: string): seq<byte> {
    [' ' as byte] + (Ascii(amount) + ([' ' as byte] + (Ascii(date) + ([' ' as byte] + Ascii("\"" + text + "\"")))))
  }

  /** A TRANS line inside a VER block: a line break, four spaces, `#TRANS` and the body. */
  function TransLine(digits: string, amount: string, date: string, text: string): seq<byte> {
    Ascii("\n    ") + (['#' as byte] + (LabelBytes(Trans) + (TransHead(digits) + (Ascii("{}") + TransTail(amount, date, text)))))
  }

  /** A TRANS body with single spaces, cut at its `{}`. */
  lemma {:induction false} TransHalves(n: nat, digits: string, d: Decimal, date: Date, text: string, nl: seq<byte>)
    requires n <= U32Max && ShowInt(n) == digits
    requires ValidDate(date) && date.year >= 0 && PlainText(text) && AbsentBefore(TyOption(TyString), nl)
    ensures ParseRecord(Trans, TransHead(digits) + (Ascii("{}") + (TransTail(FormatDecimal(d), FormatDate(date), text) + nl)))
            == Done(nl, TransItem(n, d, date, text))
  {
    var sp, pair, m := [' ' as byte], Ascii("{}"), TransTail(FormatDecimal(d), FormatDate(date), text);
    var amount, day, quoted := Ascii(FormatDecimal(d)), Ascii(FormatDate(date)), Ascii("\"" + text + "\"");
    Tail2(sp, quoted, nl);
    Tail3(sp, day, sp + quoted, nl);
    Tail3(sp, amount, sp + (day + (sp + quoted)), nl);
    Tail3(sp, Ascii(digits), sp, pair + (m + nl));
    TransDatedRecord(n, digits, d, date, text, sp, sp, sp, sp, sp, nl);
  }

  /** Text in which the brace scanner meets nothing special. */
  predicate PlainString(s: string) {
    forall k :: 0 <= k < |s| ==> s[k] as int < 128 && s[k] != '{' && s[k] != '}' && s[k] != '\\'
  }

  lemma PlainAscii(s: string)
    requires PlainString(s)
    ensures Plain(Ascii(s))
  {
  }

  /** The pieces of a TRANS line between its braces are plain. */
  lemma {:induction false} TransLinePlain(digits: string, amount: string, date: string, text: string)
    requires PlainString(digits) && PlainString(amount) && PlainString(date) && PlainString(text)
    ensures Plain(Ascii("\n    ") + (['#' as byte] + (LabelBytes(Trans) + TransHead(digits))))
    ensures Plain(TransTail(amount, date, text))
  {
    var sp := [' ' as byte];
    PlainAscii("\n    ");
    PlainAscii(Label(Trans));
    PlainAscii(digits);
    PlainConcat(Ascii(digits), sp);
    PlainConcat(sp, Ascii(digits) + sp);
    PlainConcat(LabelBytes(Trans), TransHead(digits));
    PlainConcat(['#' as byte], LabelBytes(Trans) + TransHead(digits));
    PlainConcat(Ascii("\n    "), ['#' as byte] + (LabelBytes(Trans) + TransHead(digits)));
    assert PlainString("\"" + text + "\"");
    PlainAscii("\"" + text + "\"");
    PlainConcat(sp, Ascii("\"" + text + "\""));
    PlainAscii(date);
    PlainConcat(Ascii(date), sp + Ascii("\"" + text + "\""));
    PlainConcat(sp, Ascii(date) + (sp + Ascii("\"" + text + "\"")));
    PlainAscii(amount);
    PlainConcat(Ascii(amount), sp + (Ascii(date) + (sp + Ascii("\"" + text + "\""))));
    PlainConcat(sp, Ascii(amount) + (sp + (Ascii(date) + (sp + Ascii("\"" + text + "\"")))));
  }

  lemma Spell42()
    ensures ShowInt(42) == "42"
  {
    assert DigitsOf(4) == "4";
  }

  lemma Spell4007()
    ensures ShowInt(4007) == "4007"
  {
    assert DigitsOf(4) == "4";
    assert DigitsOf(40) == "40";
    assert DigitsOf(400) == "400";
  }

  lemma Spell7200()
    ensures FormatDecimal(Decimal(7200, 2)) == "72.00" && FormatDecimal(Decimal(-7200, 2)) == "-72.00"
  {
    assert DigitsOf(7) == "7";
    assert DigitsOf(72) == "72";
    assert DigitsOf(720) == "720";
    var ds := PaddedDigits(7200, 3);
    assert ds == "7200";
    assert ds[..2] == "72" && ds[2..] == "00";
  }

  /** A date from its spelled parts. */
  lemma DateSpelled(d: Date, y: string, m: string, dd: string)
    requires ValidDate(d) && d.year >= 0
    requires Fixed(d.year, 4) == y && Fixed(d.month, 2) == m && Fixed(d.day, 2) == dd
    ensures FormatDate(d) == y + m + dd
  {
  }

  lemma TwoDigitsOf(n: nat)
    requires n < 100
    ensures Fixed(n, 2) == [DigitChar(n / 10), DigitChar(n % 10)]
  {
    assert Fixed(n / 10, 1) == [DigitChar(n / 10)];
  }

  lemma Spell20230314()
    ensures ValidDate(Date(2023, 3, 14)) && FormatDate(Date(2023, 3, 14)) == "20230314"
  {
    Spell2023();
    TwoDigitsOf(3);
    TwoDigitsOf(14);
    DateSpelled(Date(2023, 3, 14), "2023", "03", "14");
  }

  lemma Spell20230228()
    ensures ValidDate(Date(2023, 2, 28)) && FormatDate(Date(2023, 2, 28)) == "20230228"
  {
    Spell2023();
    TwoDigitsOf(2);
    TwoDigitsOf(28);
    DateSpelled(Date(2023, 2, 28), "2023", "02", "28");
  }
  /** The two transactions the VER test expects: 72.00 out of account 1930 and into
      account 4007. */
  function PieOut(): Item {
    TransItem(1930, Decimal(-7200, 2), Date(2023, 2, 28), "Pie")
  }

  function PieIn(): Item {
    TransItem(4007, Decimal(7200, 2), Date(2023, 2, 28), "Pie")
  }

  /** Each TRANS line starts with a line break, where the text of the line before ends. */
  lemma {:induction false} LineAhead(digits: string, amount: string, date: string, text: string, z: seq<byte>)
    ensures AbsentBefore(TyOption(TyString), TransLine(digits, amount, date, text) + z)
  {
    assert Ascii("\n    ")[0] == '\n' as byte;
    assert (TransLine(digits, amount, date, text) + z)[0] == '\n' as byte;
  }

  /** The bodies of the two TRANS lines, each up to the line break after it. */
  lemma {:induction false} VerBodies(b: seq<byte>, t: seq<byte>)
    requires b == TransLine("4007", "72.00", "20230228", "Pie") && t == Ascii("\n")
    ensures ParseRecord(Trans, TransHead("1930") + (Ascii("{}") + (TransTail("-72.00", "20230228", "Pie") + (b + t))))
            == Done(b + t, PieOut())
    ensures ParseRecord(Trans, TransHead("4007") + (Ascii("{}") + (TransTail("72.00", "20230228", "Pie") + t)))
            == Done(t, PieIn())
  {
    LineAhead("4007", "72.00", "20230228", "Pie", t);
    OutBody(b + t);
    TransLiterals();
    InBody(t);
  }

  lemma {:induction false} OutBody(nl: seq<byte>)
    requires AbsentBefore(TyOption(TyString), nl)
    ensures ParseRecord(Trans, TransHead("1930") + (Ascii("{}") + (TransTail("-72.00", "20230228", "Pie") + nl)))
            == Done(nl, PieOut())
  {
    Spell1930();
    Spell7200();
    Spell20230228();
    TransHalves(1930, "1930", Decimal(-7200, 2), Date(2023, 2, 28), "Pie", nl);
  }

  lemma {:induction false} InBody(nl: seq<byte>)
    requires AbsentBefore(TyOption(TyString), nl)
    ensures ParseRecord(Trans, TransHead("4007") + (Ascii("{}") + (TransTail("72.00", "20230228", "Pie") + nl)))
            == Done(nl, PieIn())
  {
    Spell4007();
    Spell7200();
    Spell20230228();
    TransHalves(4007, "4007", Decimal(7200, 2), Date(2023, 2, 28), "Pie", nl);
  }

  /** The transactions of the VER test: after the line break that ends the header, the brace
      block with its two TRANS lines, each on a line of its own. */
  lemma {:induction false} VerTransactions(rest: seq<byte>)
    ensures SubRecords(Trans, ['\n' as byte] + (['{' as byte] + ((TransLine("1930", "-72.00", "20230228", "Pie")
              + (TransLine("4007", "72.00", "20230228", "Pie") + Ascii("\n"))) + (['}' as byte] + rest))))
            == Done(rest, [PieOut(), PieIn()])
  {
    var lead, t := Ascii("\n    "), Ascii("\n");
    var h1, m1 := TransHead("1930"), TransTail("-72.00", "20230228", "Pie");
    var h2, m2 := TransHead("4007"), TransTail("72.00", "20230228", "Pie");
    var a, b := TransLine("1930", "-72.00", "20230228", "Pie"), TransLine("4007", "72.00", "20230228", "Pie");
    VerBodies(b, t);
    VerBlockPlain(lead, t, h1, m1, h2, m2);
    TwoSubItems(LabelBytes(Trans), s => ParseRecord(Trans, s), lead, h1, m1, h2, m2, a, b, t, rest, PieOut(), PieIn());
    SubRecordsOf(Trans, ['\n' as byte] + (['{' as byte] + ((a + (b + t)) + (['}' as byte] + rest))));
  }

  lemma SubRecordsOf(k: Kind, x: seq<byte>)
    ensures SubRecords(k, x) == SubItems(LabelBytes(k), s => ParseRecord(k, s), x)
  {
  }

  /** What the region scanner and the record skipper need of the VER block. */
  lemma {:induction false} VerBlockPlain(lead: seq<byte>, t: seq<byte>, h1: seq<byte>, m1: seq<byte>, h2: seq<byte>,
                                         m2: seq<byte>)
    requires lead == Ascii("\n    ") && t == Ascii("\n")
    requires h1 == TransHead("1930") && m1 == TransTail("-72.00", "20230228", "Pie")
    requires h2 == TransHead("4007") && m2 == TransTail("72.00", "20230228", "Pie")
    ensures forall k :: 0 <= k < |lead| ==> NotHash(lead[k])
    ensures forall k :: 0 <= k < |t| ==> NotHash(t[k])
    ensures Plain(lead + (['#' as byte] + (LabelBytes(Trans) + h1)))
    ensures Plain(m1 + (lead + (['#' as byte] + (LabelBytes(Trans) + h2))))
    ensures Plain(m2 + t)
  {
    TransLinePlain("1930", "-72.00", "20230228", "Pie");
    TransLinePlain("4007", "72.00", "20230228", "Pie");
    PlainAscii("\n");
    PlainConcat(m2, t);
    PlainConcat(m1, lead + (['#' as byte] + (LabelBytes(Trans) + h2)));
  }
  // the header of the VER test

  /** A date field after `sep`. */
  lemma {:induction false} StepDate(fs: seq<Field>, sep: seq<byte>, d: Date, rest: seq<byte>)
    requires fs != [] && fs[0].ty == TyDate && ValidDate(d) && d.year >= 0
    requires forall k :: 0 <= k < |sep| ==> IsWhitespace(sep[k])
    requires rest != [] && !IsUnquoted(rest[0])
    ensures ParseFields(fs, sep + (Ascii(FormatDate(d)) + rest)) == Prepend(VDate(d), ParseFields(fs[1..], rest))
  {
    var x := Ascii(FormatDate(d)) + rest;
    UnsignedFormat(d);
    DateFieldRoundTrip(d, false, rest);
    assert ParseValue(TyDate, x) == Done(rest, VDate(d));
    DateToken(d);
    TokenHead(FormatDate(d), rest);
    FieldsStep(fs, sep, x, rest, VDate(d));
  }

  /** A list of sub-records straight after the previous field. */
  lemma {:induction false} StepSubItems(fs: seq<Field>, k: Kind, x: seq<byte>, rest: seq<byte>, vs: seq<Item>)
    requires fs != [] && fs[0].ty == TySubItems(k)
    requires x != [] && !IsWhitespace(x[0]) && SubRecords(k, x) == Done(rest, vs)
    ensures ParseFields(fs, x) == Prepend(VSubItems(vs), ParseFields(fs[1..], rest))
  {
    SubItemsValue(k, x, rest, vs);
    assert [] + x == x;
    FieldsStep(fs, [], x, rest, VSubItems(vs));
  }

  /** The field types of a VER record. */
  predicate VerShape(fs: seq<Field>) {
    |fs| == 7 && fs[0].ty == TyString && fs[1].ty == TyU32 && fs[2].ty == TyDate
    && fs[3].ty == TyOption(TyString) && fs[4].ty == TyOption(TyDate) && fs[5].ty == TyOption(TyString)
    && fs[6].ty == TySubItems(Trans)
  }

  lemma VerSchemaShape()
    ensures VerShape(Schema(Ver))
  {
  }

  /** The signature is absent before the line break, and the transactions follow it. */
  lemma {:induction false} VerEnd(fs: seq<Field>, x: seq<byte>, rest: seq<byte>, vs: seq<Item>)
    requires |fs| == 2 && fs[0].ty == TyOption(TyString) && fs[1].ty == TySubItems(Trans)
    requires x != [] && x[0] == '\n' as byte && SubRecords(Trans, x) == Done(rest, vs)
    ensures ParseFields(fs, x) == Done(rest, [VOption(None)] + ([VSubItems(vs)] + []))
  {
    assert fs[1..][1..] == [];
    NoMoreFields(fs[1..][1..], rest);
    StepSubItems(fs[1..], Trans, x, rest, vs);
    assert [] + x == x;
    StepNone(fs, [], x);
  }

  /** From the text on: the text and the registration date are there, then the signature
      and the transactions. */
  lemma {:induction false} VerTail(fs: seq<Field>, text: string, regDate: Date, x: seq<byte>, rest: seq<byte>,
                                   vs: seq<Value>)
    requires |fs| >= 2 && fs[0].ty == TyOption(TyString) && fs[1].ty == TyOption(TyDate)
    requires PlainText(text) && ValidDate(regDate) && regDate.year >= 0
    requires x != [] && x[0] == '\n' as byte && ParseFields(fs[2..], x) == Done(rest, vs)
    ensures ParseFields(fs, [' ' as byte] + (Ascii("\"" + text + "\"") + ([' ' as byte] + (Ascii(FormatDate(regDate)) + x))))
            == Done(rest, [VOption(Some(VString(text)))] + ([VOption(Some(VDate(regDate)))] + vs))
  {
    var sp := [' ' as byte];
    assert fs[1..][1..] == fs[2..];
    StepSomeDate(fs[1..], sp, regDate, x);
    StepSomeString(fs, sp, text, sp + (Ascii(FormatDate(regDate)) + x));
  }

  /** The series, the number and the date, in front of what the remaining fields take. */
  lemma {:induction false} VerFront(fs: seq<Field>, series: string, n: nat, digits: string, date: Date,
                                    y: seq<byte>, rest: seq<byte>, vs: seq<Value>)
    requires |fs| >= 3 && fs[0].ty == TyString && fs[1].ty == TyU32 && fs[2].ty == TyDate
    requires IsToken(series) && n <= U32Max && ShowInt(n) == digits && ValidDate(date) && date.year >= 0
    requires y != [] && y[0] == ' ' as byte && ParseFields(fs[3..], y) == Done(rest, vs)
    ensures ParseFields(fs, [' ' as byte] + (Ascii(series) + ([' ' as byte] + (Ascii(digits) + ([' ' as byte]
              + (Ascii(FormatDate(date)) + y))))))
            == Done(rest, [VString(series)] + ([VInt(n)] + ([VDate(date)] + vs)))
  {
    var sp := [' ' as byte];
    assert fs[1..][1..] == fs[2..] && fs[2..][1..] == fs[3..];
    StepDate(fs[2..], sp, date, y);
    SpacesHead(sp, Ascii(FormatDate(date)) + y);
    StepU32(fs[1..], sp, n, digits, sp + (Ascii(FormatDate(date)) + y));
    SpacesHead(sp, Ascii(digits) + (sp + (Ascii(FormatDate(date)) + y)));
    StepToken(fs, sp, series, sp + (Ascii(digits) + (sp + (Ascii(FormatDate(date)) + y))));
  }

  /** All seven fields of a VER record. */
  lemma {:induction false} VerFields(fs: seq<Field>, series: string, n: nat, digits: string, date: Date, text: string,
                                     regDate: Date, x: seq<byte>, rest: seq<byte>, vs: seq<Item>)
    requires VerShape(fs) && IsToken(series) && n <= U32Max && ShowInt(n) == digits
    requires ValidDate(date) && date.year >= 0 && PlainText(text) && ValidDate(regDate) && regDate.year >= 0
    requires x != [] && x[0] == '\n' as byte && SubRecords(Trans, x) == Done(rest, vs)
    ensures ParseFields(fs, [' ' as byte] + (Ascii(series) + ([' ' as byte] + (Ascii(digits) + ([' ' as byte]
              + (Ascii(FormatDate(date)) + ([' ' as byte] + (Ascii("\"" + text + "\"") + ([' ' as byte]
              + (Ascii(FormatDate(regDate)) + x))))))))))
            == Done(rest, [VString(series)] + ([VInt(n)] + ([VDate(date)] + ([VOption(Some(VString(text)))]
                          + ([VOption(Some(VDate(regDate)))] + ([VOption(None)] + ([VSubItems(vs)] + [])))))))
  {
    var sp := [' ' as byte];
    var y := sp + (Ascii("\"" + text + "\"") + (sp + (Ascii(FormatDate(regDate)) + x)));
    assert fs[3..][2..] == fs[5..];
    VerEnd(fs[5..], x, rest, vs);
    VerTail(fs[3..], text, regDate, x, rest, [VOption(None)] + ([VSubItems(vs)] + []));
    VerFront(fs, series, n, digits, date, y, rest, [VOption(Some(VString(text)))] + ([VOption(Some(VDate(regDate)))]
                                                    + ([VOption(None)] + ([VSubItems(vs)] + []))));
  }
  /** The bytes of a VER header after its label: series, number, date, quoted text and
      registration date, each after a single space. */
  function VerHead(series: string, digits: string, date: string, text: string, regDate: string): seq<byte> {
    [' ' as byte] + (Ascii(series) + ([' ' as byte] + (Ascii(digits) + ([' ' as byte] + (Ascii(date)
      + ([' ' as byte] + (Ascii("\"" + text + "\"") + ([' ' as byte] + Ascii(regDate)))))))))
  }

  lemma Tail10(p1: seq<byte>, p2: seq<byte>, p3: seq<byte>, p4: seq<byte>, p5: seq<byte>, p6: seq<byte>,
               p7: seq<byte>, p8: seq<byte>, p9: seq<byte>, p10: seq<byte>, z: seq<byte>)
    ensures (p1 + (p2 + (p3 + (p4 + (p5 + (p6 + (p7 + (p8 + (p9 + p10))))))))) + z
            == p1 + (p2 + (p3 + (p4 + (p5 + (p6 + (p7 + (p8 + (p9 + (p10 + z)))))))))
  {
    Tail4(p1, p2, p3, p4 + (p5 + (p6 + (p7 + (p8 + (p9 + p10))))), z);
    Tail6(p4, p5, p6, p7, p8, p9 + p10, z);
    Tail2(p9, p10, z);
  }

  lemma Cons7(a: Value, b: Value, c: Value, d: Value, e: Value, f: Value, g: Value)
    ensures [a] + ([b] + ([c] + ([d] + ([e] + ([f] + ([g] + [])))))) == [a, b, c, d, e, f, g]
  {
  }

  /** A VER record whose transactions follow its header after a line break. */
  lemma {:induction false} VerRecord(series: string, n: nat, digits: string, date: Date, text: string, regDate: Date,
                                     x: seq<byte>, rest: seq<byte>, vs: seq<Item>)
    requires IsToken(series) && n <= U32Max && ShowInt(n) == digits
    requires ValidDate(date) && date.year >= 0 && PlainText(text) && ValidDate(regDate) && regDate.year >= 0
    requires x != [] && x[0] == '\n' as byte && SubRecords(Trans, x) == Done(rest, vs)
    ensures ParseRecord(Ver, VerHead(series, digits, FormatDate(date), text, FormatDate(regDate)) + x)
            == Done(rest, Item(Ver, [VString(series), VInt(n), VDate(date), VOption(Some(VString(text))),
                                     VOption(Some(VDate(regDate))), VOption(None), VSubItems(vs)]))
  {
    var sp := [' ' as byte];
    Tail10(sp, Ascii(series), sp, Ascii(digits), sp, Ascii(FormatDate(date)), sp, Ascii("\"" + text + "\""), sp,
           Ascii(FormatDate(regDate)), x);
    VerSchemaShape();
    VerFields(Schema(Ver), series, n, digits, date, text, regDate, x, rest, vs);
    Cons7(VString(series), VInt(n), VDate(date), VOption(Some(VString(text))), VOption(Some(VDate(regDate))),
          VOption(None), VSubItems(vs));
    RecordFromFields(Ver, VerHead(series, digits, FormatDate(date), text, FormatDate(regDate)) + x, rest,
                     [VString(series), VInt(n), VDate(date), VOption(Some(VString(text))),
                      VOption(Some(VDate(regDate))), VOption(None), VSubItems(vs)]);
  }

  // the VER test as written

  lemma {:induction false} Ascii4(a: string, b: string, c: string, r: string)
    ensures Ascii(a + (b + (c + r))) == Ascii(a) + (Ascii(b) + (Ascii(c) + Ascii(r)))
  {
    AsciiConcat(c, r);
    AsciiConcat(b, c + r);
    AsciiConcat(a, b + (c + r));
  }

  lemma {:induction false} Ascii3R(a: string, b: string, r: string)
    ensures Ascii(a + (b + r)) == Ascii(a) + (Ascii(b) + Ascii(r))
  {
    AsciiConcat(b, r);
    AsciiConcat(a, b + r);
  }

  lemma SingleBytes()
    ensures Ascii(" ") == [' ' as byte] && Ascii("#") == ['#' as byte]
  {
  }

  /** A VER header line, cut where the parsers cut it. */
  lemma {:induction false} VerHeadAscii(series: string, digits: string, date: string, text: string, regDate: string)
    ensures Ascii("#" + ("VER" + (" " + (series + (" " + (digits + (" " + (date + (" " + (("\"" + text + "\"")
              + (" " + regDate)))))))))))
            == ['#' as byte] + (LabelBytes(Ver) + VerHead(series, digits, date, text, regDate))
  {
    var q := "\"" + text + "\"";
    var w := " " + (date + (" " + (q + (" " + regDate))));
    SingleBytes();
    VerLabel();
    VerHeadEnd(date, q, regDate);
    SeriesNumber(series, digits, w);
    Ascii4("#", "VER", " ", series + (" " + (digits + w)));
  }

  lemma VerLabel()
    ensures LabelBytes(Ver) == Ascii("VER")
  {
    assert Label(Ver) == "VER";
  }

  lemma {:induction false} SeriesNumber(series: string, digits: string, w: string)
    ensures Ascii(series + (" " + (digits + w))) == Ascii(series) + ([' ' as byte] + (Ascii(digits) + Ascii(w)))
  {
    SingleBytes();
    Ascii3R(series, " ", digits + w);
    AsciiConcat(digits, w);
  }

  lemma {:induction false} VerHeadEnd(date: string, q: string, regDate: string)
    ensures Ascii(" " + (date + (" " + (q + (" " + regDate)))))
            == [' ' as byte] + (Ascii(date) + ([' ' as byte] + (Ascii(q) + ([' ' as byte] + Ascii(regDate)))))
  {
    SingleBytes();
    Ascii4(" ", date, " ", q + (" " + regDate));
    Ascii3R(q, " ", regDate);
  }

  /** A TRANS line of a VER block, cut where the parsers cut it. */
  lemma {:induction false} TransLineAscii(digits: string, amount: string, date: string, text: string)
    ensures Ascii("\n    " + ("#" + ("TRANS" + (" " + (digits + (" " + ("{}" + (" " + (amount + (" " + (date
              + (" " + ("\"" + text + "\"")))))))))))))
            == TransLine(digits, amount, date, text)
  {
    var tail := " " + (amount + (" " + (date + (" " + ("\"" + text + "\"")))));
    SingleBytes();
    TransTailAscii(amount, date, text);
    Ascii4(" ", digits, " ", "{}" + tail);
    AsciiConcat("{}", tail);
    Ascii4("\n    ", "#", "TRANS", " " + (digits + (" " + ("{}" + tail))));
    assert Label(Trans) == "TRANS";
    var sp := [' ' as byte];
    Tail3(sp, Ascii(digits), sp, Ascii("{}") + TransTail(amount, date, text));
  }

  lemma {:induction false} TransTailAscii(amount: string, date: string, text: string)
    ensures Ascii(" " + (amount + (" " + (date + (" " + ("\"" + text + "\"")))))) == TransTail(amount, date, text)
  {
    var q := "\"" + text + "\"";
    SingleBytes();
    Ascii4(" ", amount, " ", date + (" " + q));
    Ascii3R(date, " ", q);
  }
  /** The header line of the VER test, word by word. */
  lemma VerHeadLiteral()
    ensures ("#VER" + " A" + " 42" + " 20230314" + " \"Pi Day\"" + " 20230314")
            == "#" + ("VER" + (" " + ("A" + (" " + ("42" + (" " + ("20230314" + (" " + (("\"" + "Pi Day" + "\"")
               + (" " + "20230314"))))))))))
  {
    assert "#VER" == "#" + "VER" && " A" == " " + "A" && " 42" == " " + "42" && " 20230314" == " " + "20230314";
    assert " \"Pi Day\"" == " " + ("\"" + "Pi Day" + "\"");
    Words6("#", "VER", " ", "A", " ", "42", " ", "20230314", " ", "\"" + "Pi Day" + "\"", " ", "20230314");
  }

  /** A TRANS line of the VER test, word by word. */
  lemma TransLineLiteral(digits: string, amount: string)
    ensures "\n    #TRANS" + (" " + digits) + " {}" + (" " + amount) + " 20230228" + " \"Pie\""
            == "\n    " + ("#" + ("TRANS" + (" " + (digits + (" " + ("{}" + (" " + (amount + (" " + ("20230228"
               + (" " + ("\"" + "Pie" + "\""))))))))))))
  {
    assert "\n    #TRANS" == "\n    " + ("#" + "TRANS") && " {}" == " " + "{}" && " 20230228" == " " + "20230228";
    assert " \"Pie\"" == " " + ("\"" + "Pie" + "\"");
    Words6("\n    " + ("#" + "TRANS"), "", " ", digits, " ", "{}", " ", amount, " ", "20230228", " ", "\"" + "Pie" + "\"");
    assert "\n    " + ("#" + "TRANS") + "" == "\n    " + ("#" + "TRANS");
  }

  lemma Words6(a: string, b: string, c: string, d: string, e: string, f: string, g: string, h: string,
               i: string, j: string, k: string, l: string)
    ensures (a + b) + (c + d) + (e + f) + (g + h) + (i + j) + (k + l)
            == a + (b + (c + (d + (e + (f + (g + (h + (i + (j + (k + l))))))))))
  {
  }

  lemma VerLineLiterals1()
    ensures ("\n    #TRANS" + " 1930" + " {}" + " -72.00" + " 20230228" + " \"Pie\"")
            == "\n    " + ("#" + ("TRANS" + (" " + ("1930" + (" " + ("{}" + (" " + ("-72.00" + (" " + ("20230228"
               + (" " + ("\"" + "Pie" + "\""))))))))))))
  {
    assert " 1930" == " " + "1930" && " -72.00" == " " + "-72.00";
    TransLineLiteral("1930", "-72.00");
  }

  lemma VerLineLiterals2()
    ensures ("\n    #TRANS" + " 4007" + " {}" + " 72.00" + " 20230228" + " \"Pie\"")
            == "\n    " + ("#" + ("TRANS" + (" " + ("4007" + (" " + ("{}" + (" " + ("72.00" + (" " + ("20230228"
               + (" " + ("\"" + "Pie" + "\""))))))))))))
  {
    assert " 4007" == " " + "4007" && " 72.00" == " " + "72.00";
    TransLineLiteral("4007", "72.00");
  }

  lemma {:induction false} Ascii6(a: string, b: string, c: string, d: string, e: string, f: string)
    ensures Ascii(a + b + c + d + e + f) == Ascii(a) + Ascii(b) + Ascii(c) + Ascii(d) + Ascii(e) + Ascii(f)
  {
    AsciiConcat(a + b + c + d + e, f);
    Ascii5(a, b, c, d, e);
  }

  lemma VerRegroup(hs: seq<byte>, lv: seq<byte>, hv: seq<byte>, nl: seq<byte>, ob: seq<byte>, a: seq<byte>,
                   b: seq<byte>, t: seq<byte>, cb: seq<byte>, r: seq<byte>)
    ensures (hs + (lv + hv)) + (nl + ob) + a + b + (t + cb) + r
            == [] + hs + lv + (hv + (nl + (ob + ((a + (b + t)) + (cb + r)))))
  {
  }

  /** The bytes of the VER test, cut where the parsers cut them. */
  lemma {:induction false} VerInput()
    ensures Ascii(("#VER" + " A" + " 42" + " 20230314" + " \"Pi Day\"" + " 20230314") + "\n{" + ("\n    #TRANS" + " 1930" + " {}" + " -72.00" + " 20230228" + " \"Pie\"")
                  + ("\n    #TRANS" + " 4007" + " {}" + " 72.00" + " 20230228" + " \"Pie\"") + "\n}" + "\n\n# VER A 43")
            == [] + ['#' as byte] + LabelBytes(Ver) + (VerHead("A", "42", "20230314", "Pi Day", "20230314")
               + (['\n' as byte] + (['{' as byte] + ((TransLine("1930", "-72.00", "20230228", "Pie")
               + (TransLine("4007", "72.00", "20230228", "Pie") + Ascii("\n"))) + (['}' as byte] + Ascii("\n\n# VER A 43"))))))
  {
    var h, l1, l2 := ("#VER" + " A" + " 42" + " 20230314" + " \"Pi Day\"" + " 20230314"), ("\n    #TRANS" + " 1930" + " {}" + " -72.00" + " 20230228" + " \"Pie\""),
                     ("\n    #TRANS" + " 4007" + " {}" + " 72.00" + " 20230228" + " \"Pie\"");
    Ascii6(h, "\n{", l1, l2, "\n}", "\n\n# VER A 43");
    VerHeadLiteral();
    VerHeadAscii("A", "42", "20230314", "Pi Day", "20230314");
    VerLineLiterals1();
    VerLineLiterals2();
    TransLineAscii("1930", "-72.00", "20230228", "Pie");
    TransLineAscii("4007", "72.00", "20230228", "Pie");
    assert Ascii("\n{") == ['\n' as byte] + ['{' as byte];
    assert Ascii("\n}") == Ascii("\n") + ['}' as byte];
    VerRegroup(['#' as byte], LabelBytes(Ver), VerHead("A", "42", "20230314", "Pi Day", "20230314"), ['\n' as byte],
               ['{' as byte], TransLine("1930", "-72.00", "20230228", "Pie"), TransLine("4007", "72.00", "20230228", "Pie"),
               Ascii("\n"), ['}' as byte], Ascii("\n\n# VER A 43"));
  }
  /** The record the VER test expects. */
  function VerItem(): Item {
    Item(Ver, [VString("A"), VInt(42), VDate(Date(2023, 3, 14)), VOption(Some(VString("Pi Day"))),
               VOption(Some(VDate(Date(2023, 3, 14)))), VOption(None), VSubItems([PieOut(), PieIn()])])
  }

  /** `Item::parse` of the VER test: series A, number 42, dated and registered 2023-03-14,
      the text "Pi Day", no signature, and the two transactions of its brace block; the
      parse stops after the closing brace.  The test's input is written word by word. */
  lemma VerExample()
    ensures ParseItem(Ascii(("#VER" + " A" + " 42" + " 20230314" + " \"Pi Day\"" + " 20230314") + "\n{"
                            + ("\n    #TRANS" + " 1930" + " {}" + " -72.00" + " 20230228" + " \"Pie\"")
                            + ("\n    #TRANS" + " 4007" + " {}" + " 72.00" + " 20230228" + " \"Pie\"")
                            + "\n}" + "\n\n# VER A 43"))
            == Done(Ascii("\n\n# VER A 43"), VerItem())
  {
    var r := Ascii("\n\n# VER A 43");
    var x := ['\n' as byte] + (['{' as byte] + ((TransLine("1930", "-72.00", "20230228", "Pie")
             + (TransLine("4007", "72.00", "20230228", "Pie") + Ascii("\n"))) + (['}' as byte] + r)));
    VerInput();
    VerTransactions(r);
    VerAt(Ascii(("#VER" + " A" + " 42" + " 20230314" + " \"Pi Day\"" + " 20230314") + "\n{" + ("\n    #TRANS" + " 1930" + " {}" + " -72.00" + " 20230228" + " \"Pie\"")
                + ("\n    #TRANS" + " 4007" + " {}" + " 72.00" + " 20230228" + " \"Pie\"") + "\n}" + "\n\n# VER A 43"), x, r);
  }

  /** The VER test's header in front of its transactions. */
  lemma {:induction false} VerAt(i: seq<byte>, x: seq<byte>, rest: seq<byte>)
    requires i == [] + ['#' as byte] + LabelBytes(Ver) + (VerHead("A", "42", "20230314", "Pi Day", "20230314") + x)
    requires x != [] && x[0] == '\n' as byte && SubRecords(Trans, x) == Done(rest, [PieOut(), PieIn()])
    ensures ParseItem(i) == Done(rest, VerItem())
  {
    VerHeaderFacts();
    VerParse("A", 42, "42", Date(2023, 3, 14), "20230314", "Pi Day", Date(2023, 3, 14), "20230314", x, rest,
             [PieOut(), PieIn()]);
  }

  lemma VerHeaderFacts()
    ensures IsToken("A") && PlainText("Pi Day") && 42 <= U32Max && ShowInt(42) == "42"
    ensures ValidDate(Date(2023, 3, 14)) && Date(2023, 3, 14).year >= 0 && FormatDate(Date(2023, 3, 14)) == "20230314"
  {
    SeriesA();
    PiDayPlain();
    Spell42();
    Spell20230314();
  }

  lemma SeriesA()
    ensures IsToken("A")
  {
    assert "A"[0] == 'A';
  }

  lemma PiDayPlain()
    ensures PlainText("Pi Day")
  {
    var s := "Pi Day";
    assert s[0] == 'P' && s[1] == 'i' && s[2] == ' ' && s[3] == 'D' && s[4] == 'a' && s[5] == 'y';
  }

  /** A VER line whose transactions follow its header after a line break. */
  lemma {:induction false} VerParse(series: string, n: nat, digits: string, date: Date, day: string, text: string,
                                    regDate: Date, regDay: string, x: seq<byte>, rest: seq<byte>, vs: seq<Item>)
    requires IsToken(series) && n <= U32Max && ShowInt(n) == digits
    requires ValidDate(date) && date.year >= 0 && FormatDate(date) == day && PlainText(text)
    requires ValidDate(regDate) && regDate.year >= 0 && FormatDate(regDate) == regDay
    requires x != [] && x[0] == '\n' as byte && SubRecords(Trans, x) == Done(rest, vs)
    ensures ParseItem([] + ['#' as byte] + LabelBytes(Ver) + (VerHead(series, digits, day, text, regDay) + x))
            == Done(rest, Item(Ver, [VString(series), VInt(n), VDate(date), VOption(Some(VString(text))),
                                     VOption(Some(VDate(regDate))), VOption(None), VSubItems(vs)]))
  {
    Dispatch([], Ver, VerHead(series, digits, day, text, regDay) + x);
    VerRecord(series, n, digits, date, text, regDate, x, rest, vs);
  }
}
