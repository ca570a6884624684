/** The records of src/item.rs and `Item::parse`.

    The eighteen record structs are generated by one macro from a list of named, typed
    fields (src/item.rs:185-216, 330-414).  The model keeps that shape: each record kind has
    a schema, the list of its fields in declared order, and one parser reads any schema,
    skipping spaces and tabs before every field.  A parsed record is its kind together with
    one value per field. */
module Records {
  import opened Nom
  import opened Codec
  import opened Lexical
  import opened Fields

  // ---------------------------------------------------------------- groups

  /** The section of a SIE 4 file a record belongs to, in the order the sections come. */
  datatype Group = Flag | Identification | Account | Balance

  /** The position of a group in its declaration, which the derived `Ord` compares. */
  function GroupIndex(g: Group): (n: nat)
    ensures n < 4
  {
    match g
    case Flag => 0
    case Identification => 1
    case Account => 2
    case Balance => 3
  }

  predicate GroupLe(a: Group, b: Group) {
    GroupIndex(a) <= GroupIndex(b)
  }

  /** `<=` on groups is a total order ... */
  lemma GroupTotalOrder(a: Group, b: Group, c: Group)
    ensures GroupLe(a, a)
    ensures GroupLe(a, b) && GroupLe(b, a) ==> a == b
    ensures GroupLe(a, b) && GroupLe(b, c) ==> GroupLe(a, c)
    ensures GroupLe(a, b) || GroupLe(b, a)
  {
  }

  /** ... in which Flag < Identification < Account < Balance. */
  lemma GroupChain()
    ensures GroupLe(Flag, Identification) && !GroupLe(Identification, Flag)
    ensures GroupLe(Identification, Account) && !GroupLe(Account, Identification)
    ensures GroupLe(Account, Balance) && !GroupLe(Balance, Account)
    ensures forall g :: GroupLe(Flag, g) && GroupLe(g, Balance)
  {
  }

  // ---------------------------------------------------------------- record kinds

  /** The record structs, in the order they are declared and tried. */
  datatype Kind =
    | Adress | BKod | Flagga | FNamn | Format | Gen | Ib | Konto | KpTyp
    | Orgnr | Program | Rar | Res | SieTyp | Trans | Ub | Valuta | Ver

  const Kinds: seq<Kind> :=
    [Adress, BKod, Flagga, FNamn, Format, Gen, Ib, Konto, KpTyp,
     Orgnr, Program, Rar, Res, SieTyp, Trans, Ub, Valuta, Ver]

  /** The position of a kind in `Kinds`. */
  function KindIndex(k: Kind): (n: nat)
    ensures n < |Kinds| && Kinds[n] == k
  {
    match k
    case Adress => 0 case BKod => 1 case Flagga => 2 case FNamn => 3 case Format => 4
    case Gen => 5 case Ib => 6 case Konto => 7 case KpTyp => 8 case Orgnr => 9
    case Program => 10 case Rar => 11 case Res => 12 case SieTyp => 13 case Trans => 14
    case Ub => 15 case Valuta => 16 case Ver => 17
  }

  /** The name of the struct. */
  function StructName(k: Kind): string {
    match k
    case Adress => "Adress" case BKod => "BKod" case Flagga => "Flagga"
    case FNamn => "FNamn" case Format => "Format" case Gen => "Gen" case Ib => "Ib"
    case Konto => "Konto" case KpTyp => "KpTyp" case Orgnr => "Orgnr"
    case Program => "Program" case Rar => "Rar" case Res => "Res" case SieTyp => "SieTyp"
    case Trans => "Trans" case Ub => "Ub" case Valuta => "Valuta" case Ver => "Ver"
  }

  function UpperChar(c: char): char {
    if 'a' <= c <= 'z' then (c as int - 32) as char else c
  }

  function Upper(s: string): (u: string)
    ensures |u| == |s|
    ensures forall j :: 0 <= j < |s| ==> u[j] == UpperChar(s[j])
  {
    seq(|s|, j requires 0 <= j < |s| => UpperChar(s[j]))
  }

  /** `LABEL`: the struct name in upper case, the tag written after `#`. */
  function Label(k: Kind): (l: string)
    ensures |l| >= 2
    ensures forall j :: 0 <= j < |l| ==> 'A' <= l[j] <= 'Z'
  {
    Upper(StructName(k))
  }

  function LabelBytes(k: Kind): seq<byte> {
    Ascii(Label(k))
  }

  /** `GROUP` of each struct. */
  function GroupOf(k: Kind): (g: Group)
    ensures g == Flag <==> k == Flagga
    ensures g == Account <==> k == Konto
    ensures g == Balance <==> k in {Ib, Res, Trans, Ub, Ver}
  {
    match k
    case Flagga => Flag
    case Konto => Account
    case Ib => Balance case Res => Balance case Trans => Balance case Ub => Balance case Ver => Balance
    case _ => Identification
  }

  // ---------------------------------------------------------------- schemas

  /** The field types a record may declare. */
  datatype FieldType =
    | TyString | TyBool | TyI32 | TyU32 | TyDate | TyCurrency | TyAmount
    | TyFormat | TyTypeNo | TyChart
    | TyOption(inner: FieldType)
    | TyList(element: FieldType)
    | TySubItems(kind: Kind)

  datatype Field = Field(name: string, ty: FieldType)

  /** The fields of each struct, in declared order (src/item.rs:330-414). */
  function Schema(k: Kind): (fs: seq<Field>)
    ensures fs != []
    ensures forall a, b :: 0 <= a < b < |fs| ==> fs[a].name != fs[b].name
    ensures forall j :: 0 <= j < |fs| && fs[j].ty.TySubItems? ==> k == Ver && j == |fs| - 1 && fs[j].ty.kind == Trans
  {
    match k
    case Adress => [Field("contact", TyString), Field("distribution_address", TyString),
                    Field("postal_address", TyString), Field("phone", TyString)]
    case BKod => [Field("sni", TyString)]
    case Flagga => [Field("read", TyBool)]
    case FNamn => [Field("name", TyString)]
    case Format => [Field("format", TyFormat)]
    case Gen => [Field("date", TyDate), Field("signature", TyOption(TyString))]
    case Ib => BalanceFields()
    case Konto => [Field("no", TyU32), Field("name", TyString)]
    case KpTyp => [Field("typ", TyChart)]
    case Orgnr => [Field("org_no", TyString)]
    case Program => [Field("name", TyString), Field("version", TyString)]
    case Rar => [Field("no", TyI32), Field("start", TyDate), Field("end", TyDate)]
    case Res => BalanceFields()
    case SieTyp => [Field("no", TyTypeNo)]
    case Trans => [Field("account", TyU32), Field("objects", TyList(TyString)),
                   Field("amount", TyAmount), Field("date", TyOption(TyDate)),
                   Field("text", TyOption(TyString)), Field("quantity", TyOption(TyString)),
                   Field("signature", TyOption(TyString))]
    case Ub => BalanceFields()
    case Valuta => [Field("currency", TyCurrency)]
    case Ver => [Field("series", TyString), Field("no", TyU32), Field("date", TyDate),
                 Field("text", TyOption(TyString)), Field("reg_date", TyOption(TyDate)),
                 Field("sign", TyOption(TyString)), Field("transactions", TySubItems(Trans))]
  }

  /** The fields `Ib`, `Res` and `Ub` share. */
  function BalanceFields(): seq<Field> {
    [Field("year", TyI32), Field("account", TyU32), Field("balance", TyAmount),
     Field("quantity", TyOption(TyString))]
  }

  // ---------------------------------------------------------------- values

  datatype Value =
    | VString(s: string)
    | VBool(b: bool)
    | VInt(n: int)
    | VDate(date: Date)
    | VCurrency(currency: Currency)
    | VAmount(amount: Decimal)
    | VFormat(format: FormatType)
    | VTypeNo(typeNo: TypeNo)
    | VChart(chart: ChartAccountsType)
    | VOption(opt: Option<Value>)
    | VList(items: seq<Value>)
    | VSubItems(records: seq<Item>)

  /** A parsed record: its kind and the value of each field, in declared order. */
  datatype Item = Item(kind: Kind, fields: seq<Value>)

  /** `Item::group`: the group declared for the record's struct. */
  function ItemGroup(it: Item): (g: Group)
    ensures g == Flag <==> it.kind == Flagga
    ensures g == Account <==> it.kind == Konto
    ensures g == Balance <==> it.kind in {Ib, Res, Trans, Ub, Ver}
  {
    GroupOf(it.kind)
  }

  // ---------------------------------------------------------------- nesting depth

  /* `SubItems<T>` makes one record kind contain another.  These heights bound that
     nesting, so that the parser below provably terminates. */

  function KindHeight(k: Kind): nat {
    if k == Ver then 1 else 0
  }

  function Height(t: FieldType): nat {
    match t
    case TyOption(u) => Height(u)
    case TyList(u) => Height(u)
    case TySubItems(k) => KindHeight(k) + 1
    case _ => 0
  }

  function FieldsHeight(fs: seq<Field>): (h: nat)
    ensures forall j :: 0 <= j < |fs| ==> Height(fs[j].ty) <= h
  {
    if fs == [] then 0
    else
      var h := FieldsHeight(fs[1..]);
      assert forall j :: 1 <= j < |fs| ==> fs[j] == fs[1..][j - 1];
      if Height(fs[0].ty) > h then Height(fs[0].ty) else h
  }

  /** A bound on every field's height bounds the schema's. */
  lemma {:induction false} FieldsHeightBound(fs: seq<Field>, b: nat)
    requires forall j :: 0 <= j < |fs| ==> Height(fs[j].ty) <= b
    ensures FieldsHeight(fs) <= b
  {
    if fs != [] {
      assert forall j :: 1 <= j < |fs| ==> fs[1..][j - 1] == fs[j];
      FieldsHeightBound(fs[1..], b);
    }
  }

  /** Only `Ver` holds records of another kind, and those (`Trans`) hold none. */
  lemma SchemaHeight(k: Kind)
    ensures FieldsHeight(Schema(k)) <= KindHeight(k)
  {
    if k == Ver {
      FieldsHeightBound(Schema(Ver), 1);
    } else {
      FlatSchema(k);
    }
  }

  lemma FlatSchema(k: Kind)
    requires k != Ver
    ensures FieldsHeight(Schema(k)) == 0
  {
    FieldsHeightBound(Schema(k), 0);
  }

  // ---------------------------------------------------------------- parsers

  /** `parse_field` of a field type without parts. */
  function ScalarValue(t: FieldType, i: seq<byte>): (r: Res<byte, Value>)
    requires !t.TyOption? && !t.TyList? && !t.TySubItems?
    ensures Consumes(r, i)
  {
    match t
    case TyString => var v :- StringField(i); Done(v.rest, VString(v.value))
    case TyBool => var v :- BoolField(i); Done(v.rest, VBool(v.value))
    case TyI32 => var v :- I32Field(i); Done(v.rest, VInt(v.value))
    case TyU32 => var v :- U32Field(i); Done(v.rest, VInt(v.value))
    case TyDate => var v :- DateField(i); Done(v.rest, VDate(v.value))
    case TyCurrency => var v :- CurrencyField(i); Done(v.rest, VCurrency(v.value))
    case TyAmount => var v :- DecimalField(i); Done(v.rest, VAmount(v.value))
    case TyFormat => var v :- FormatTypeField(i); Done(v.rest, VFormat(v.value))
    case TyTypeNo => var v :- TypeNoField(i); Done(v.rest, VTypeNo(v.value))
    case TyChart => var v :- ChartAccountsTypeField(i); Done(v.rest, VChart(v.value))
  }

  /** `parse_field` of a field type. */
  function ParseValue(t: FieldType, i: seq<byte>): (r: Res<byte, Value>)
    ensures Consumes(r, i)
    ensures t.TySubItems? ==> r == SubItemsField(t.kind, i)
    decreases Height(t), 0, t, 2
  {
    match t
    case TyOption(u) =>
      assert Consumes(ParseValue(u, i), i);
      var v :- Opt(s => ParseValue(u, s), i);
      Done(v.rest, VOption(v.value))
    case TyList(u) =>
      var v :- ListField(s => ParseValue(u, s), i);
      Done(v.rest, VList(v.value))
    case TySubItems(k) => SubItemsField(k, i)
    case _ => ScalarValue(t, i)
  }

  /** The field that holds the records of kind `k`: what `SubRecords` reads, as a value. */
  function SubItemsField(k: Kind, i: seq<byte>): (r: Res<byte, Value>)
    ensures Consumes(r, i)
    ensures r.Done? <==> SubRecords(k, i).Done?
    ensures r.Done? ==> r == Done(SubRecords(k, i).rest, VSubItems(SubRecords(k, i).value))
    decreases KindHeight(k) + 1, 0, TySubItems(k), 1
  {
    var v :- SubRecords(k, i);
    Done(v.rest, VSubItems(v.value))
  }

  /** The records a sub-items field reads are its value. */
  lemma SubItemsValue(k: Kind, x: seq<byte>, rest: seq<byte>, vs: seq<Item>)
    requires SubRecords(k, x) == Done(rest, vs)
    ensures ParseValue(TySubItems(k), x) == Done(rest, VSubItems(vs))
  {
    assert SubItemsField(k, x) == Done(rest, VSubItems(vs));
  }

  /** `SubItems<T>::parse_field` for the records of kind `k`. */
  function SubRecords(k: Kind, i: seq<byte>): (r: Res<byte, seq<Item>>)
    ensures Consumes(r, i)
    decreases KindHeight(k) + 1, 0, TySubItems(k), 0
  {
    SubItems(LabelBytes(k), s => ParseRecord(k, s), i)
  }

  /** The body the record macro generates: for each field in order, skip spaces and tabs,
      then parse the field from what is left. */
  function ParseFields(fs: seq<Field>, i: seq<byte>): (r: Res<byte, seq<Value>>)
    ensures Consumes(r, i)
    ensures r.Done? ==> |r.value| == |fs|
    decreases FieldsHeight(fs), |fs|
  {
    if fs == [] then Done(i, [])
    else
      var v :- SpacedValue(fs[0].ty, i);
      var vs :- ParseFields(fs[1..], v.rest);
      Done(vs.rest, [v.value] + vs.value)
  }

  /** One field of a record body: the spaces and tabs before it, then its value. */
  function SpacedValue(t: FieldType, i: seq<byte>): (r: Res<byte, Value>)
    ensures Consumes(r, i)
    decreases Height(t), 0, t, 3
  {
    var w :- TakeWhile(IsWhitespace, i);
    ParseValue(t, w.rest)
  }

  /** `parse_item` of a record struct: the fields of its schema. */
  function ParseRecord(k: Kind, i: seq<byte>): (r: Res<byte, Item>)
    ensures Consumes(r, i)
    ensures r.Done? ==> r.value.kind == k && |r.value.fields| == |Schema(k)|
    decreases KindHeight(k), |Schema(k)| + 1
  {
    SchemaHeight(k);
    var vs :- ParseFields(Schema(k), i);
    Done(vs.rest, Item(k, vs.value))
  }

  /** One alternative of `Item::parse`: the label, then the record's body. */
  function Alternative(k: Kind, i: seq<byte>): (r: Res<byte, Item>)
    ensures Consumes(r, i)
    ensures r.Done? ==> r.value.kind == k && |r.value.fields| == |Schema(k)|
  {
    var l :- Tag(LabelBytes(k), i);
    ParseRecord(k, l.rest)
  }

  /** The alternatives of `Item::parse`, one per kind in declared order. */
  function Alternatives(): (ps: seq<Parser<byte, Item>>)
    ensures |ps| == |Kinds|
    ensures forall j :: 0 <= j < |Kinds| ==> ps[j] == (s => Alternative(Kinds[j], s))
  {
    seq(|Kinds|, j requires 0 <= j < |Kinds| => s => Alternative(Kinds[j], s))
  }

  /** `Item::parse`: blanks and line breaks, `#`, then the first label that matches. */
  function ParseItem(i: seq<byte>): (r: Res<byte, Item>)
    ensures Consumes(r, i)
    ensures r.Done? ==> |r.value.fields| == |Schema(r.value.kind)|
  {
    var w :- TakeWhile<byte>(IsBlank, i);
    var h :- Tag(['#' as int], w.rest);
    AltRecord(h.rest);
    Alt(Alternatives(), h.rest)
  }

  /** Whichever alternative answers, a record it returns has its kind's fields. */
  lemma AltRecord(t: seq<byte>)
    ensures Consumes(Alt(Alternatives(), t), t)
    ensures Alt(Alternatives(), t).Done? ==>
              |Alt(Alternatives(), t).value.fields| == |Schema(Alt(Alternatives(), t).value.kind)|
  {
    var ps := Alternatives();
    if !Alt(ps, t).Error? {
      var j :| 0 <= j < |ps| && Alt(ps, t) == ps[j](t);
      assert ps[j](t) == Alternative(Kinds[j], t);
    }
  }

  /** The outcome of the remaining fields, with the value of the first put in front. */
  function Prepend(v: Value, r: Res<byte, seq<Value>>): (p: Res<byte, seq<Value>>)
    ensures p.Done? <==> r.Done?
    ensures p.Done? ==> p.rest == r.rest && p.value == [v] + r.value
    ensures !r.Done? ==> p == r
  {
    match r
    case Done(rest, vs) => Done(rest, [v] + vs)
    case _ => r
  }

  /** One step of the generated body: spaces and tabs, the first field's value, and then
      the remaining fields from where that value ends. */
  lemma FieldsStep(fs: seq<Field>, sep: seq<byte>, x: seq<byte>, rest: seq<byte>, v: Value)
    requires fs != []
    requires forall k :: 0 <= k < |sep| ==> IsWhitespace(sep[k])
    requires x != [] && !IsWhitespace(x[0])
    requires ParseValue(fs[0].ty, x) == Done(rest, v)
    ensures ParseFields(fs, sep + x) == Prepend(v, ParseFields(fs[1..], rest))
  {
    TakeWhileSplit<byte>(IsWhitespace, sep, x);
  }

  /** A record is its kind with the values its schema's fields produce. */
  lemma RecordFromFields(k: Kind, i: seq<byte>, rest: seq<byte>, vs: seq<Value>)
    requires ParseFields(Schema(k), i) == Done(rest, vs)
    ensures ParseRecord(k, i) == Done(rest, Item(k, vs))
  {
  }

  /** The remaining fields, when there are none, take nothing. */
  lemma NoMoreFields(fs: seq<Field>, i: seq<byte>)
    requires fs == []
    ensures ParseFields(fs, i) == Done(i, [])
  {
  }

  /** `FieldsStep` when the remaining fields succeed. */
  lemma FieldsCons(fs: seq<Field>, sep: seq<byte>, x: seq<byte>, rest: seq<byte>, v: Value,
                   rest': seq<byte>, vs: seq<Value>)
    requires fs != []
    requires forall k :: 0 <= k < |sep| ==> IsWhitespace(sep[k])
    requires x != [] && !IsWhitespace(x[0])
    requires ParseValue(fs[0].ty, x) == Done(rest, v)
    requires ParseFields(fs[1..], rest) == Done(rest', vs)
    ensures ParseFields(fs, sep + x) == Done(rest', [v] + vs)
  {
    FieldsStep(fs, sep, x, rest, v);
  }

  /** Input that ends in the spaces before a field asks for more. */
  lemma FieldsAtEnd(fs: seq<Field>, sep: seq<byte>)
    requires fs != []
    requires forall k :: 0 <= k < |sep| ==> IsWhitespace(sep[k])
    ensures ParseFields(fs, sep).Incomplete?
  {
  }

  /** An optional field is absent, and takes nothing, where its inner parser gives a
      recoverable Error. */
  lemma OptionAbsent(u: FieldType, i: seq<byte>)
    requires ParseValue(u, i).Error?
    ensures ParseValue(TyOption(u), i) == Done(i, VOption(None))
  {
    OptSemantics(s => ParseValue(u, s), i);
  }

  /** An optional field is present where its inner parser succeeds. */
  lemma OptionPresent(u: FieldType, i: seq<byte>)
    requires ParseValue(u, i).Done?
    ensures ParseValue(TyOption(u), i) == Done(ParseValue(u, i).rest, VOption(Some(ParseValue(u, i).value)))
  {
    OptSemantics(s => ParseValue(u, s), i);
  }

  /** `{}` is the empty list of any element type whose parser does not fail hard on no input. */
  lemma ListEmpty(u: FieldType, rest: seq<byte>)
    requires ParseValue(u, []).Error? || ParseValue(u, []).Incomplete?
    ensures ParseValue(TyList(u), Ascii("{}") + rest) == Done(rest, VList([]))
  {
    EmptyElementList(u, rest);
  }

  lemma EmptyElementList(u: FieldType, rest: seq<byte>)
    requires ParseValue(u, []).Error? || ParseValue(u, []).Incomplete?
    ensures ListField(s => ParseValue(u, s), Ascii("{}") + rest) == Done(rest, [])
  {
    var e := s => ParseValue(u, s);
    assert e([]) == ParseValue(u, []);
    EmptyList(e, rest);
  }

  // ---------------------------------------------------------------- what a record holds

  /** The values a field of type `t` can hold: integers within the type's range, valid
      dates, ISO 4217 codes, and for the containers values of the element type. */
  predicate HasType(t: FieldType, v: Value)
    decreases Height(t), 0, t, 0
  {
    match t
    case TyString => v.VString?
    case TyBool => v.VBool?
    case TyI32 => v.VInt? && I32Min <= v.n <= I32Max
    case TyU32 => v.VInt? && 0 <= v.n <= U32Max
    case TyDate => v.VDate? && ValidDate(v.date)
    case TyCurrency => v.VCurrency? && IsCurrencyCode(v.currency.code)
    case TyAmount => v.VAmount?
    case TyFormat => v.VFormat?
    case TyTypeNo => v.VTypeNo?
    case TyChart => v.VChart?
    case TyOption(u) => v.VOption? && (v.opt.Some? ==> HasType(u, v.opt.value))
    case TyList(u) => v.VList? && forall j :: 0 <= j < |v.items| ==> HasType(u, v.items[j])
    case TySubItems(k) => v.VSubItems? && forall j :: 0 <= j < |v.records| ==> IsRecord(k, v.records[j])
  }

  /** A record of kind `k`: one value of the declared type per field. */
  predicate IsRecord(k: Kind, it: Item)
    decreases KindHeight(k), |Schema(k)| + 1
  {
    SchemaHeight(k);
    it.kind == k && FieldsHaveTypes(Schema(k), it.fields)
  }

  predicate FieldsHaveTypes(fs: seq<Field>, vs: seq<Value>)
    decreases FieldsHeight(fs), |fs|
  {
    |vs| == |fs| && forall j :: 0 <= j < |fs| ==> HasType(fs[j].ty, vs[j])
  }

  /** Every value `parse_field` produces has its field's type. */
  lemma ValueTyped(t: FieldType, i: seq<byte>)
    ensures ParseValue(t, i).Done? ==> HasType(t, ParseValue(t, i).value)
    decreases Height(t), 0, t, 0
  {
    match t
    case TyOption(u) =>
      ValueTyped(u, i);
      OptSemantics(s => ParseValue(u, s), i);
    case TyList(u) =>
      forall j | ParseValue(u, j).Done? ensures HasType(u, ParseValue(u, j).value) {
        ValueTyped(u, j);
      }
      ListAll(s => ParseValue(u, s), i, x => HasType(u, x));
    case TySubItems(k) =>
      forall j | ParseRecord(k, j).Done? ensures IsRecord(k, ParseRecord(k, j).value) {
        RecordTyped(k, j);
      }
      SubItemsAll(LabelBytes(k), s => ParseRecord(k, s), i, it => IsRecord(k, it));
    case _ =>
  }

  lemma SpacedTyped(t: FieldType, i: seq<byte>)
    ensures SpacedValue(t, i).Done? ==> HasType(t, SpacedValue(t, i).value)
    decreases Height(t), 0, t, 1
  {
    var w := TakeWhile(IsWhitespace, i);
    if w.Done? {
      ValueTyped(t, w.rest);
    }
  }

  /** The generated body yields one value of the declared type per field. */
  lemma FieldsTyped(fs: seq<Field>, i: seq<byte>)
    ensures ParseFields(fs, i).Done? ==> FieldsHaveTypes(fs, ParseFields(fs, i).value)
    decreases FieldsHeight(fs), |fs|
  {
    if fs != [] {
      var v := SpacedValue(fs[0].ty, i);
      if v.Done? {
        var r := ParseFields(fs[1..], v.rest);
        SpacedTyped(fs[0].ty, i);
        FieldsTyped(fs[1..], v.rest);
        if r.Done? {
          assert ParseFields(fs, i) == Done(r.rest, [v.value] + r.value);
          TypesCons(fs, v.value, r.value);
        }
      }
    }
  }

  lemma TypesCons(fs: seq<Field>, v: Value, vs: seq<Value>)
    requires fs != [] && HasType(fs[0].ty, v) && FieldsHaveTypes(fs[1..], vs)
    ensures FieldsHaveTypes(fs, [v] + vs)
  {
    assert forall j :: 1 <= j < |fs| ==> fs[j] == fs[1..][j - 1] && ([v] + vs)[j] == vs[j - 1];
  }

  /** Every record the parser produces is a well-typed record of its kind. */
  lemma RecordTyped(k: Kind, i: seq<byte>)
    ensures ParseRecord(k, i).Done? ==> IsRecord(k, ParseRecord(k, i).value)
    decreases KindHeight(k), |Schema(k)| + 1
  {
    SchemaHeight(k);
    FieldsTyped(Schema(k), i);
  }

  // ---------------------------------------------------------------- choosing the record

  /** The kind whose label starts with the letters `a`, `b`: no two labels share them. */
  function KindOfInitials(a: char, b: char): Option<Kind> {
    if a == 'A' && b == 'D' then Some(Adress)
    else if a == 'B' && b == 'K' then Some(BKod)
    else if a == 'F' && b == 'L' then Some(Flagga)
    else if a == 'F' && b == 'N' then Some(FNamn)
    else if a == 'F' && b == 'O' then Some(Format)
    else if a == 'G' && b == 'E' then Some(Gen)
    else if a == 'I' && b == 'B' then Some(Ib)
    else if a == 'K' && b == 'O' then Some(Konto)
    else if a == 'K' && b == 'P' then Some(KpTyp)
    else if a == 'O' && b == 'R' then Some(Orgnr)
    else if a == 'P' && b == 'R' then Some(Program)
    else if a == 'R' && b == 'A' then Some(Rar)
    else if a == 'R' && b == 'E' then Some(Res)
    else if a == 'S' && b == 'I' then Some(SieTyp)
    else if a == 'T' && b == 'R' then Some(Trans)
    else if a == 'U' && b == 'B' then Some(Ub)
    else if a == 'V' && b == 'A' then Some(Valuta)
    else if a == 'V' && b == 'E' then Some(Ver)
    else None
  }

  lemma InitialsDecide(k: Kind)
    ensures KindOfInitials(Label(k)[0], Label(k)[1]) == Some(k)
  {
  }

  /** Two different labels already differ in one of their first two letters, so neither
      is a prefix of the other. */
  lemma LabelsApart(k: Kind, k': Kind)
    requires k != k'
    ensures LabelBytes(k)[0] != LabelBytes(k')[0] || LabelBytes(k)[1] != LabelBytes(k')[1]
  {
    InitialsDecide(k);
    InitialsDecide(k');
  }

  /** Each kind occurs once in `Kinds`. */
  lemma KindsOnce(j: nat)
    requires j < |Kinds|
    ensures KindIndex(Kinds[j]) == j
  {
  }

  /** The alternative of one kind rejects, recoverably, the label of another. */
  lemma OtherLabelFails(k: Kind, k': Kind, b: seq<byte>)
    requires k != k'
    ensures Alternative(k', LabelBytes(k) + b).Error?
  {
    var i, t := LabelBytes(k) + b, LabelBytes(k');
    LabelsApart(k, k');
    assert i[0] == LabelBytes(k)[0] && i[1] == LabelBytes(k)[1];
  }

  /** What the alternatives of `Item::parse` promise between them: one per kind, each
      producing only records of its kind and failing recoverably on the label of any
      other kind. */
  lemma AlternativeKinds()
    ensures |Alternatives()| == |Kinds|
    ensures forall j, s :: 0 <= j < |Alternatives()| && Alternatives()[j](s).Done?
              ==> Alternatives()[j](s).value.kind == Kinds[j]
    ensures forall j, k, b :: 0 <= j < |Alternatives()| && Kinds[j] != k
              ==> Alternatives()[j](LabelBytes(k) + b).Error?
  {
    var ps := Alternatives();
    forall j, k, b | 0 <= j < |ps| && Kinds[j] != k ensures ps[j](LabelBytes(k) + b).Error? {
      OtherLabelFails(k, Kinds[j], b);
    }
  }

  /** The alternative of a kind reads its own label and then the record body. */
  lemma OwnLabel(k: Kind, b: seq<byte>)
    ensures Alternative(k, LabelBytes(k) + b) == ParseRecord(k, b)
  {
    var i := LabelBytes(k) + b;
    assert LabelBytes(k) <= i;
    assert i[|LabelBytes(k)|..] == b;
  }

  /** `Item::parse` skips the blanks and line breaks before `#` and then tries the
      alternatives on what follows it. */
  lemma SkipToAlternatives(blanks: seq<byte>, tail: seq<byte>)
    requires forall j :: 0 <= j < |blanks| ==> IsBlank(blanks[j])
    ensures ParseItem(blanks + ['#' as int] + tail) == Alt(Alternatives(), tail)
  {
    var hashed := ['#' as int] + tail;
    assert blanks + ['#' as int] + tail == blanks + hashed;
    TakeWhileSplit<byte>(IsBlank, blanks, hashed);
    assert hashed[1..] == tail;
  }

  /** Of all the alternatives, only the one whose label comes first can succeed. */
  lemma LabelSelects(k: Kind, b: seq<byte>)
    ensures Alt(Alternatives(), LabelBytes(k) + b) == ParseRecord(k, b)
  {
    var ps, tail := Alternatives(), LabelBytes(k) + b;
    forall j | 0 <= j < |ps| && j != KindIndex(k) ensures ps[j](tail).Error? {
      KindsOnce(j);
      OtherLabelFails(k, Kinds[j], b);
    }
    AltSelect(ps, tail, KindIndex(k));
    OwnLabel(k, b);
  }

  /** `Item::parse` of blanks, `#`, a label and then `b` is the record parser of that
      label's kind applied to `b`. */
  lemma Dispatch(blanks: seq<byte>, k: Kind, b: seq<byte>)
    requires forall j :: 0 <= j < |blanks| ==> IsBlank(blanks[j])
    ensures ParseItem(blanks + ['#' as int] + LabelBytes(k) + b) == ParseRecord(k, b)
  {
    assert blanks + ['#' as int] + LabelBytes(k) + b == blanks + ['#' as int] + (LabelBytes(k) + b);
    SkipToAlternatives(blanks, LabelBytes(k) + b);
    LabelSelects(k, b);
  }

  /** Every record `Item::parse` produces is well typed for its kind. */
  lemma ParseItemTyped(i: seq<byte>)
    ensures ParseItem(i).Done? ==> IsRecord(ParseItem(i).value.kind, ParseItem(i).value)
  {
    if ParseItem(i).Done? {
      var blanks, b := ParseItemShape(i);
      RecordTyped(ParseItem(i).value.kind, b);
    }
  }

  /** What `Item::parse` accepts starts with blanks and `#`; the alternatives read the rest. */
  lemma HashAfterBlanks(i: seq<byte>) returns (blanks: seq<byte>, tail: seq<byte>)
    requires ParseItem(i).Done?
    ensures forall j :: 0 <= j < |blanks| ==> IsBlank(blanks[j])
    ensures i == blanks + ['#' as int] + tail
    ensures ParseItem(i) == Alt(Alternatives(), tail)
  {
    var w := TakeWhile<byte>(IsBlank, i);
    TakeWhileThenTag<byte>(IsBlank, ['#' as int], i);
    blanks, tail := w.value, Tag(['#' as int], w.rest).rest;
  }

  /** What an alternative accepts is its label followed by a record body. */
  lemma LabelThenBody(k: Kind, i: seq<byte>) returns (b: seq<byte>)
    requires Alternative(k, i).Done?
    ensures i == LabelBytes(k) + b
    ensures Alternative(k, i) == ParseRecord(k, b)
  {
    var t := LabelBytes(k);
    b := Tag(t, i).rest;
    TagSplit(t, i);
  }

  lemma Regroup(a: seq<byte>, x: seq<byte>, y: seq<byte>, z: seq<byte>)
    ensures a + x + (y + z) == a + x + y + z
  {
  }

  /** Conversely, whatever `Item::parse` accepts is blanks, `#`, the label of the record's
      kind, and a body the record parser accepts. */
  lemma ParseItemShape(i: seq<byte>) returns (blanks: seq<byte>, b: seq<byte>)
    requires ParseItem(i).Done?
    ensures forall j :: 0 <= j < |blanks| ==> IsBlank(blanks[j])
    ensures i == blanks + ['#' as int] + LabelBytes(ParseItem(i).value.kind) + b
    ensures ParseItem(i) == ParseRecord(ParseItem(i).value.kind, b)
  {
    var tail;
    blanks, tail := HashAfterBlanks(i);
    var ps := Alternatives();
    var j :| 0 <= j < |ps| && Alt(ps, tail) == ps[j](tail);
    b := LabelThenBody(Kinds[j], tail);
    Regroup(blanks, ['#' as int], LabelBytes(Kinds[j]), b);
  }

  /** A record takes at least its `#` and label, so the reader always makes progress. */
  lemma ParseItemProgress(i: seq<byte>)
    ensures ParseItem(i).Done? ==> |ParseItem(i).rest| < |i|
  {
    if ParseItem(i).Done? {
      var blanks, b := ParseItemShape(i);
    }
  }

  /** Input of nothing but blanks and line breaks asks for more. */
  lemma BlanksIncomplete(i: seq<byte>)
    requires forall j :: 0 <= j < |i| ==> IsBlank(i[j])
    ensures ParseItem(i).Incomplete?
  {
  }

  /** The first byte after the blanks must be `#`; anything else is a recoverable error. */
  lemma NoHashError(blanks: seq<byte>, c: byte, rest: seq<byte>)
    requires forall j :: 0 <= j < |blanks| ==> IsBlank(blanks[j])
    requires !IsBlank(c) && c != '#' as int
    ensures ParseItem(blanks + [c] + rest).Error?
  {
    assert blanks + [c] + rest == blanks + ([c] + rest);
    TakeWhileSplit<byte>(IsBlank, blanks, [c] + rest);
  }

  /** After `#`, two letters that begin no label make every alternative fail: the set of
      record kinds is closed. */
  lemma UnknownLabel(blanks: seq<byte>, tail: seq<byte>)
    requires forall j :: 0 <= j < |blanks| ==> IsBlank(blanks[j])
    requires |tail| >= 2 && tail[0] < 128 && tail[1] < 128
    requires KindOfInitials(tail[0] as char, tail[1] as char).None?
    ensures ParseItem(blanks + ['#' as int] + tail).Error?
  {
    SkipToAlternatives(blanks, tail);
    var ps := Alternatives();
    forall j | 0 <= j < |ps| ensures ps[j](tail).Error? {
      UnknownInitials(Kinds[j], tail);
    }
  }

  /** No label begins with two letters that begin no label. */
  lemma UnknownInitials(k: Kind, tail: seq<byte>)
    requires |tail| >= 2 && tail[0] < 128 && tail[1] < 128
    requires KindOfInitials(tail[0] as char, tail[1] as char).None?
    ensures Alternative(k, tail).Error?
  {
    var t := LabelBytes(k);
    InitialsDecide(k);
    assert t[0] == Label(k)[0] as int && t[1] == Label(k)[1] as int;
    assert t[0] != tail[0] || t[1] != tail[1];
  }
}
