/** The tag-and-fields tokenizer of src/parsers.rs, an earlier revision that works on text
    (`&str`) rather than on bytes: a record is `#TAG` followed by fields separated by runs
    of spaces, tabs and line breaks; a field is a brace region, a quoted run or a bare run. */
module Tokenizer {
  import opened Nom
  import opened Unbalanced

  /** A field of a tokenized record.  `Field` and its `FromStr` are not in this revision of
      the repository; the model assumes the conversion accepts every token and wraps it
      unchanged, as the test at src/parsers.rs:141-146 expects. */
  datatype Field = Text(text: string)

  /** A tokenized record: its tag and its fields in input order. */
  datatype Entry = Entry(tag: string, fields: seq<Field>)

  /** Rust's `char::is_whitespace`: the characters with the Unicode White_Space property. */
  predicate IsUnicodeWhitespace(c: char) {
    ('\t' <= c <= '\r') || c == ' ' || c == '\U{85}' || c == '\U{A0}' || c == '\U{1680}'
    || ('\U{2000}' <= c <= '\U{200A}') || c == '\U{2028}' || c == '\U{2029}' || c == '\U{202F}'
    || c == '\U{205F}' || c == '\U{3000}'
  }

  predicate IsWhitespace(c: char) {
    c == ' ' || c == '\t'
  }

  predicate IsNewline(c: char) {
    c == '\n' || c == '\r'
  }

  predicate IsFieldSep(c: char) {
    IsWhitespace(c) || IsNewline(c)
  }

  predicate NotFieldSep(c: char) {
    !IsFieldSep(c)
  }

  /** The separators are the four characters space, tab, line feed and carriage return;
      none is both a blank and a line break, each is Unicode whitespace (so a label ends
      at one), and none can start a quoted or brace field or a label. */
  lemma SeparatorClasses(c: char)
    ensures IsFieldSep(c) <==> c == ' ' || c == '\t' || c == '\n' || c == '\r'
    ensures !(IsWhitespace(c) && IsNewline(c))
    ensures IsFieldSep(c) ==> IsUnicodeWhitespace(c)
    ensures IsFieldSep(c) ==> c != '#' && c != '"' && c != '{'
  {
  }

  /** The brackets of a brace field. */
  const Braces: Brackets<char> := Brackets('{', '}', '\\')

  /** `label`: a `#` (more input is needed when there is none yet), then everything up to
      the first whitespace character; the tag may be empty. */
  function Label(i: string): (r: Res<char, string>)
    ensures Consumes(r, i)
    ensures r.Done? || r.Incomplete? || r.Error?
    ensures r.Incomplete? <==> i == []
    ensures r.Error? <==> i != [] && i[0] != '#'
    ensures r.Done? ==> i == ['#'] + r.value + r.rest
    ensures r.Done? ==> forall k :: 0 <= k < |r.value| ==> !IsUnicodeWhitespace(r.value[k])
    ensures r.Done? ==> r.rest == [] || IsUnicodeWhitespace(r.rest[0])
  {
    Preceded((s: string) => Char('#', s), (s: string) => TakeTillComplete(IsUnicodeWhitespace, s), i)
  }

  /** The quoted alternative of `maybe_quoted`: `"`, a non-empty quote-free run, `"`. */
  function Quoted(i: string): (r: Res<char, string>)
    ensures Consumes(r, i)
  {
    Delimited((s: string) => Char('"', s), (s: string) => IsNotComplete({'"'}, s), (s: string) => Char('"', s), i)
  }

  /** The bare alternative of `maybe_quoted`: the run up to the next separator, maybe empty. */
  function Bare(i: string): (r: Res<char, string>)
    ensures Consumes(r, i)
    ensures r.Done? && i == r.value + r.rest
    ensures forall k :: 0 <= k < |r.value| ==> !IsFieldSep(r.value[k])
    ensures r.rest == [] || IsFieldSep(r.rest[0])
  {
    TakeWhileComplete(NotFieldSep, i)
  }

  /** `maybe_quoted`: a quoted run if there is one, otherwise the bare run. */
  function MaybeQuoted(i: string): (r: Res<char, string>)
    ensures Consumes(r, i)
    ensures r.Done? || r.Incomplete?
    ensures r.Incomplete? <==>
              i == [] || (|i| >= 2 && i[0] == '"' && i[1] != '"' && forall k :: 1 <= k < |i| ==> i[k] != '"')
  {
    Alt2(Quoted, Bare, i)
  }

  /** The brace alternative of `field`: `{`, the region up to its unmatched `}`, `}`. */
  function Braced(i: string): (r: Res<char, string>)
    ensures Consumes(r, i)
  {
    Delimited((s: string) => Char('{', s), (s: string) => TakeUntilUnbalancedSpec(s, Braces), (s: string) => Char('}', s), i)
  }

  /** `field`: a brace region, or else `maybe_quoted`, wrapped as a field by the assumed
      conversion. */
  function ParseField(i: string): (r: Res<char, Field>)
    ensures Consumes(r, i)
  {
    MapRes((s: string) => Alt2(Braced, MaybeQuoted, s), (t: string) => Some(Text(t)), i)
  }

  /** One repetition of the loop in `item`: at least one separator, then a field. */
  function SepField(i: string): (r: Res<char, Field>)
    ensures Consumes(r, i)
    ensures i == [] || !IsFieldSep(i[0]) ==> r.Error?
  {
    Preceded((s: string) => TakeWhile1Complete(IsFieldSep, s), ParseField, i)
  }

  /** `item`: a label, then fields for as long as separators and fields follow. */
  function Item(i: string): (r: Res<char, Entry>)
    ensures Consumes(r, i)
  {
    var l :- Label(i);
    ItemFields(l.value, l.rest)
  }

  /** The fields of `item` after the label `tag`. */
  function ItemFields(tag: string, i: string): (r: Res<char, Entry>)
    ensures Consumes(r, i)
    ensures r.Done? ==> r.value.tag == tag
  {
    var f :- Many0(SepField, i);
    Done(f.rest, Entry(tag, f.value))
  }

  /** `items`: records for as long as they parse. */
  function Items(i: string): (r: Res<char, seq<Entry>>)
    ensures Consumes(r, i)
  {
    Many0(Item, i)
  }

  // ---------------------------------------------------------------- the two field shapes

  /** A whitespace-free tag after `#` is read back up to the whitespace that follows it. */
  lemma LabelOf(tag: string, rest: string)
    requires forall k :: 0 <= k < |tag| ==> !IsUnicodeWhitespace(tag[k])
    requires rest == [] || IsUnicodeWhitespace(rest[0])
    ensures Label(['#'] + tag + rest) == Done(rest, tag)
  {
    var i := ['#'] + tag + rest;
    var r := Label(i);
    assert i[1..] == tag + rest;
    RunSplit((c: char) => !IsUnicodeWhitespace(c), tag, rest, r.value, r.rest);
  }

  /** A quoted run is read back as its text, whatever follows the closing quote. */
  lemma QuotedField(text: string, rest: string)
    requires text != [] && forall k :: 0 <= k < |text| ==> text[k] != '"'
    ensures MaybeQuoted(['"'] + text + ['"'] + rest) == Done(rest, text)
    ensures ParseField(['"'] + text + ['"'] + rest) == Done(rest, Text(text))
  {
    QuotedRun(text, rest);
    var i := ['"'] + text + ['"'] + rest;
    assert i[0] == '"';
  }

  /** The quoted alternative reads the text between the quotes. */
  lemma QuotedRun(text: string, rest: string)
    requires text != [] && forall k :: 0 <= k < |text| ==> text[k] != '"'
    ensures Quoted(['"'] + text + ['"'] + rest) == Done(rest, text)
  {
    var i := ['"'] + text + ['"'] + rest;
    var body := IsNotComplete({'"'}, i[1..]);
    assert i[1..] == text + (['"'] + rest);
    assert body.Done? by {
      assert i[1..][0] == text[0];
    }
    RunSplit((c: char) => c !in {'"'}, text, ['"'] + rest, body.value, body.rest);
  }

  lemma BareField(text: string, rest: string)
    requires text != [] && text[0] != '"' && text[0] != '{'
    requires forall k :: 0 <= k < |text| ==> !IsFieldSep(text[k])
    requires rest == [] || IsFieldSep(rest[0])
    ensures MaybeQuoted(text + rest) == Done(rest, text)
    ensures ParseField(text + rest) == Done(rest, Text(text))
  {
    var i := text + rest;
    assert i[0] == text[0];
    RunSplit(NotFieldSep, text, rest, Bare(i).value, Bare(i).rest);
  }

  // ---------------------------------------------------------------- rendering and round trip

  /** Whether the Rust tokenizer reads `text` back as a bare run. */
  predicate IsBare(text: string) {
    text != [] && text[0] != '"' && text[0] != '{' && forall k :: 0 <= k < |text| ==> !IsFieldSep(text[k])
  }

  /** A field's text as it is written: bare when it can be, otherwise between quotes. */
  function RenderField(f: Field): string {
    if IsBare(f.text) then f.text else ['"'] + f.text + ['"']
  }

  /** A run of one or more separators. */
  predicate IsSepRun(s: string) {
    s != [] && forall k :: 0 <= k < |s| ==> IsFieldSep(s[k])
  }

  /** The fields as written, each after its own separator run. */
  function RenderFields(fs: seq<Field>, seps: seq<string>): string
    requires |seps| == |fs|
  {
    if fs == [] then [] else seps[0] + RenderField(fs[0]) + RenderFields(fs[1..], seps[1..])
  }

  /** A record as written: `#`, the tag, and the separated fields. */
  function Render(e: Entry, seps: seq<string>): string
    requires |seps| == |e.fields|
  {
    ['#'] + e.tag + RenderFields(e.fields, seps)
  }

  /** The records the tokenizer can write: a whitespace-free tag and non-empty quote-free
      fields. */
  predicate WellFormed(e: Entry) {
    (forall k :: 0 <= k < |e.tag| ==> !IsUnicodeWhitespace(e.tag[k]))
    && forall j :: 0 <= j < |e.fields| ==> e.fields[j].text != [] && forall k :: 0 <= k < |e.fields[j].text| ==> e.fields[j].text[k] != '"'
  }

  /** One field after its separators, followed by what comes after it. */
  lemma SepFieldStep(sep: string, f: Field, rest: string)
    requires IsSepRun(sep)
    requires f.text != [] && forall k :: 0 <= k < |f.text| ==> f.text[k] != '"'
    requires rest == [] || IsFieldSep(rest[0])
    ensures SepField(sep + RenderField(f) + rest) == Done(rest, f)
  {
    var body := RenderField(f) + rest;
    assert body[0] == RenderField(f)[0];
    assert sep + RenderField(f) + rest == sep + body;
    var run := TakeWhile1Complete(IsFieldSep, sep + body);
    assert (sep + body)[0] == sep[0];
    RunSplit(IsFieldSep, sep, body, run.value, run.rest);
    if IsBare(f.text) {
      BareField(f.text, rest);
    } else {
      QuotedField(f.text, rest);
      assert body == ['"'] + f.text + ['"'] + rest;
    }
  }

  lemma {:induction false} RenderFieldsRoundTrip(fs: seq<Field>, seps: seq<string>)
    requires |seps| == |fs|
    requires forall j :: 0 <= j < |seps| ==> IsSepRun(seps[j])
    requires forall j :: 0 <= j < |fs| ==> fs[j].text != [] && forall k :: 0 <= k < |fs[j].text| ==> fs[j].text[k] != '"'
    ensures RenderFields(fs, seps) == [] || IsFieldSep(RenderFields(fs, seps)[0])
    ensures Many0(SepField, RenderFields(fs, seps)) == Done([], fs)
  {
    var i := RenderFields(fs, seps);
    if fs == [] {
      assert SepField([]) == Error;
    } else {
      var tail := RenderFields(fs[1..], seps[1..]);
      RenderFieldsRoundTrip(fs[1..], seps[1..]);
      assert i == seps[0] + RenderField(fs[0]) + tail;
      assert i[0] == seps[0][0];
      SepFieldStep(seps[0], fs[0], tail);
      assert [fs[0]] + fs[1..] == fs;
    }
  }

  /** The round trip: a well-formed record, written with any separator runs, is read back
      as itself with nothing left over. */
  lemma ItemRoundTrip(e: Entry, seps: seq<string>)
    requires WellFormed(e)
    requires |seps| == |e.fields| && forall j :: 0 <= j < |seps| ==> IsSepRun(seps[j])
    ensures Item(Render(e, seps)) == Done([], e)
  {
    var fs := RenderFields(e.fields, seps);
    RenderFieldsRoundTrip(e.fields, seps);
    LabelOf(e.tag, fs);
  }

  // ---------------------------------------------------------------- what `items` returns

  /** A field step always consumes its separators. */
  lemma SepFieldProgress(x: string)
    ensures SepField(x).Done? ==> |SepField(x).rest| < |x|
  {
    var s := TakeWhile1Complete(IsFieldSep, x);
    if s.Done? {
      assert |s.rest| < |x|;
    }
  }

  /** The field loop of `item` never fails recoverably: it stops at the first place where
      no separator follows. */
  lemma FieldsNeverError(x: string)
    ensures !Many0(SepField, x).Error?
  {
    forall j ensures SepField(j).Done? ==> |SepField(j).rest| < |j| {
      SepFieldProgress(j);
    }
    Many0NeverError(SepField, x);
  }

  /** `item` fails recoverably exactly when the input starts with something other than
      `#`. */
  lemma ItemError(x: string)
    ensures Item(x).Error? <==> x != [] && x[0] != '#'
  {
    var l := Label(x);
    if l.Done? {
      FieldsNeverError(l.rest);
    }
  }

  /** `items` succeeds only by stopping in front of a character other than `#`; in
      particular it never succeeds at the end of the input. */
  lemma ItemsStop(i: string)
    ensures Items(i).Done? ==> Items(i).rest != [] && Items(i).rest[0] != '#'
  {
    var r := Items(i);
    if r.Done? {
      Many0Chain(Item, i, r.value, r.rest);
      ItemError(r.rest);
    }
  }

  /** An entry that uses up the input makes `items` ask for more, since the next `label`
      needs a `#`. */
  lemma ItemsAfterEntry(i: string, e: Entry)
    requires Item(i) == Done([], e)
    ensures Items(i) == Incomplete
  {
    assert i != [] by { ItemError(i); assert Label(i).Done?; }
    assert Many0(Item, []) == Incomplete by { assert Item([]) == Incomplete; }
    assert Items(i) == Many0(Item, i);
  }

  /** So a well-formed record written on its own is never read by `items`. */
  lemma ItemsRendered(e: Entry, seps: seq<string>)
    requires WellFormed(e)
    requires |seps| == |e.fields| && forall j :: 0 <= j < |seps| ==> IsSepRun(seps[j])
    ensures Items(Render(e, seps)) == Incomplete
  {
    ItemRoundTrip(e, seps);
    ItemsAfterEntry(Render(e, seps), e);
  }

  /** An entry followed by a character other than `#` is the one entry `items` returns,
      with that character and what follows left over. */
  lemma ItemsOne(i: string, e: Entry, rest: string)
    requires Item(i) == Done(rest, e)
    requires rest != [] && rest[0] != '#'
    ensures Items(i) == Done(rest, [e])
  {
    ItemError(rest);
    assert |rest| < |i| by {
      var l := Label(i);
      assert l.Done?;
      assert ItemFields(l.value, l.rest) == Done(rest, e);
    }
    assert Many0(Item, rest) == Done(rest, []);
    assert [e] + [] == [e];
    assert Many0(Item, i) == Done(rest, [e] + []);
  }

  /** Input that does not start with `#` gives no entries and is left as it is. */
  lemma ItemsNoHash(i: string)
    requires i != [] && i[0] != '#'
    ensures Items(i) == Done(i, [])
  {
    ItemError(i);
  }

  // ---------------------------------------------------------------- examples of src/parsers.rs

  /** `label("#KONTO 1220")` leaves " 1220" and gives "KONTO". */
  lemma LabelExample()
    ensures Label("#KONTO 1220") == Done(" 1220", "KONTO")
  {
    assert "#KONTO 1220" == ['#'] + "KONTO" + " 1220";
    LabelOf("KONTO", " 1220");
  }

  /** The record of the test in src/parsers.rs: a bare account number and a quoted name. */
  lemma KontoExample()
    ensures Item("#KONTO 1220 \"Inventarier och verktyg\"")
            == Done("", Entry("KONTO", [Text("1220"), Text("Inventarier och verktyg")]))
  {
    var e := Entry("KONTO", [Text("1220"), Text("Inventarier och verktyg")]);
    var seps := [" ", " "];
    KontoRendered();
    KontoWellFormed();
    ItemRoundTrip(e, seps);
  }

  /** `items` on that same test line asks for more input: no `#` follows the record. */
  lemma KontoItemsExample()
    ensures Items("#KONTO 1220 \"Inventarier och verktyg\"") == Incomplete
  {
    KontoExample();
    ItemsAfterEntry("#KONTO 1220 \"Inventarier och verktyg\"",
                    Entry("KONTO", [Text("1220"), Text("Inventarier och verktyg")]));
  }

  lemma KontoWellFormed()
    ensures WellFormed(Entry("KONTO", [Text("1220"), Text("Inventarier och verktyg")]))
    ensures IsSepRun(" ")
  {
    var e := Entry("KONTO", [Text("1220"), Text("Inventarier och verktyg")]);
    KontoPlain();
    assert e.fields[0].text == "1220" && e.fields[1].text == "Inventarier och verktyg";
  }

  lemma KontoPlain()
    ensures forall k :: 0 <= k < |"KONTO"| ==> !IsUnicodeWhitespace("KONTO"[k])
    ensures forall k :: 0 <= k < |"1220"| ==> "1220"[k] != '"'
    ensures forall k :: 0 <= k < |"Inventarier och verktyg"| ==> "Inventarier och verktyg"[k] != '"'
  {
  }

  /** The text of that test is the KONTO record written with single spaces. */
  lemma KontoRendered()
    ensures Render(Entry("KONTO", [Text("1220"), Text("Inventarier och verktyg")]), [" ", " "])
            == "#KONTO 1220 \"Inventarier och verktyg\""
  {
    RenderPair("KONTO", "1220", "Inventarier och verktyg", " ", " ");
    KontoFields();
    KontoText();
  }

  lemma KontoFields()
    ensures RenderField(Text("1220")) == "1220"
    ensures RenderField(Text("Inventarier och verktyg")) == ['"'] + "Inventarier och verktyg" + ['"']
  {
    assert IsBare("1220");
    assert "Inventarier och verktyg"[11] == ' ';
  }

  lemma KontoText()
    ensures ['#'] + "KONTO" + " " + "1220" + " " + (['"'] + "Inventarier och verktyg" + ['"'])
            == "#KONTO 1220 \"Inventarier och verktyg\""
  {
    KontoHead();
    KontoName();
    assert "#KONTO 1220 " + "\"Inventarier och verktyg\"" == "#KONTO 1220 \"Inventarier och verktyg\"";
  }

  lemma KontoHead()
    ensures ['#'] + "KONTO" + " " + "1220" + " " == "#KONTO 1220 "
  {
    assert ['#'] + "KONTO" == "#KONTO";
    assert "#KONTO" + " " == "#KONTO ";
    assert "#KONTO " + "1220" == "#KONTO 1220";
  }

  lemma KontoName()
    ensures ['"'] + "Inventarier och verktyg" + ['"'] == "\"Inventarier och verktyg\""
  {
    assert ['"'] + "Inventarier och verktyg" == "\"Inventarier och verktyg";
  }

  /** One field in front of the rest, as written. */
  lemma RenderFieldsCons(f: Field, fs: seq<Field>, s: string, seps: seq<string>)
    requires |seps| == |fs|
    ensures RenderFields([f] + fs, [s] + seps) == s + RenderField(f) + RenderFields(fs, seps)
  {
    assert ([f] + fs)[1..] == fs && ([s] + seps)[1..] == seps;
  }

  /** A record of two fields as written. */
  lemma RenderPair(tag: string, a: string, b: string, s1: string, s2: string)
    ensures Render(Entry(tag, [Text(a), Text(b)]), [s1, s2])
            == ['#'] + tag + s1 + RenderField(Text(a)) + s2 + RenderField(Text(b))
  {
    RenderFieldsCons(Text(b), [], s2, []);
    assert [Text(b)] == [Text(b)] + [] && [s2] == [s2] + [];
    RenderFieldsCons(Text(a), [Text(b)], s1, [s2]);
    assert [Text(a), Text(b)] == [Text(a)] + [Text(b)] && [s1, s2] == [s1] + [s2];
  }

  /** A record of three fields as written. */
  lemma RenderTriple(tag: string, a: string, b: string, c: string, s1: string, s2: string, s3: string)
    ensures Render(Entry(tag, [Text(a), Text(b), Text(c)]), [s1, s2, s3])
            == ['#'] + tag + s1 + RenderField(Text(a)) + s2 + RenderField(Text(b))
               + s3 + RenderField(Text(c))
  {
    var fc, fb, fa := RenderField(Text(c)), RenderField(Text(b)), RenderField(Text(a));
    RenderFieldsCons(Text(c), [], s3, []);
    assert [Text(c)] == [Text(c)] + [] && [s3] == [s3] + [];
    assert RenderFields([Text(c)], [s3]) == s3 + fc;
    RenderFieldsCons(Text(b), [Text(c)], s2, [s3]);
    assert [Text(b), Text(c)] == [Text(b)] + [Text(c)] && [s2, s3] == [s2] + [s3];
    assert RenderFields([Text(b), Text(c)], [s2, s3]) == s2 + fb + (s3 + fc);
    RenderFieldsCons(Text(a), [Text(b), Text(c)], s1, [s2, s3]);
    assert [Text(a), Text(b), Text(c)] == [Text(a)] + [Text(b), Text(c)]
           && [s1, s2, s3] == [s1] + [s2, s3];
    assert RenderFields([Text(a), Text(b), Text(c)], [s1, s2, s3]) == s1 + fa + (s2 + fb + (s3 + fc));
  }


  /** The loop in `item` does not stop at `#`: a line break and the next record's tag are
      read as one more field of the current record. */
  lemma NextRecordSwallowed()
    ensures Item("#A x\n#B y") == Done("", Entry("A", [Text("x"), Text("#B"), Text("y")]))
  {
    var e := Entry("A", [Text("x"), Text("#B"), Text("y")]);
    var seps := [" ", "\n", " "];
    RenderTriple("A", "x", "#B", "y", " ", "\n", " ");
    assert IsBare("x") && IsBare("#B") && IsBare("y");
    assert ['#'] + "A" + " " + "x" + "\n" + "#B" + " " + "y" == "#A x\n#B y";
    assert WellFormed(e);
    ItemRoundTrip(e, seps);
  }
}
