# sie4 in Dafny

A model of the core of `sie4`, a streaming parser for SIE 4 files. SIE 4 is the Swedish
plain-text interchange format for bookkeeping data. A SIE 4 file is a sequence of records.
Each record is a line `#TAG field field ...`. A field is a bare token, a quoted string or a
brace-delimited list. A verification record (`#VER`) holds its transactions (`#TRANS`) in a
brace block. Records come in four groups (flags, identification, accounts, balances), and a
file must not go back to an earlier group.

The model has three layers, following the source files. Each layer comes with proofs about
it.

- **src/parsers.rs**
  - `Unbalanced`: the escape-aware bracket scanner `take_until_unbalanced`. The model is an
    imperative method with the source's loop, proved equal to a recursive reference scan.
    It also proves what the scanner promises: the content is balanced, and the scanner stops
    at the first unmatched closer. It also characterises the error and panic cases.
  - `Tokenizer`: the older text tokenizer (`label`, `maybe_quoted`, `field`, `item`,
    `items`), with round-trip lemmas and the module's unit tests.
- **src/item.rs**
  - `Nom`: the nom 7 combinators the parsers use. This is a model of the library as used at
    the cited lines.
  - `Codec`: the value-level conversions the field decoders call. These are PC8
    (code page 437) decoding, `str::parse` for `i32` and `u32`, the `[year][month][day]`
    date format, decimal amounts and ISO 4217 currency codes.
  - `Lexical`: the byte-level helpers that src/item.rs imports from `parsers`
    (`unquoted_text`, `text`, `date`, `from_str`, `in_curly_braces`).
  - `Fields`: one decoder per field type (`ParseField`).
  - `Records`: the eighteen record kinds as schemas of typed fields, one generic record
    parser standing for the `item_impl!` macro, and `Item::parse` with its dispatch on the
    tag.
  - `Examples`: the unit tests and the documentation example of src/item.rs.
- **src/reader.rs**
  - `StreamReader`: the `Reader` iterator. It is a class whose buffer is two cursors over
    the stream. `next` is a loop proved against a step function. The group order it
    enforces is proved over any sequence of calls.

## Model

Rows for `Nom` members model nom's behaviour at the cited use sites.

| member | source | states |
|---|---|---|
| Nom.Tag | src/item.rs:136 | streaming `tag`: succeeds exactly when the input starts with the tag and hands back what follows it; it asks for more input exactly when the input is a proper prefix of the tag |
| Nom.Char | src/item.rs:136 | streaming `char`: needs more input on empty input; otherwise it succeeds exactly on the expected element and consumes one element |
| Nom.TakeWhile | src/item.rs:132 | streaming `take_while`: asks for more input exactly when every element matches; otherwise it splits the input into the longest matching run and a rest starting with a non-matching element |
| Nom.TakeWhile1 | src/item.rs:174 | streaming `digit1`: like `take_while`, but an empty run is a recoverable error (exactly when the first element does not match) |
| Nom.CompleteTag | src/parsers.rs:76-77 | complete `tag`: succeeds exactly when the tag is a prefix, and is otherwise an error (never Incomplete) |
| Nom.TakeWhileComplete | src/parsers.rs:33 | complete `take_while`: always succeeds with the longest matching prefix; the rest is empty or starts with a non-matching element |
| Nom.TakeWhile1Complete | src/parsers.rs:51 | complete `take_while1`: an error exactly on empty input or a non-matching first element; otherwise the longest non-empty matching prefix |
| Nom.TakeTillComplete | src/parsers.rs:15 | complete `take_till`: the longest prefix without a stop element; the rest is empty or starts with one |
| Nom.IsNotComplete | src/parsers.rs:32 | complete `is_not`: an error exactly on empty input or a stop element first; otherwise the longest non-empty run outside the stop set |
| Nom.OptSemantics | src/item.rs:115-122 | `opt`: a recoverable error becomes `None` without consuming; success becomes `Some`; Incomplete, Failure and panic pass through, and `opt` itself is never a recoverable error |
| Nom.Opt | src/item.rs:115-122 | `opt` is never a recoverable error: an Error of the parser becomes `None` with nothing consumed, a success becomes `Some` of its value, and no more input is handed back than the parser hands back |
| Nom.Map | src/item.rs:254-259 | `map`: succeeds exactly when the inner parser does, with its rest and the function applied to its value; every failure passes through unchanged |
| Nom.MapRes | src/item.rs:174-176 | `map_res`: succeeds exactly when the inner parser succeeds and the conversion accepts its value; a refused conversion is a recoverable error; the inner failures pass through unchanged |
| Nom.Preceded | src/item.rs:136 | `preceded`: on the first parser's success, the second parser's outcome on the remainder; otherwise the first parser's failure |
| Nom.Delimited | src/parsers.rs:32 | `delimited`: succeeds exactly when all three parsers succeed in turn, with the middle value and the last rest; a failure of the first passes through |
| Nom.Alt | src/item.rs:254-259 | `alt`: an error exactly when every alternative is an error; otherwise it is the first alternative that is not one |
| Nom.AltSelect | src/item.rs:254-259 | when every alternative but one fails recoverably, `alt` is that alternative |
| Nom.Complete | src/item.rs:134 | `complete` never asks for more input |
| Nom.Cut | src/item.rs:88 | `cut` never returns a recoverable error |
| Nom.Recognize | src/item.rs:174 | `recognize`: on success, the value is exactly the consumed prefix of the input and the rest is the inner parser's; otherwise the inner outcome passes through |
| Nom.Many0Chain | src/item.rs:134-138 | `many0` returns the values `vs` and the rest exactly when the parser succeeds as a shrinking chain yielding `vs` and then fails recoverably on the rest |
| Nom.Many0All | src/item.rs:155 | every value `many0` collects is a value the element parser can produce |
| Nom.Many0 | src/item.rs:134-138 | `many0` never hands back more input than it got; a success ends where the parser fails recoverably, and a recoverable error at once is the empty list |
| Nom.Many0NeverError | src/parsers.rs:51 | with a parser that consumes whenever it succeeds, `many0` is never a recoverable error |
| Nom.TakeWhileSplit | src/item.rs:135 | `take_while` on a matching run followed by a non-matching element takes exactly that run |
| Nom.TagSplit | src/item.rs:136 | a successful tag leaves the input as tag followed by rest |
| Unbalanced.TakeUntilUnbalanced | src/parsers.rs:82-126 | the loop of `take_until_unbalanced` (find, escape skip, opener, closer, unmatched closer, end-of-input check) returns exactly the reference scan's result |
| Unbalanced.TakeUntilUnbalancedSpec | src/parsers.rs:82-126 | the reference scan never hands back more than its input, and on success content followed by rest is the whole input |
| Unbalanced.FindSpecial | src/parsers.rs:89 | `find` on the three special elements returns the first special position, or none when there is none |
| Unbalanced.ScanSkipsPlain | src/parsers.rs:89-90 | jumping over a run of ordinary elements does not change the scan |
| Unbalanced.ScanDepth | src/parsers.rs:87-124 | the scan from any position stops at the first point where the escape-aware depth reaches -1 (a closer), or at the end with depth 0; otherwise it reports brackets left open, or an overrun after a trailing lone escape |
| Unbalanced.TakeUntilUnbalancedBalance | src/parsers.rs:79-126 | the result is Done, Error or a panic; Done content is balanced, never dips below zero, and is followed by the unmatched closer or the end; Error means brackets were left open; a panic happens exactly when the input ends in a lone escape |
| Unbalanced.EscapedElementIgnored | src/parsers.rs:93-99 | the element after an escape may be anything without changing the scan |
| Unbalanced.SameTail | src/parsers.rs:89-118 | the scan from a position reads nothing before it |
| Unbalanced.BracketsCount | src/parsers.rs:100-108 | an opener raises the depth, a closer lowers it or stops the scan at depth 0, and an ordinary element changes nothing |
| Unbalanced.ScanShift | src/parsers.rs:89-118 | scanning after a prefix is the scan of the suffix, shifted by the prefix length |
| Unbalanced.FromPrefix | src/parsers.rs:82-126 | when a prefix leaves the scan at depth 0, the result is the suffix's result with the prefix put in front of the content |
| Unbalanced.PlainPrefix | src/parsers.rs:89-90 | a prefix without special elements becomes part of the content |
| Unbalanced.PairPrefix | src/parsers.rs:100-108 | an empty bracket pair in front becomes part of the content |
| Unbalanced.CloserFirst | src/parsers.rs:104-117 | a closer at the front ends the content there, empty, and is not consumed |
| Unbalanced.DelimitedExample | src/parsers.rs:76-77 | the documentation example: `<<inside>inside>abc` gives content `<inside>inside` and rest `abc` |
| Tokenizer.Label | src/parsers.rs:14-16 | `label`: Incomplete exactly on empty input; an error exactly when the first character is not `#`; otherwise the run up to the first Unicode whitespace |
| Tokenizer.LabelOf | src/parsers.rs:14-16 | `#` then a tag without whitespace then whitespace or the end gives back the tag |
| Tokenizer.LabelExample | src/parsers.rs:155-158 | `label("#KONTO 1220")` is `(" 1220", "KONTO")` |
| Tokenizer.Bare | src/parsers.rs:33 | the bare alternative always succeeds with the longest run of non-separators |
| Tokenizer.MaybeQuoted | src/parsers.rs:30-35 | `maybe_quoted` never fails recoverably; it asks for more input exactly on empty input or an unterminated non-empty quote |
| Tokenizer.QuotedRun | src/parsers.rs:32 | a quoted run without quotes inside reads back its text |
| Tokenizer.QuotedField | src/parsers.rs:30-46 | a quoted field reads back its text as `Field::Text` |
| Tokenizer.BareField | src/parsers.rs:30-46 | a bare field (not starting with a quote or brace) reads back its text |
| Tokenizer.ParseField | src/parsers.rs:37-46 | `field` never hands back more input than it got |
| Tokenizer.SepFieldStep | src/parsers.rs:51 | a separator run and a rendered field read back that field |
| Tokenizer.RenderFieldsRoundTrip | src/parsers.rs:51 | the loop of `many0(preceded(take_while1(is_field_sep), field))` reads back any list of fields rendered with separator runs |
| Tokenizer.ItemFields | src/parsers.rs:49-59 | the entry built keeps the label it was given |
| Tokenizer.Item | src/parsers.rs:48-60 | `item` never hands back more input than it got |
| Tokenizer.ItemRoundTrip | src/parsers.rs:48-60 | `item` reads back any well-formed entry rendered with separator runs, consuming it all |
| Tokenizer.Items | src/parsers.rs:62-64 | `items` never hands back more input than it got (its outcomes are characterised by `ItemsStop`, `ItemsNoHash`, `ItemsOne` and `ItemsAfterEntry`) |
| Tokenizer.KontoExample | src/parsers.rs:135-147 | the unit test: `#KONTO 1220 "Inventarier och verktyg"` gives tag KONTO and fields `1220` and `Inventarier och verktyg`, consuming all |
| Tokenizer.NextRecordSwallowed | src/parsers.rs:50-51 | the open `todo`: the field loop does not stop at `#`, so `#A x\n#B y` reads as one entry with fields `x`, `#B`, `y` |
| Tokenizer.SeparatorClasses | src/parsers.rs:18-28 | the separators are exactly space, tab, line feed and carriage return; no character is both a blank and a newline; every separator is Unicode whitespace and none starts a label, a quote or a brace |
| Tokenizer.SepField | src/parsers.rs:51 | a field step never hands back more input than it got, and fails recoverably on input that does not start with a separator |
| Tokenizer.SepFieldProgress | src/parsers.rs:51 | a successful field step consumes at least its separator |
| Tokenizer.FieldsNeverError | src/parsers.rs:51 | the field loop of `item` is never a recoverable error |
| Tokenizer.ItemError | src/parsers.rs:48-60 | `item` fails recoverably exactly when the input starts with a character other than `#` |
| Tokenizer.ItemsStop | src/parsers.rs:62-64 | a successful `items` stops in front of a character other than `#`, so never at the end of the input |
| Tokenizer.ItemsNoHash | src/parsers.rs:62-64 | input not starting with `#` gives no entries and is left whole |
| Tokenizer.ItemsOne | src/parsers.rs:62-64 | an entry followed by a character other than `#` is the single entry `items` returns, with that character and what follows left |
| Tokenizer.ItemsAfterEntry | src/parsers.rs:62-64 | an entry that uses up the input makes `items` ask for more input |
| Tokenizer.ItemsRendered | src/parsers.rs:48-64 | a well-formed entry written on its own makes `items` ask for more input |
| Tokenizer.KontoItemsExample | src/parsers.rs:135-147 | `items` on the unit test's KONTO line asks for more input |
| Codec.Cp437 | src/item.rs:3 | the PC8 decoding of a byte is its ASCII character below 128 and a character beyond ASCII above |
| Codec.Decode | src/item.rs:175 | decoding maps each byte to its PC8 character, position by position |
| Codec.DecodeAscii | src/item.rs:175 | decoding the ASCII bytes of an ASCII string gives the string back |
| Codec.DecodeKeepsNonAscii | src/item.rs:175 | a byte is non-ASCII exactly when its decoded character is |
| Codec.FromStrInt | src/item.rs:174-176 | `str::parse` of an integer: a result lies in the type's range, is non-negative for unsigned types, and comes from optional `+` (or `-` for signed types) followed by digits |
| Codec.ParseI32 | src/item.rs:182 | a parsed `i32` is within the 32-bit signed range |
| Codec.ParseU32 | src/item.rs:183 | a parsed `u32` is within the 32-bit unsigned range, and a leading minus is refused |
| Codec.IntRoundTrip | src/item.rs:174-183 | every in-range integer parses back from its decimal rendering |
| Codec.IntOutOfRange | src/item.rs:174-183 | every out-of-range integer is refused |
| Codec.I32Extremes | src/item.rs:182-183 | the limits: `-2147483648` parses as `i32`, `2147483648` does not; `4294967295` parses as `u32`, `-1` does not |
| Codec.DaysInMonth | src/item.rs:39 | a month has between 28 and 31 days |
| Codec.ParseDate | src/item.rs:39 | `[year][month][day]` accepts exactly an optional `+` or `-` and eight digits forming a valid calendar date; the year is negated after `-`; the result is that date |
| Codec.DateRoundTrip | src/item.rs:39 | every valid date with a non-negative year parses back from its format |
| Codec.SignedDateRoundTrip | src/item.rs:39 | every valid date, negative years included, parses back from its signed form, with or without the optional `+` |
| Codec.SignDigitsParse | src/item.rs:39 | a sign in front of the eight-digit form of a date gives that date, its year negated after `-` |
| Codec.SignedYearExample | src/item.rs:39 | `-20230101` is 1 January of year -2023 and `+20230228` is 28 February 2023 |
| Codec.Month13Invalid | src/item.rs:425-426 | `20201301` is not a date |
| Codec.DateExample | src/item.rs:474 | `20230228` is 28 February 2023 |
| Codec.ParseDecimal | src/item.rs:104-113 | a parsed amount comes from non-empty text, and its sign follows the leading minus |
| Codec.UnsignedRoundTrip | src/item.rs:104-113 | every unsigned amount parses back from its rendering, scale included |
| Codec.DecimalRoundTrip | src/item.rs:104-113 | every amount parses back from its rendering, scale included |
| Codec.DecimalExample | src/item.rs:473 | `-72.00` is mantissa -7200 at scale 2 |
| Codec.ParseCurrency | src/item.rs:93-102 | a code parses exactly when it is a known currency code, and keeps the code |
| Codec.CurrencyExamples | src/item.rs:434-435 | `SEK` is a currency; `BTC` and lower-case `sek` are not |
| Lexical.UnquotedText | src/item.rs:87 | `unquoted_text`: Incomplete exactly when every byte is unquoted; an error exactly on a non-unquoted first byte; otherwise the non-empty longest run, with a stop byte after it |
| Lexical.QuotedText | src/item.rs:69 | quoted text: an error exactly without a leading quote; Incomplete exactly without a closing quote; otherwise the unescaped bytes up to the first unescaped quote, with the rest after it |
| Lexical.UnescapeEscape | src/item.rs:69 | unescaping undoes escaping, for text without backslashes |
| Lexical.QuotedRoundTrip | src/item.rs:69 | any backslash-free text, escaped and quoted, reads back with whatever follows |
| Lexical.Text | src/item.rs:69 | `text` is quoted text, and if that fails recoverably, unquoted text, decoded from PC8; an error exactly when the first byte starts neither |
| Lexical.FromStr | src/item.rs:99 | `from_str` succeeds exactly when the decoded token parses, consuming all of it; it never asks for more input |
| Lexical.DateToken | src/item.rs:88 | `date` succeeds exactly on a decodable date, and the date is valid |
| Lexical.InCurlyBraces | src/item.rs:133 | `in_curly_braces`: on success the input is `{`, the content, `}`, then the rest |
| Lexical.PlainRegion | src/item.rs:152 | braces around content without braces or backslashes give that content |
| Lexical.BracedRegion | src/item.rs:133 | when the scanner stops at a closer, the brace region is the scanned content |
| Fields.StringField | src/item.rs:64-71 | `String`: an error exactly when the first byte starts neither quoted nor unquoted text |
| Fields.StringFieldQuoted | src/item.rs:64-71 | quoted ASCII text without backslashes reads back as itself |
| Fields.BoolField | src/item.rs:73-80 | `bool`: `0` is false and `1` is true, one byte consumed; Incomplete on empty input and an error on any other first byte |
| Fields.IntField | src/item.rs:167-180 | an integer field's value lies in the type's range |
| Fields.I32Field | src/item.rs:182 | an `i32` field lies in the signed 32-bit range |
| Fields.U32Field | src/item.rs:183 | a `u32` field lies in the unsigned 32-bit range |
| Fields.CutDigit1 | src/item.rs:174 | `cut(digit1)`: Incomplete exactly when all remaining bytes are digits; a Failure exactly on a non-digit first byte; otherwise the digit run |
| Fields.IntFieldOutcome | src/item.rs:174 | after the optional minus, an integer field asks for more input exactly when only digits follow, and fails hard exactly when a non-digit follows |
| Fields.IntFieldConverts | src/item.rs:174-176 | a complete signed digit token converts by `str::parse`, or is a recoverable error when that fails |
| Fields.IntFieldToken | src/item.rs:174-176 | an optional minus, digits and a non-digit give the parsed value of the token, or an error |
| Fields.IntFieldRoundTrip | src/item.rs:167-183 | every in-range integer reads back from its rendering before a non-digit |
| Fields.U32RefusesMinus | src/item.rs:183 | a negative number is an error for a `u32` field |
| Fields.TokenField | src/item.rs:87-88 | the token decoders: Incomplete exactly when the token is unfinished; an error exactly when no token starts; a Failure exactly when the conversion refuses a token (the `cut`); otherwise the converted token |
| Fields.DateField | src/item.rs:82-91 | `Date`: a parsed date is valid |
| Fields.DateFieldRoundTrip | src/item.rs:82-91 | every valid date, negative years included, reads back from its signed format, with or without `+`, before a stop byte |
| Fields.CurrencyField | src/item.rs:93-102 | `Currency`: a parsed currency has a known code |
| Fields.DecimalField | src/item.rs:104-113 | `Decimal` asks for more exactly when the token runs to the end of the input, is a recoverable error exactly when no token starts, is a hard failure exactly when the token is not an amount, gives a negative amount only after `-`, and never hands back more input than it got |
| Fields.DecimalFieldRoundTrip | src/item.rs:104-113 | every amount reads back from its rendering before a stop byte |
| Fields.InvalidDateToken | src/item.rs:425-426 | the test: `20201301 "next"` is a hard failure for `Date` and for `Option<Date>` |
| Fields.MissingDate | src/item.rs:428-432 | the test: ` "next"` is no date, and `Option<Date>` gives `None` without consuming |
| Fields.BtcToken | src/item.rs:434-435 | the test: `BTC "next"` is a hard failure for `Option<Currency>` |
| Fields.ListField | src/item.rs:147-158 | `List`: succeeds exactly when the brace region and `many0(complete(element))` on it succeed, giving the rest after `}` and the collected elements |
| Fields.EmptyList | src/item.rs:152-158 | `{}` is the empty list |
| Fields.ListAll | src/item.rs:155 | every list element is a value the element parser produces |
| Fields.SubItems | src/item.rs:127-141 | `SubItems`: on success, blanks are skipped and the rest is the list of sub-records of the brace region |
| Fields.SubItemsAll | src/item.rs:134-138 | every sub-record is a value the record parser produces |
| Fields.SubItemIsBody | src/item.rs:135-137 | a sub-record that parses is the record parser's result on some input |
| Fields.SubItem | src/item.rs:134-138 | one sub-record step consumes no more than its record parser does, and asks for more input when no `#` follows |
| Fields.SubItemAt | src/item.rs:135-137 | bytes without `#`, then `#` and the label, hand the rest to the record parser |
| Fields.SubItemNoHash | src/item.rs:135 | a region without `#` asks for more input, which `complete` turns into the end of the loop |
| Fields.ManyTwo | src/item.rs:134-138 | two successful sub-records followed by a recoverable failure give both, in order |
| Fields.ListRegion | src/item.rs:152-155 | a brace region that the scanner closes gives the list of what `many0` finds inside it |
| Fields.SubItemsAfter | src/item.rs:132-140 | `SubItems` is the list of the region after the blanks |
| Fields.SkipBlanks | src/item.rs:132 | the blank skip takes exactly the leading blanks |
| Fields.FormatTypeField | src/item.rs:282-289 | `FormatType` succeeds exactly on a `PC8` prefix and consumes it |
| Fields.TypeNoField | src/item.rs:296-303 | `TypeNo` succeeds exactly on a `4` prefix and consumes it |
| Fields.ChartRoundTrip | src/item.rs:313-328 | each chart-of-accounts name reads back as its variant |
| Fields.ChartTagOther | src/item.rs:320-325 | a chart name does not match another variant's tag |
| Fields.ChartAccountsTypeField | src/item.rs:313-328 | a parsed chart-of-accounts type was written as its own literal, followed by the rest |
| Records.GroupTotalOrder | src/item.rs:23 | the derived order on groups is a total order |
| Records.GroupChain | src/item.rs:24-28 | the groups are ordered Flag < Identification < Account < Balance |
| Records.Label | src/item.rs:198 | a label is the upper-cased record name: at least two letters, all capital |
| Records.GroupOf | src/item.rs:330-414 | FLAGGA is the only flag, KONTO the only account record, and IB, RES, TRANS, UB and VER are the balances |
| Records.Schema | src/item.rs:330-414 | every record kind has at least one field, no two fields of a kind share a name, and only VER has a sub-items field, its last, holding TRANS records |
| Records.ItemGroup | src/item.rs:263-272 | `group()` is Flag exactly for FLAGGA, Account exactly for KONTO, Balance exactly for IB, RES, TRANS, UB and VER, so every other record is Identification |
| Records.ParseValue | src/item.rs:64-159 | a field decoder never hands back more input than it got |
| Records.SubRecords | src/item.rs:127-141 | the sub-record decoder never hands back more input than it got |
| Records.SubItemsField | src/item.rs:127-141 | the sub-items field succeeds exactly when the sub-record decoder does, with its rest and its records as the value |
| Records.SubItemsValue | src/item.rs:127-141 | the records the sub-record decoder reads are the value of a sub-items field |
| Records.ParseFields | src/item.rs:203-206 | the fields of a schema, read in order after spaces and tabs, give one value per field |
| Records.ParseRecord | src/item.rs:202-211 | `parse_item` gives a record of its kind with one value per schema field |
| Records.Alternative | src/item.rs:255-258 | the alternative of a kind only produces records of that kind |
| Records.AlternativeKinds | src/item.rs:254-259 | there is one alternative per kind; each produces only records of its kind and fails recoverably on the label of any other kind |
| Records.FieldsStep | src/item.rs:204-205 | a field after spaces and tabs is read, and the remaining fields go on after it |
| Records.FieldsCons | src/item.rs:204-205 | a field after spaces and tabs, followed by the remaining fields, gives the value in front of theirs |
| Records.FieldsAtEnd | src/item.rs:204 | a field that meets only spaces asks for more input |
| Records.RecordFromFields | src/item.rs:208-210 | a record is its kind with the values of its fields |
| Records.OptionAbsent | src/item.rs:120 | an optional field whose decoder fails recoverably is `None`, and nothing is consumed |
| Records.OptionPresent | src/item.rs:120 | an optional field whose decoder succeeds is `Some` of its value |
| Records.ListEmpty | src/item.rs:152-158 | `{}` is the empty list for any element type that cannot read empty input |
| Records.ValueTyped | src/item.rs:64-159 | every field value decoded has the declared type |
| Records.FieldsTyped | src/item.rs:203-206 | every value of a parsed schema has its field's type |
| Records.RecordTyped | src/item.rs:202-211 | every parsed record fits its kind's schema |
| Records.InitialsDecide | src/item.rs:254-259 | the first two letters of a label identify the kind |
| Records.LabelsApart | src/item.rs:254-259 | no two labels share their first two bytes, so the order of the alternatives does not matter |
| Records.OtherLabelFails | src/item.rs:254-259 | the alternative of another kind fails recoverably on a label |
| Records.OwnLabel | src/item.rs:256 | the alternative of a kind on its own label is its body parser |
| Records.SkipToAlternatives | src/item.rs:251-254 | leading blanks and `#` are skipped before the alternatives |
| Records.LabelSelects | src/item.rs:254-259 | the alternatives on a label run exactly that kind's body |
| Records.Dispatch | src/item.rs:250-261 | `Item::parse` of blanks, `#`, a label and a body is that kind's body parser on the body |
| Records.ParseItem | src/item.rs:250-261 | `Item::parse` never hands back more input than it got, and a record it returns has one value per field of its kind |
| Records.ParseItemTyped | src/item.rs:250-261 | every record `Item::parse` returns fits its kind's schema |
| Records.HashAfterBlanks | src/item.rs:251-254 | a parsed item starts with blanks and `#` |
| Records.LabelThenBody | src/item.rs:256 | a successful alternative consumed its label first |
| Records.ParseItemShape | src/item.rs:250-261 | any parsed input is blanks, `#`, the label of the parsed kind, then a body that kind's parser reads to the same result |
| Records.ParseItemProgress | src/item.rs:250-261 | a parsed item consumes at least one byte |
| Records.BlanksIncomplete | src/item.rs:251 | blanks alone ask for more input |
| Records.NoHashError | src/item.rs:254 | blanks followed by a byte other than `#` are an error |
| Records.UnknownLabel | src/item.rs:254-259 | a label whose first two letters match no kind is an error |
| Records.UnknownInitials | src/item.rs:254-259 | no alternative accepts unknown initials |
| Examples.KontoRecord | src/item.rs:359-362 | a KONTO body is its account number and its quoted name |
| Examples.KontoExample | src/item.rs:440-448 | the test: the KONTO line gives account 1220 named `Inventarier och verktyg`, stopping before the line break |
| Examples.ProgramRecord | src/item.rs:369-372 | a PROGRAM body is its quoted name and its unquoted version |
| Examples.ProgramExample | src/item.rs:237-244 | the documentation example: `#PROGRAM "Vi iMproved" 9.0` gives name `Vi iMproved` and version `9.0` |
| Examples.TransNoOptionsRecord | src/item.rs:387-395 | a TRANS body with account, empty objects and amount only has all four options `None` |
| Examples.TransDatedRecord | src/item.rs:387-395 | a TRANS body with date and text has those as `Some`, and quantity and signature `None` |
| Examples.Trans1Example | src/item.rs:495-508 | the test: ` 1930 {} 192.00 20230320 "Stonks"` gives account 1930, amount 192.00, the date and the text |
| Examples.Trans2Example | src/item.rs:510-523 | the test: ` 1930 {}\t\t 583.52` gives amount 583.52 with no options |
| Examples.TransCutShort | src/item.rs:525 | a TRANS body whose text is not followed by anything asks for more input |
| Examples.Trans3Example | src/item.rs:525 | the test: ` 1930 {} 583.52 "Stonks"` is an error (Incomplete) |
| Examples.TransHalves | src/item.rs:387-395 | a TRANS body of account, `{}`, amount, date and quoted text gives those values with quantity and signature `None` |
| Examples.TwoRecords | src/item.rs:134-138 | inside a region, two records of the label followed by bytes without `#` are read in order, and the loop ends |
| Examples.TwoSubItems | src/item.rs:127-141 | a brace block after a line break holding two records of the label gives both in order and leaves what follows the closing brace |
| Examples.VerTransactions | src/item.rs:452-456 | the test's block of two TRANS lines gives the two transactions, the first with amount -72.00 and the second with 72.00 |
| Examples.VerRecord | src/item.rs:405-413 | a VER body of series, number, date, quoted text and registration date, then its transaction block, gives those values with `sign` `None` |
| Examples.VerParse | src/item.rs:250-261 | `Item::parse` of `#VER`, such a header and a transaction block is that VER record |
| Examples.VerExample | src/item.rs:450-490 | the test: the `#VER A 42` input gives series A, number 42, both dates 14 March 2023, text `Pi Day`, no sign and the two `Pie` transactions, and leaves `\n\n# VER A 43` |
| StreamReader.ItemParseProgresses | src/reader.rs:45-48 | what `Item::parse` returns used at least one byte, which the reader relies on |
| StreamReader.ReadSize | src/reader.rs:39-41 | a read returns no bytes only at the end of the stream |
| StreamReader.FillBuf | src/reader.rs:39-43 | `fill_buf` returns a non-empty window unchanged, and otherwise reads within the stream |
| StreamReader.StepSpec | src/reader.rs:38-59 | one pass keeps the cursors in order and never consumes backwards; a record moves the position forward and the group to the record's, never back; no other outcome changes the group; `None`, a retry and the errors consume nothing |
| StreamReader.RunSpec | src/reader.rs:38-59 | the loop has the same guarantees as one pass: the position moves only with a record (or a panic), and the group only with a record, forward |
| StreamReader.StepValid | src/reader.rs:38-59 | one pass of the loop keeps the cursors in order |
| StreamReader.StepEnd | src/reader.rs:40 | a pass returns `None` exactly when the stream is used up and the read returns nothing |
| StreamReader.StepIo | src/reader.rs:42 | a pass returns the I/O error exactly when a needed read fails |
| StreamReader.StepEmit | src/reader.rs:45-54 | a returned record is what `Item::parse` made of the window; exactly its bytes are consumed; the group moves to its group and never back |
| StreamReader.StepParseError | src/reader.rs:57 | a parse error comes from an Error or Failure of `Item::parse`, and consumes nothing |
| StreamReader.StepGroup | src/reader.rs:50-52 | no pass moves the group back (a record from an earlier group aborts at the `assert!`) |
| StreamReader.RetryStuck | src/reader.rs:56 | after an Incomplete the window is non-empty, and the next pass sees the same window and retries again |
| StreamReader.RetryForever | src/reader.rs:38-59 | once a pass retries, `next` never returns, whatever the source does |
| StreamReader.BlankWindowRetries | src/reader.rs:56 | a window of blanks alone retries |
| StreamReader.TrailingLineBreakHangs | src/reader.rs:38-59 | with only the final line break left, `next` never returns |
| StreamReader.Session | src/reader.rs:34-37 | successive calls give one step each and keep the cursors in order |
| StreamReader.RunValid | src/reader.rs:37-60 | a call keeps the cursors in order and never moves the group back |
| StreamReader.RunEmit | src/reader.rs:52 | after a call returns a record, the reader's group is that record's group |
| StreamReader.SessionOrdered | src/reader.rs:50-52 | across any number of calls, the groups of the returned records never decrease |
| StreamReader.Reader.constructor | src/reader.rs:17-24 | `new`: nothing consumed or buffered, group Flag |
| StreamReader.Reader.Pass | src/reader.rs:39-58 | one pass changes the reader exactly as the step function says |
| StreamReader.Reader.Next | src/reader.rs:37-60 | the loop of `next` returns and changes the reader exactly as the loop specification says |
| StreamReader.DeliverSpec | src/reader.rs:37-60 | the corrected `next` keeps the cursors in order and never shrinks the buffer |
| StreamReader.DeliverReturns | src/reader.rs:38-59 | the corrected `next` always returns |
| StreamReader.DeliverEmit | src/reader.rs:45-54 | a record from the corrected `next` is what `Item::parse` made of the grown window, with exactly its bytes consumed and the group moved forward |
| StreamReader.DeliverEnd | src/reader.rs:40 | the corrected `next` ends only at the end of the stream with blanks alone left, consuming nothing |
| StreamReader.DeliverParseError | src/reader.rs:57 | a parse error of the corrected `next` consumes nothing; it comes from an Error or Failure on a non-empty window, or from a record cut off by the end of the stream |
| StreamReader.WaitingTailEnds | src/reader.rs:56 | when the parser keeps asking for more up to the end of the stream, the sequence ends if blanks alone are left and is a parse error otherwise |
| StreamReader.CutOffFails | src/item.rs:247-249 | a stream that stops inside a record, read in one go, gives a parse error and not `None` |
| StreamReader.CutOffTransFails | src/item.rs:494-526 | the cut-off TRANS line of the test, as the whole stream, gives a parse error |
| Examples.Trans3Item | src/item.rs:494-526 | `Item::parse` of the cut-off TRANS line of the test asks for more input |
| StreamReader.ItemParseWaits | src/item.rs:251 | `Item::parse` asks for more input on blanks alone |
| StreamReader.BlankTailEnds | src/reader.rs:40 | a tail of blanks ends the sequence |
| StreamReader.TrailingLineBreakEnds | src/reader.rs:40 | with the corrected `next`, a file ending in a line break ends cleanly |
| StreamReader.BufferedReader.constructor | src/reader.rs:17-24 | nothing consumed or buffered, group Flag |
| StreamReader.BufferedReader.Next | src/reader.rs:37-60 | the corrected `next` changes the reader as `DeliverSpec` says and always returns |

## Behaviour kept as written

The model follows the code in each of these cases, where the code's outcome is not the
obvious one.

- **Open brackets at the end of input.** Although the record parsers are streaming, the
  brace scanner does not ask for more input when the input ends with brackets still open:
  it returns a recoverable error (src/parsers.rs:120-124). A trailing lone backslash makes
  the scanner slice past the end, which panics; the model calls this `Panic`.
- **Element errors inside a brace region.** `many0` stops at the first element that fails
  recoverably, and the remainder of the region is dropped (src/item.rs:134-140, 155). The
  model returns the elements found so far.
- **Group order.** A record whose group comes before the previous one's fails the
  `assert!` at src/reader.rs:50, which panics. The model calls this `Abort`.
- **End of stream.** `Reader::next` does not end the sequence when the source runs dry with
  a record still incomplete: see Findings. `Reader` models the code as written. Two things
  in the repository point at a reader that buffers on its own: the commented-out `buf` and
  `pos` fields (src/reader.rs:12-13), and sie4-cli/src/main.rs:158, which hands
  `Reader::new` a plain `File`, a source without a buffer of its own. `BufferedReader`
  models such a reader: it grows its buffer until a record fits. When the stream has
  nothing more to give, it ends with `None` if only blanks are left. A record cut off by the
  end of the stream is a parse error, because `Item::parse` counts incomplete input as an
  error (src/item.rs:247-249).

## Findings

| source | as written | input that shows it | evidently intended | confidence | as-written member | corrected member |
|---|---|---|---|---|---|---|
| src/reader.rs:56 | on `Incomplete` the loop calls `fill_buf` again; with the window still unconsumed, `fill_buf` returns the same bytes without reading, so the loop never ends | a file `#FLAGGA 0\n`: after the record, the window holds only `\n`, which `Item::parse` answers with Incomplete | at the end of the stream, return `None` when only blanks are left, and a parse error for a record cut off | not executed | StreamReader.TrailingLineBreakHangs | StreamReader.TrailingLineBreakEnds |
| src/reader.rs:38-59 | a record that is not complete in the window makes `next` loop forever, because the window never grows | any record longer than what one read returns, e.g. `#KONTO 1220 "Inventarier och verktyg"\n` delivered 8 bytes per read | grow the buffer (the commented-out `buf` and `pos` fields at src/reader.rs:12-13) and parse again | not executed | StreamReader.RetryForever | StreamReader.DeliverReturns |

## Left out

- The byte-level helpers `unquoted_text`, `text`, `date`, `from_str`, `is_line_break` and
  `in_curly_braces` are not part of this revision of src/parsers.rs. `Lexical` assumes
  minimal definitions for them, as its header says.
- The underlying byte source is the environment. The length of each read and each I/O
  failure are inputs (`Poll`, `chunk`). `BufferedReader` does not model I/O errors.
- Spans are plain sequences. A remainder is modelled only by the bound on its length
  (`Consumes`), not as a suffix of the input, and `location_offset` is a length
  difference. Line and column tracking is not modelled.
- nom's `context` labels and error payloads are not modelled. All recoverable errors are one
  `Error`, and all hard failures are one `Failure`.
- `Panic` and `Abort` stand for Rust panics. The model does not say what happens after them.
- `dbg!` at src/parsers.rs:38 prints to standard error, which is not modelled.
- Many0: nom refuses an element that consumes nothing with an error. The model makes that an
  error whenever the rest is not shorter.
- Codec.ParseDecimal: plain notation only. There are no 96-bit or 28-digit limits, no
  underscores, no exponent, and no point without digits on both sides.
- Codec.Ascii: a character beyond ASCII becomes `?`. The model writes only ASCII literals.
- Codec.Cp437: the contract states only that bytes below 128 stay ASCII and bytes from 128
  up decode beyond ASCII. The table of code page 437 is written out, but no property ties
  it to the library's table.
- Codec.ParseCurrency: the list of codes is one snapshot of ISO 4217 alphabetic codes. It
  may differ from the `iso_currency` version the crate uses.
- Unbalanced.TakeUntilUnbalanced: the bracket counter is unbounded. The source's `i32`
  counter overflows only past 2^31 open brackets.
- Tokenizer.ParseField: `Field` and `Field::from_str` are not in this revision. The model
  assumes the conversion accepts every token and wraps it as `Field::Text`, as the test at
  src/parsers.rs:141-146 expects.
- Tokenizer: Unicode whitespace is Rust's `char::is_whitespace`. UTF-8 byte offsets are
  element positions.
- Results are not proved independent of how the stream is split into reads.
- src/main.rs, sie4-cli/src/main.rs, src/lib.rs and fuzz/fuzz_targets/reader.rs are callers
  and are not part of this model.
