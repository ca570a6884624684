/** The byte-level lexical helpers that src/item.rs imports from its `parsers` module:
    `is_whitespace`, `is_line_break`, `unquoted_text`, `text`, `date`, `from_str` and
    `in_curly_braces`.  The revision of src/parsers.rs in this repository predates them (it
    works on `&str`), so each definition below is a minimal assumption, built from the
    separator predicates and the brace scanner that file does contain:

    - `is_whitespace` and `is_line_break` are the predicates of src/parsers.rs:18-24 on
      bytes;
    - `unquoted_text` is a streaming run of one or more bytes that are not a separator, a
      quote, `#`, `{` or `}`;
    - quoted text runs from `"` to the next `"` not escaped by a backslash, with `\"`
      standing for a quote; an unterminated quote asks for more input;
    - `text` is quoted text or else unquoted text, decoded from PC8;
    - `date` and `from_str` decode a token and parse all of it;
    - `in_curly_braces` is `{`, the brace scanner of src/parsers.rs:82-126, then `}`. */
module Lexical {
  import opened Nom
  import opened Codec
  import opened Unbalanced

  predicate IsWhitespace(b: byte) {
    b == ' ' as int || b == '\t' as int
  }

  predicate IsLineBreak(b: byte) {
    b == '\n' as int || b == '\r' as int
  }

  predicate IsBlank(b: byte) {
    IsWhitespace(b) || IsLineBreak(b)
  }

  /** A byte that may appear in unquoted text. */
  predicate IsUnquoted(b: byte) {
    !IsBlank(b) && b != '"' as int && b != '#' as int && b != '{' as int && b != '}' as int
  }

  /** `unquoted_text`: a streaming run of one or more unquoted bytes. */
  function UnquotedText(i: seq<byte>): (r: Res<byte, seq<byte>>)
    ensures Consumes(r, i)
    ensures r.Incomplete? <==> forall k :: 0 <= k < |i| ==> IsUnquoted(i[k])
    ensures r.Error? <==> i != [] && !IsUnquoted(i[0])
    ensures r.Done? ==> i == r.value + r.rest && r.value != [] && r.rest != [] && !IsUnquoted(r.rest[0])
    ensures r.Done? ==> forall k :: 0 <= k < |r.value| ==> IsUnquoted(r.value[k])
    ensures r.Done? || r.Incomplete? || r.Error?
  {
    TakeWhile1(IsUnquoted, i)
  }

  /** The position of the quote that closes a quoted text, scanning from `k`; a backslash
      takes the byte after it along.  None when the input runs out first. */
  function ClosingQuote(i: seq<byte>, k: nat): (r: Option<nat>)
    ensures r.Some? ==> k <= r.value < |i| && i[r.value] == '"' as int
    decreases |i| - k
  {
    if k >= |i| then None
    else if i[k] == '\\' as int then ClosingQuote(i, k + 2)
    else if i[k] == '"' as int then Some(k)
    else ClosingQuote(i, k + 1)
  }

  /** The text of a quoted body: an escaped quote stands for a quote; every other byte,
      backslashes included, stands for itself. */
  function Unescape(s: seq<byte>): seq<byte> {
    if |s| >= 2 && s[0] == '\\' as int && s[1] == '"' as int then ['"' as int] + Unescape(s[2..])
    else if s == [] then []
    else [s[0]] + Unescape(s[1..])
  }

  /** Quoted text: `"`, a body, the closing `"`. */
  function QuotedText(i: seq<byte>): (r: Res<byte, seq<byte>>)
    ensures Consumes(r, i)
    ensures r.Incomplete? <==> i == [] || (i[0] == '"' as int && ClosingQuote(i, 1).None?)
    ensures r.Error? <==> i != [] && i[0] != '"' as int
    ensures r.Done? ==> i[0] == '"' as int && ClosingQuote(i, 1).Some?
                        && r.rest == i[ClosingQuote(i, 1).value + 1..]
                        && r.value == Unescape(i[1..ClosingQuote(i, 1).value])
    ensures r.Done? || r.Incomplete? || r.Error?
  {
    if i == [] then Incomplete
    else if i[0] != '"' as int then Error
    else
      match ClosingQuote(i, 1)
      case None => Incomplete
      case Some(e) => Done(i[e + 1..], Unescape(i[1..e]))
  }

  /** The body that writes `s` inside quotes: each quote escaped. */
  function Escape(s: seq<byte>): seq<byte> {
    if s == [] then []
    else if s[0] == '"' as int then ['\\' as int, '"' as int] + Escape(s[1..])
    else [s[0]] + Escape(s[1..])
  }

  /** Text without quotes is written as it is. */
  lemma {:induction false} EscapeNoQuote(s: seq<byte>)
    requires forall k :: 0 <= k < |s| ==> s[k] != '"' as int
    ensures Escape(s) == s
  {
    if s != [] {
      EscapeNoQuote(s[1..]);
    }
  }

  predicate NoBackslash(s: seq<byte>) {
    forall k :: 0 <= k < |s| ==> s[k] != '\\' as int
  }

  /** Unescaping undoes escaping for text without backslashes. */
  lemma {:induction false} UnescapeEscape(s: seq<byte>)
    requires NoBackslash(s)
    ensures Unescape(Escape(s)) == s
  {
    if s != [] {
      UnescapeEscape(s[1..]);
      if s[0] == '"' as int {
        assert (['\\' as int, '"' as int] + Escape(s[1..]))[2..] == Escape(s[1..]);
      } else {
        var e := [s[0]] + Escape(s[1..]);
        assert e[1..] == Escape(s[1..]);
        assert s == [s[0]] + s[1..];
      }
    }
  }

  /** Scanning an escaped body finds the quote written after it. */
  lemma {:induction false} ClosingQuoteAfterEscape(pre: seq<byte>, s: seq<byte>, post: seq<byte>)
    requires NoBackslash(s)
    requires post != [] && post[0] == '"' as int
    ensures ClosingQuote(pre + Escape(s) + post, |pre|) == Some(|pre| + |Escape(s)|)
    decreases |s|
  {
    var i := pre + Escape(s) + post;
    if s == [] {
      assert i[|pre|] == post[0];
    } else {
      var head := if s[0] == '"' as int then ['\\' as int, '"' as int] else [s[0]];
      assert Escape(s) == head + Escape(s[1..]);
      assert i == (pre + head) + Escape(s[1..]) + post;
      assert i[|pre|] == head[0];
      ClosingQuoteAfterEscape(pre + head, s[1..], post);
    }
  }

  /** Quoted text reads back any backslash-free text written with its quotes escaped. */
  lemma QuotedRoundTrip(s: seq<byte>, rest: seq<byte>)
    requires NoBackslash(s)
    ensures QuotedText(['"' as int] + Escape(s) + ['"' as int] + rest) == Done(rest, s)
  {
    var i := ['"' as int] + Escape(s) + ['"' as int] + rest;
    ClosingQuoteAfterEscape(['"' as int], s, ['"' as int] + rest);
    assert i == ['"' as int] + Escape(s) + (['"' as int] + rest);
    var e := 1 + |Escape(s)|;
    assert i[1..e] == Escape(s);
    assert i[e + 1..] == rest;
    UnescapeEscape(s);
  }

  /** `text`: quoted text, or else unquoted text, decoded from PC8. */
  function Text(i: seq<byte>): (r: Res<byte, string>)
    ensures Consumes(r, i)
    ensures r.Error? <==> i != [] && i[0] != '"' as int && !IsUnquoted(i[0])
    ensures r.Incomplete? <==> QuotedText(i).Incomplete?
                               || (QuotedText(i).Error? && UnquotedText(i).Incomplete?)
    ensures r.Done? ==> (QuotedText(i).Done? && r == Done(QuotedText(i).rest, Decode(QuotedText(i).value)))
                        || (QuotedText(i).Error? && UnquotedText(i).Done?
                            && r == Done(UnquotedText(i).rest, Decode(UnquotedText(i).value)))
  {
    Map(s => Alt2(QuotedText, UnquotedText, s), Decode, i)
  }

  /** `from_str`: decode the whole token and parse it; a parse error is a recoverable Error
      and nothing is left over. */
  function FromStr<T>(parse: string -> Option<T>, s: seq<byte>): (r: Res<byte, T>)
    ensures r.Done? <==> parse(Decode(s)).Some?
    ensures r.Done? ==> r == Done([], parse(Decode(s)).value)
    ensures r.Done? || r.Error?
  {
    match parse(Decode(s))
    case Some(v) => Done([], v)
    case None => Error
  }

  /** `date`: the whole token as `[year][month][day]`. */
  function DateToken(s: seq<byte>): (r: Res<byte, Date>)
    ensures r.Done? <==> ParseDate(Decode(s)).Some?
    ensures r.Done? ==> ValidDate(r.value)
    ensures r.Done? || r.Error?
  {
    FromStr(ParseDate, s)
  }

  const ByteBraces: Brackets<byte> := Brackets('{' as int, '}' as int, '\\' as int)

  /** `in_curly_braces`: `{`, the region up to its unmatched `}`, then that `}`. */
  function InCurlyBraces(i: seq<byte>): (r: Res<byte, seq<byte>>)
    ensures Consumes(r, i)
    ensures r.Done? ==> i == ['{' as int] + r.value + ['}' as int] + r.rest
  {
    Delimited(s => Char('{' as int, s), s => TakeUntilUnbalancedSpec(s, ByteBraces), s => Char('}' as int, s), i)
  }

  /** A region without braces or backslashes is taken whole, and the remainder starts
      after its closing brace. */
  lemma PlainRegion(c: seq<byte>, rest: seq<byte>)
    requires forall k :: 0 <= k < |c| ==> !IsSpecial(ByteBraces, c[k])
    ensures InCurlyBraces(['{' as int] + c + ['}' as int] + rest) == Done(rest, c)
  {
    var i := ['{' as int] + c + ['}' as int] + rest;
    var inner := c + (['}' as int] + rest);
    assert i[1..] == inner;
    ScanSkipsPlain(inner, ByteBraces, 0, |c|, 0);
    assert inner[|c|] == '}' as int;
    assert inner[..|c|] == c && inner[|c|..] == ['}' as int] + rest;
    assert (['}' as int] + rest)[1..] == rest;
  }

  /** A region whose scan stops at a closing brace is taken as the scan found it, and
      the remainder starts after that brace. */
  lemma BracedRegion(c: seq<byte>, rest: seq<byte>)
    requires TakeUntilUnbalancedSpec(c + (['}' as int] + rest), ByteBraces) == Done(['}' as int] + rest, c)
    ensures InCurlyBraces(['{' as int] + (c + (['}' as int] + rest))) == Done(rest, c)
  {
    var i := ['{' as int] + (c + (['}' as int] + rest));
    assert i[1..] == c + (['}' as int] + rest);
    assert (['}' as int] + rest)[1..] == rest;
  }
}
