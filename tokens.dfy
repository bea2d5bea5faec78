/**
 * The `proc_macro` token trees that `rust/module.rs` reads, and the small
 * helpers that pull one token off a token-stream iterator.
 *
 * An iterator is modelled by the sequence of tokens it has not yet produced:
 * every helper returns the rest of the stream alongside its value, and a Rust
 * panic becomes an `Err(MacroPanic)`.
 */
module Tokens {
  import opened Wrappers

  datatype Delimiter = Parenthesis | Brace | Bracket | NoDelimiter

  /** A token tree; `Literal` holds the literal's source text, e.g. `b"GPL"` or `42`. */
  datatype Token =
    | Ident(name: string)
    | Punct(ch: char)
    | Literal(text: string)
    | Group(delimiter: Delimiter, stream: seq<Token>)

  /** The panics of the macro, one per distinct message or failed `assert_eq!`. */
  datatype MacroPanic =
    | ExpectedIdent
    | EndOfStreamForPunct
    | ExpectedPunct
    | ExpectedLiteral
    | EndOfStreamForGroup
    | ExpectedGroup
    | ExpectedByteString
    | ByteStringSliceOutOfRange(text: string)
    | IdentMismatch(foundIdent: string, expectedIdent: string)
    | PunctMismatch(foundPunct: char, expectedPunct: char)
    | DelimiterMismatch(foundDelimiter: Delimiter, expectedDelimiter: Delimiter)
    | ExpectedEnd
    | EndOfStreamForParamType
    | ExpectedParamType
    | ExpectedUsizeLength(text: string)
    | UnrecognizedType(paramType: string)
    | ExpectedDefaultValue
    | ExpectedCommaOrEnd
    | ExpectedIdentOrEnd
    | DuplicatedKey(key: string)
    | UnknownKey(key: string)
    | MissingRequiredKey(key: string)
    | KeysNotOrdered(ordered: seq<string>)

  type Parsed<T> = Result<(T, seq<Token>), MacroPanic>

  /** `try_ident`: consumes one token; yields its text when it is an identifier. */
  function TryIdent(ts: seq<Token>): (r: (Option<string>, seq<Token>))
    ensures r.0.Some? <==> ts != [] && ts[0].Ident?
    ensures r.0.Some? ==> r.0.value == ts[0].name
    ensures r.1 == if ts == [] then [] else ts[1..]
  {
    if ts == [] then (None, [])
    else if ts[0].Ident? then (Some(ts[0].name), ts[1..])
    else (None, ts[1..])
  }

  /** `try_literal`: consumes one token; yields its text when it is a literal. */
  function TryLiteral(ts: seq<Token>): (r: (Option<string>, seq<Token>))
    ensures r.0.Some? <==> ts != [] && ts[0].Literal?
    ensures r.0.Some? ==> r.0.value == ts[0].text
    ensures r.1 == if ts == [] then [] else ts[1..]
  {
    if ts == [] then (None, [])
    else if ts[0].Literal? then (Some(ts[0].text), ts[1..])
    else (None, ts[1..])
  }

  /** True of the source text of a byte-string literal `b"…"`. */
  predicate IsByteStringText(text: string) {
    |text| >= 3 && text[..2] == "b\"" && text[|text| - 1] == '"'
  }

  /**
   * The check of `try_byte_string` on a literal's text: `Some(content)` when
   * the text starts with `b"` and ends with `"`. The two-character text `b"`
   * passes both tests and then makes the slice `[2..1]` panic.
   */
  function ByteStringContent(text: string): (r: Result<Option<string>, MacroPanic>)
    ensures r.Ok? && r.value.Some? <==> IsByteStringText(text)
    ensures r.Ok? && r.value.Some? ==> "b\"" + r.value.value + "\"" == text
    ensures r.Err? <==> text == "b\""
  {
    if |text| >= 2 && text[..2] == "b\"" && text[|text| - 1] == '"' then
      if |text| < 3 then Err(ByteStringSliceOutOfRange(text))
      else Ok(Some(text[2..|text| - 1]))
    else Ok(None)
  }

  /** `try_byte_string`: consumes one token; yields a byte string's content. */
  function TryByteString(ts: seq<Token>): (r: Result<(Option<string>, seq<Token>), MacroPanic>)
    ensures r.Ok? ==> r.value.1 == if ts == [] then [] else ts[1..]
    ensures r.Ok? && r.value.0.Some? <==> ts != [] && ts[0].Literal? && IsByteStringText(ts[0].text)
    ensures r.Ok? && r.value.0.Some? ==> ts[0] == Literal("b\"" + r.value.0.value + "\"")
    ensures r.Err? <==> ts != [] && ts[0] == Literal("b\"")
    ensures r.Err? ==> r.error == ByteStringSliceOutOfRange("b\"")
  {
    var (lit, rest) := TryLiteral(ts);
    if lit.None? then Ok((None, rest))
    else
      var content :- ByteStringContent(lit.value);
      Ok((content, rest))
  }

  /** `expect_ident` */
  function ExpectIdent(ts: seq<Token>): (r: Parsed<string>)
    ensures r.Ok? <==> ts != [] && ts[0].Ident?
    ensures r.Ok? ==> r.value == (ts[0].name, ts[1..])
    ensures r.Err? ==> r.error == ExpectedIdent
  {
    var (id, rest) := TryIdent(ts);
    if id.Some? then Ok((id.value, rest)) else Err(ExpectedIdent)
  }

  /** `expect_punct` */
  function ExpectPunct(ts: seq<Token>): (r: Parsed<char>)
    ensures r.Ok? <==> ts != [] && ts[0].Punct?
    ensures r.Ok? ==> r.value == (ts[0].ch, ts[1..])
  {
    if ts == [] then Err(EndOfStreamForPunct)
    else if ts[0].Punct? then Ok((ts[0].ch, ts[1..]))
    else Err(ExpectedPunct)
  }

  /** `assert_eq!(expect_punct(it), c)` */
  function ExpectPunctChar(ts: seq<Token>, c: char): (r: Result<seq<Token>, MacroPanic>)
    ensures r.Ok? <==> ts != [] && ts[0] == Punct(c)
    ensures r.Ok? ==> r.value == ts[1..]
  {
    var p :- ExpectPunct(ts);
    if p.0 == c then Ok(p.1) else Err(PunctMismatch(p.0, c))
  }

  /** `expect_literal` */
  function ExpectLiteral(ts: seq<Token>): (r: Parsed<string>)
    ensures r.Ok? <==> ts != [] && ts[0].Literal?
    ensures r.Ok? ==> r.value == (ts[0].text, ts[1..])
  {
    var (lit, rest) := TryLiteral(ts);
    if lit.Some? then Ok((lit.value, rest)) else Err(ExpectedLiteral)
  }

  /** `expect_group` */
  function ExpectGroup(ts: seq<Token>): (r: Parsed<Token>)
    ensures r.Ok? <==> ts != [] && ts[0].Group?
    ensures r.Ok? ==> r.value == (ts[0], ts[1..])
  {
    if ts == [] then Err(EndOfStreamForGroup)
    else if ts[0].Group? then Ok((ts[0], ts[1..]))
    else Err(ExpectedGroup)
  }

  /** `expect_byte_string` */
  function ExpectByteString(ts: seq<Token>): (r: Parsed<string>)
    ensures r.Ok? <==> ts != [] && ts[0].Literal? && IsByteStringText(ts[0].text)
    ensures r.Ok? ==> ts[0] == Literal("b\"" + r.value.0 + "\"") && r.value.1 == ts[1..]
  {
    var p :- TryByteString(ts);
    if p.0.Some? then Ok((p.0.value, p.1)) else Err(ExpectedByteString)
  }

  /** `expect_end` */
  function ExpectEnd(ts: seq<Token>): (r: Result<(), MacroPanic>)
    ensures r.Ok? <==> ts == []
  {
    if ts != [] then Err(ExpectedEnd) else Ok(())
  }

  /** `get_literal`: reads `expected_name : <literal> ,` and yields the literal's text. */
  function GetLiteral(ts: seq<Token>, expectedName: string): (r: Parsed<string>)
    ensures r.Ok? <==>
      |ts| >= 4 && ts[0] == Ident(expectedName) && ts[1] == Punct(':')
      && ts[2].Literal? && ts[3] == Punct(',')
    ensures r.Ok? ==> r.value == (ts[2].text, ts[4..])
  {
    var id :- ExpectIdent(ts);
    if id.0 != expectedName then Err(IdentMismatch(id.0, expectedName))
    else
      var afterColon :- ExpectPunctChar(id.1, ':');
      var lit :- ExpectLiteral(afterColon);
      var rest :- ExpectPunctChar(lit.1, ',');
      Ok((lit.0, rest))
  }

  /** `get_byte_string`: reads `expected_name : b"<content>" ,` and yields the content. */
  function GetByteString(ts: seq<Token>, expectedName: string): (r: Parsed<string>)
    ensures r.Ok? <==>
      |ts| >= 4 && ts[0] == Ident(expectedName) && ts[1] == Punct(':')
      && ts[2].Literal? && IsByteStringText(ts[2].text) && ts[3] == Punct(',')
    ensures r.Ok? ==> ts[2] == Literal("b\"" + r.value.0 + "\"") && r.value.1 == ts[4..]
  {
    var id :- ExpectIdent(ts);
    if id.0 != expectedName then Err(IdentMismatch(id.0, expectedName))
    else
      var afterColon :- ExpectPunctChar(id.1, ':');
      var bs :- ExpectByteString(afterColon);
      var rest :- ExpectPunctChar(bs.1, ',');
      Ok((bs.0, rest))
  }

  /** Round trip: a byte-string literal built from any content reads back as that content. */
  lemma GetByteStringRoundTrip(name: string, content: string, rest: seq<Token>)
    ensures GetByteString([Ident(name), Punct(':'), Literal("b\"" + content + "\""), Punct(',')] + rest, name)
            == Ok((content, rest))
  {
    var text := "b\"" + content + "\"";
    assert text[..2] == "b\"";
    assert text[2..|text| - 1] == content;
  }
}
