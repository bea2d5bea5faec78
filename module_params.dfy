/**
 * A module parameter's declared type and its `default:` entry, as the
 * `module!` macro reads them from the `params` group.
 */
module ModuleParams {
  import opened Wrappers
  import opened Errno
  import opened Tokens
  import opened RustNumbers

  /** `ParamType`: a scalar type name, or `ArrayParam<vals, max_length>`. */
  datatype ParamType = IdentType(name: string) | ArrayType(vals: string, maxLength: nat)

  /** `expect_array_fields`: `< vals , max_length >`, the length a decimal `usize`. */
  function ExpectArrayFields(ts: seq<Token>): (r: Parsed<ParamType>)
    ensures r.Ok? <==>
      |ts| >= 5 && ts[0] == Punct('<') && ts[1].Ident? && ts[2] == Punct(',')
      && ts[3].Literal? && FromStrRadix(ts[3].text, 10, USIZE_MAX).Some? && ts[4] == Punct('>')
    ensures r.Ok? ==>
      r.value == (ArrayType(ts[1].name, FromStrRadix(ts[3].text, 10, USIZE_MAX).value), ts[5..])
  {
    var afterOpen :- ExpectPunctChar(ts, '<');
    var vals :- ExpectIdent(afterOpen);
    var afterComma :- ExpectPunctChar(vals.1, ',');
    var lengthText :- ExpectLiteral(afterComma);
    var maxLength := FromStrRadix(lengthText.0, 10, USIZE_MAX);
    if maxLength.None? then Err(ExpectedUsizeLength(lengthText.0))
    else
      var rest :- ExpectPunctChar(lengthText.1, '>');
      Ok((ArrayType(vals.0, maxLength.value), rest))
  }

  /** `expect_type`: `ArrayParam<…>` or any other identifier, taken as a scalar type. */
  function ExpectType(ts: seq<Token>): (r: Parsed<ParamType>)
    ensures ts == [] ==> r == Err(EndOfStreamForParamType)
    ensures ts != [] && !ts[0].Ident? ==> r == Err(ExpectedParamType)
    ensures ts != [] && ts[0].Ident? && ts[0].name != "ArrayParam" ==> r == Ok((IdentType(ts[0].name), ts[1..]))
    ensures r.Ok? && r.value.0.IdentType? ==>
      ts[0] == Ident(r.value.0.name) && r.value.0.name != "ArrayParam" && r.value.1 == ts[1..]
    ensures r.Ok? && r.value.0.ArrayType? ==>
      ts[0] == Ident("ArrayParam") && r == ExpectArrayFields(ts[1..])
  {
    if ts == [] then Err(EndOfStreamForParamType)
    else if !ts[0].Ident? then Err(ExpectedParamType)
    else if ts[0].name == "ArrayParam" then ExpectArrayFields(ts[1..])
    else Ok((IdentType(ts[0].name), ts[1..]))
  }

  /** The tokens of `ArrayParam<vals, n>` with `n` written in decimal. */
  function ArrayTypeTokens(vals: string, n: nat): seq<Token> {
    [Ident("ArrayParam"), Punct('<'), Ident(vals), Punct(','), Literal(NatToDecimal(n)), Punct('>')]
  }

  /** An array type written out with any `usize` length reads back as that type. */
  lemma ExpectTypeArrayRoundTrip(vals: string, n: nat, rest: seq<Token>)
    requires n <= USIZE_MAX
    ensures ExpectType(ArrayTypeTokens(vals, n) + rest) == Ok((ArrayType(vals, n), rest))
  {
    DecimalRoundTrip(n, USIZE_MAX);
    var ts := ArrayTypeTokens(vals, n) + rest;
    assert ts[1..][5..] == rest;
  }

  /** `generated_array_ops_name` */
  function GeneratedArrayOpsName(vals: string, maxLength: nat): string {
    "__generated_array_ops_" + vals + "_" + NatToDecimal(maxLength)
  }

  /** Arrays of one element type but of different lengths get different ops statics. */
  lemma GeneratedArrayOpsNameInjective(vals: string, n: nat, m: nat)
    requires GeneratedArrayOpsName(vals, n) == GeneratedArrayOpsName(vals, m)
    ensures n == m
  {
    var prefix := "__generated_array_ops_" + vals + "_";
    assert GeneratedArrayOpsName(vals, n) == prefix + NatToDecimal(n);
    assert GeneratedArrayOpsName(vals, m) == prefix + NatToDecimal(m);
    assert (prefix + NatToDecimal(n))[|prefix|..] == NatToDecimal(n);
    assert (prefix + NatToDecimal(m))[|prefix|..] == NatToDecimal(m);
    DecimalDigitsRoundTrip(n);
    DecimalDigitsRoundTrip(m);
  }

  /** The Rust expression a `str` default becomes. */
  function StringParamRef(content: string): string {
    "kernel::module_param::StringParam::Ref(b\"" + content + "\")"
  }

  /**
   * `try_simple_param_val`: reads one default value of a scalar type, consuming
   * one token. A `bool` is an identifier (`true`, `false`), a `str` is a byte
   * string, every other type a literal.
   */
  function TryParamVal(paramType: string, ts: seq<Token>): (r: Result<(Option<string>, seq<Token>), MacroPanic>)
    ensures r.Ok? ==> r.value.1 == if ts == [] then [] else ts[1..]
    ensures r.Ok? && r.value.0.Some? <==>
      ts != [] &&
      (if paramType == "bool" then ts[0].Ident?
       else if paramType == "str" then ts[0].Literal? && IsByteStringText(ts[0].text)
       else ts[0].Literal?)
    ensures r.Err? ==> paramType == "str"
    ensures r.Ok? && r.value.0.Some? && paramType == "bool" ==> r.value.0.value == ts[0].name
    ensures r.Ok? && r.value.0.Some? && paramType == "str" ==>
      exists content :: ts[0] == Literal("b\"" + content + "\"") && r.value.0.value == StringParamRef(content)
    ensures r.Ok? && r.value.0.Some? && paramType != "bool" && paramType != "str" ==>
      r.value.0.value == ts[0].text
  {
    if paramType == "bool" then Ok(TryIdent(ts))
    else if paramType == "str" then
      var p :- TryByteString(ts);
      Ok((if p.0.Some? then Some(StringParamRef(p.0.value)) else None, p.1))
    else Ok(TryLiteral(ts))
  }

  /** A scalar type whose default values are plain literals. */
  predicate LiteralValued(paramType: string) {
    paramType != "bool" && paramType != "str"
  }

  /**
   * The array branch of `get_default` as written: values separated by `,`
   * are collected until `try_param_val` yields none, and the tokens from the
   * one it yielded none for to the end of the brackets are dropped without a
   * panic. Each value but the last takes its own token and a `,`.
   */
  function ArrayDefaultsAsWritten(vals: string, ts: seq<Token>): (r: Result<seq<string>, MacroPanic>)
    ensures ts == [] ==> r == Ok([])
    ensures r.Ok? ==> 2 * |r.value| <= |ts| + 1
    decreases |ts|
  {
    var p :- TryParamVal(vals, ts);
    if p.0.None? then Ok([])
    else
      var rest := p.1;
      if rest == [] then Ok([p.0.value])
      else if rest[0] == Punct(',') then
        var more :- ArrayDefaultsAsWritten(vals, rest[1..]);
        Ok([p.0.value] + more)
      else if rest[0].Punct? then Err(PunctMismatch(rest[0].ch, ','))
      else Err(ExpectedCommaOrEnd)
  }

  /**
   * The array branch of `get_default` as intended: the brackets hold values
   * separated by `,` with an optional trailing `,`; a token that is not a
   * value where one is due panics like the scalar branch does.
   */
  function ArrayDefaults(vals: string, ts: seq<Token>): (r: Result<seq<string>, MacroPanic>)
    decreases |ts|
  {
    if ts == [] then Ok([])
    else
      var p :- TryParamVal(vals, ts);
      if p.0.None? then Err(ExpectedDefaultValue)
      else
        var rest := p.1;
        if rest == [] then Ok([p.0.value])
        else if rest[0] == Punct(',') then
          var more :- ArrayDefaults(vals, rest[1..]);
          Ok([p.0.value] + more)
        else if rest[0].Punct? then Err(PunctMismatch(rest[0].ch, ','))
        else Err(ExpectedCommaOrEnd)
  }

  /** `defaults` put in front of the values of a successful parse. */
  function Prepend(defaults: seq<string>, r: Result<seq<string>, MacroPanic>): Result<seq<string>, MacroPanic> {
    if r.Ok? then Ok(defaults + r.value) else r
  }

  lemma PrependAssoc(a: seq<string>, b: seq<string>, r: Result<seq<string>, MacroPanic>)
    ensures Prepend(a + b, r) == Prepend(a, Prepend(b, r))
  {
    if r.Ok? {
      assert (a + b) + r.value == a + (b + r.value);
    }
  }

  lemma PrependNothing(a: seq<string>, r: Result<seq<string>, MacroPanic>)
    ensures Prepend([], r) == r && Prepend(a, Ok([])) == Ok(a)
  {
    assert a + [] == a;
    if r.Ok? {
      assert [] + r.value == r.value;
    }
  }

  /**
   * The `while let` loop of `get_default`'s array branch: values are read
   * while `try_param_val` yields one, each followed by `,` or the end.
   */
  method CollectArrayDefaults(vals: string, ts: seq<Token>) returns (r: Result<seq<string>, MacroPanic>)
    ensures r == ArrayDefaultsAsWritten(vals, ts)
  {
    var defaults: seq<string> := [];
    var it := ts;
    PrependNothing(defaults, ArrayDefaultsAsWritten(vals, ts));
    while true
      invariant ArrayDefaultsAsWritten(vals, ts) == Prepend(defaults, ArrayDefaultsAsWritten(vals, it))
      decreases |it|
    {
      var p := TryParamVal(vals, it);
      if p.Err? {
        return Err(p.error);
      }
      if p.value.0.None? {
        PrependNothing(defaults, ArrayDefaultsAsWritten(vals, it));
        return Ok(defaults);
      }
      var v := p.value.0.value;
      var rest := p.value.1;
      if rest == [] {
        return Ok(defaults + [v]);
      } else if rest[0] == Punct(',') {
        assert ArrayDefaultsAsWritten(vals, it) == Prepend([v], ArrayDefaultsAsWritten(vals, rest[1..]));
        PrependAssoc(defaults, [v], ArrayDefaultsAsWritten(vals, rest[1..]));
        defaults := defaults + [v];
        it := rest[1..];
      } else if rest[0].Punct? {
        return Err(PunctMismatch(rest[0].ch, ','));
      } else {
        return Err(ExpectedCommaOrEnd);
      }
    }
  }

  /** The tokens of literal values separated by `,`. */
  function DefaultTokens(values: seq<string>): (ts: seq<Token>)
    decreases |values|
  {
    if values == [] then []
    else if |values| == 1 then [Literal(values[0])]
    else [Literal(values[0]), Punct(',')] + DefaultTokens(values[1..])
  }

  /** Any list of literal values, written with or without a trailing `,`, reads back as itself. */
  /** A literal value followed by `,` contributes that value in front of the rest. */
  lemma ArrayDefaultsCons(vals: string, v: string, more: seq<Token>)
    requires LiteralValued(vals)
    ensures ArrayDefaults(vals, [Literal(v), Punct(',')] + more) == Prepend([v], ArrayDefaults(vals, more))
  {
    var ts := [Literal(v), Punct(',')] + more;
    assert ts[0] == Literal(v) && ts[1..] == [Punct(',')] + more;
    assert TryParamVal(vals, ts) == Ok((Some(v), [Punct(',')] + more));
    assert ([Punct(',')] + more)[1..] == more;
  }

  /** A single literal value is a list of one. */
  lemma ArrayDefaultsSingle(vals: string, v: string)
    requires LiteralValued(vals)
    ensures ArrayDefaults(vals, [Literal(v)]) == Ok([v])
  {
    assert TryParamVal(vals, [Literal(v)]) == Ok((Some(v), []));
  }

  lemma {:induction false} ArrayDefaultsRoundTrip(vals: string, values: seq<string>, trailingComma: bool)
    requires LiteralValued(vals)
    ensures ArrayDefaults(vals, DefaultTokens(values) + (if trailingComma && values != [] then [Punct(',')] else []))
            == Ok(values)
    decreases |values|
  {
    var tail: seq<Token> := if trailingComma && values != [] then [Punct(',')] else [];
    var ts := DefaultTokens(values) + tail;
    if values == [] {
      assert ts == [];
    } else if |values| == 1 {
      assert [values[0]] == values;
      if trailingComma {
        assert ts == [Literal(values[0]), Punct(',')] + [];
        ArrayDefaultsCons(vals, values[0], []);
        assert [values[0]] + [] == values;
      } else {
        assert ts == [Literal(values[0])];
        ArrayDefaultsSingle(vals, values[0]);
      }
    } else {
      ArrayDefaultsRoundTrip(vals, values[1..], trailingComma);
      assert ts == [Literal(values[0]), Punct(',')] + (DefaultTokens(values[1..]) + tail);
      ArrayDefaultsCons(vals, values[0], DefaultTokens(values[1..]) + tail);
      assert [values[0]] + values[1..] == values;
    }
  }

  /**
   * Conversely, every token stream the intended collector accepts for a
   * literal-valued type is such a list, possibly with a trailing `,`.
   */
  lemma {:induction false} ArrayDefaultsSound(vals: string, ts: seq<Token>)
    requires LiteralValued(vals) && ArrayDefaults(vals, ts).Ok?
    ensures ts == DefaultTokens(ArrayDefaults(vals, ts).value)
         || (ArrayDefaults(vals, ts).value != []
             && ts == DefaultTokens(ArrayDefaults(vals, ts).value) + [Punct(',')])
    decreases |ts|
  {
    if ts != [] {
      var v := ts[0].text;
      var rest := ts[1..];
      if rest == [] {
        assert ts == [Literal(v)];
      } else {
        assert rest[0] == Punct(',');
        ArrayDefaultsSound(vals, rest[1..]);
        var more := ArrayDefaults(vals, rest[1..]).value;
        assert ArrayDefaults(vals, ts).value == [v] + more;
        if more == [] {
          assert rest[1..] == [];
          assert ts == [Literal(v), Punct(',')];
          assert DefaultTokens([v] + more) == [Literal(v)];
        } else {
          assert ([v] + more)[1..] == more;
          assert ts == [Literal(v), Punct(',')] + rest[1..];
        }
      }
    }
  }

  /** Where the collector as written accepts, it agrees with the intended one whenever that one accepts. */
  lemma {:induction false} ArrayDefaultsAgree(vals: string, ts: seq<Token>)
    requires ArrayDefaults(vals, ts).Ok?
    ensures ArrayDefaultsAsWritten(vals, ts) == ArrayDefaults(vals, ts)
    decreases |ts|
  {
    if ts != [] {
      var p := TryParamVal(vals, ts).value;
      if p.1 != [] && p.1[0] == Punct(',') {
        ArrayDefaultsAgree(vals, p.1[1..]);
      }
    }
  }

  /**
   * The default `[-1, 2]` of an `ArrayParam<i32, …>` reaches the macro as
   * `-`, `1`, `,`, `2`: the collector as written stops at the `-` and
   * yields no values at all, where the intended one panics.
   */
  lemma NegativeArrayDefaultDropped()
    ensures ArrayDefaultsAsWritten("i32", [Punct('-'), Literal("1"), Punct(','), Literal("2")]) == Ok([])
    ensures ArrayDefaults("i32", [Punct('-'), Literal("1"), Punct(','), Literal("2")]) == Err(ExpectedDefaultValue)
  {
  }

  /** `[1, x, 3]` of an `ArrayParam<i32, …>`: as written only the `1` is kept. */
  lemma StrayTokenTruncatesArrayDefault()
    ensures ArrayDefaultsAsWritten("i32", [Literal("1"), Punct(','), Ident("x"), Punct(','), Literal("3")]) == Ok(["1"])
    ensures ArrayDefaults("i32", [Literal("1"), Punct(','), Ident("x"), Punct(','), Literal("3")]) == Err(ExpectedDefaultValue)
  {
    var ts := [Literal("1"), Punct(','), Ident("x"), Punct(','), Literal("3")];
    assert ts[1..][1..] == [Ident("x"), Punct(','), Literal("3")];
    assert ["1"] + [] == ["1"];
  }

  /** As written, a literal value followed by `,` contributes that value in front of the rest. */
  lemma ArrayDefaultsAsWrittenCons(vals: string, v: string, more: seq<Token>)
    requires LiteralValued(vals)
    ensures ArrayDefaultsAsWritten(vals, [Literal(v), Punct(',')] + more)
            == Prepend([v], ArrayDefaultsAsWritten(vals, more))
  {
    var ts := [Literal(v), Punct(',')] + more;
    assert ts[0] == Literal(v) && ts[1..] == [Punct(',')] + more;
    assert TryParamVal(vals, ts) == Ok((Some(v), [Punct(',')] + more));
    assert ([Punct(',')] + more)[1..] == more;
  }

  /**
   * As written, the values before the first token that is not a literal are
   * kept and everything from that token on is dropped without a panic.
   */
  lemma {:induction false} ArrayDefaultsTruncate(vals: string, values: seq<string>, junk: seq<Token>)
    requires LiteralValued(vals) && junk != [] && !junk[0].Literal?
    ensures ArrayDefaultsAsWritten(vals, DefaultTokens(values) + (if values != [] then [Punct(',')] else []) + junk)
            == Ok(values)
    decreases |values|
  {
    var sep: seq<Token> := if values != [] then [Punct(',')] else [];
    var ts := DefaultTokens(values) + sep + junk;
    if values == [] {
      assert ts == junk;
      assert TryParamVal(vals, junk).value.0.None?;
    } else if |values| == 1 {
      assert ts == [Literal(values[0]), Punct(',')] + junk;
      ArrayDefaultsAsWrittenCons(vals, values[0], junk);
      assert TryParamVal(vals, junk).value.0.None?;
      assert [values[0]] + [] == values;
    } else {
      ArrayDefaultsTruncate(vals, values[1..], junk);
      assert ts == [Literal(values[0]), Punct(',')] + (DefaultTokens(values[1..]) + [Punct(',')] + junk);
      ArrayDefaultsAsWrittenCons(vals, values[0], DefaultTokens(values[1..]) + [Punct(',')] + junk);
      assert [values[0]] + values[1..] == values;
    }
  }

  /** `values.join(",")` */
  function Join(values: seq<string>, sep: string): string
    decreases |values|
  {
    if values == [] then ""
    else if |values| == 1 then values[0]
    else values[0] + sep + Join(values[1..], sep)
  }

  /** The Rust expression an array default becomes. */
  function ArrayParamCreate(values: seq<string>): string {
    "kernel::module_param::ArrayParam::create(&[" + Join(values, ",") + "])"
  }

  /**
   * `get_default`: `default : <value> ,` where the value is one scalar
   * value, or for an array type a bracketed list of them.
   */
  function GetDefault(paramType: ParamType, ts: seq<Token>): (r: Parsed<string>)
    ensures r.Ok? ==>
      |ts| >= 4 && ts[0] == Ident("default") && ts[1] == Punct(':') && ts[3] == Punct(',')
      && r.value.1 == ts[4..]
    ensures r.Ok? && paramType.ArrayType? ==>
      ts[2].Group? && ts[2].delimiter == Bracket && ArrayDefaultsAsWritten(paramType.vals, ts[2].stream).Ok?
      && r.value.0 == ArrayParamCreate(ArrayDefaultsAsWritten(paramType.vals, ts[2].stream).value)
  {
    var name :- ExpectIdent(ts);
    if name.0 != "default" then Err(IdentMismatch(name.0, "default"))
    else
      var afterColon :- ExpectPunctChar(name.1, ':');
      var value :- DefaultValue(paramType, afterColon);
      var rest :- ExpectPunctChar(value.1, ',');
      Ok((value.0, rest))
  }

  /** The value part of `get_default`, consuming one token. */
  function DefaultValue(paramType: ParamType, ts: seq<Token>): (r: Parsed<string>)
    ensures r.Ok? ==> ts != [] && r.value.1 == ts[1..]
    ensures r.Ok? && paramType.ArrayType? ==>
      ts[0].Group? && ts[0].delimiter == Bracket && ArrayDefaultsAsWritten(paramType.vals, ts[0].stream).Ok?
      && r.value.0 == ArrayParamCreate(ArrayDefaultsAsWritten(paramType.vals, ts[0].stream).value)
  {
    match paramType
    case IdentType(name) =>
      var p :- TryParamVal(name, ts);
      if p.0.None? then Err(ExpectedDefaultValue) else Ok((p.0.value, p.1))
    case ArrayType(vals, _) =>
      var group :- ExpectGroup(ts);
      if group.0.delimiter != Bracket then Err(DelimiterMismatch(group.0.delimiter, Bracket))
      else
        var values :- ArrayDefaultsAsWritten(vals, group.0.stream);
        Ok((ArrayParamCreate(values), group.1))
  }

  /** An array default written out from literal values reads back as their `ArrayParam::create`. */
  lemma GetDefaultArrayRoundTrip(vals: string, maxLength: nat, values: seq<string>, rest: seq<Token>)
    requires LiteralValued(vals)
    ensures GetDefault(ArrayType(vals, maxLength),
                       [Ident("default"), Punct(':'), Group(Bracket, DefaultTokens(values)), Punct(',')] + rest)
            == Ok((ArrayParamCreate(values), rest))
  {
    ArrayDefaultsRoundTrip(vals, values, false);
    assert DefaultTokens(values) + [] == DefaultTokens(values);
    ArrayDefaultsAgree(vals, DefaultTokens(values));
    var ts := [Ident("default"), Punct(':'), Group(Bracket, DefaultTokens(values)), Punct(',')] + rest;
    assert ts[1..][1..][1..][1..] == rest;
  }
}
