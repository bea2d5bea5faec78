/**
 * The `.modinfo` strings that the `module!` macro emits, the read-only test
 * on a parameter's permissions, and the table from a parameter's type to its
 * `kernel_param_ops`.
 */
module Modinfo {
  import opened Wrappers
  import opened Tokens
  import opened RustNumbers

  /** Rust's `str::len()`: the length of a string's UTF-8 encoding, in bytes. */
  function Utf8Len(s: string): (n: nat)
    ensures |s| <= n <= 4 * |s|
  {
    if s == [] then 0
    else
      var c := s[0] as int;
      (if c < 0x80 then 1 else if c < 0x800 then 2 else if c < 0x1_0000 then 3 else 4)
      + Utf8Len(s[1..])
  }

  predicate IsAscii(s: string) {
    forall i :: 0 <= i < |s| ==> s[i] as int < 0x80
  }

  lemma {:induction false} Utf8LenAscii(s: string)
    requires IsAscii(s)
    ensures Utf8Len(s) == |s|
  {
    if s != [] {
      assert IsAscii(s[1..]) by {
        forall i | 0 <= i < |s[1..]| ensures s[1..][i] as int < 0x80 {
          assert s[1..][i] == s[i + 1];
        }
      }
      Utf8LenAscii(s[1..]);
    }
  }

  lemma {:induction false} Utf8LenAppend(a: string, b: string)
    ensures Utf8Len(a + b) == Utf8Len(a) + Utf8Len(b)
  {
    if a != [] {
      assert (a + b)[0] == a[0];
      assert (a + b)[1..] == a[1..] + b;
      Utf8LenAppend(a[1..], b);
    } else {
      assert a + b == b;
    }
  }

  /**
   * One `.modinfo` static: the `cfg` it is compiled under (`builtin` is
   * `#[cfg(not(MODULE))]`, otherwise `#[cfg(MODULE)]`), the static's name,
   * the string it holds and the declared length of its byte array.
   */
  datatype ModinfoStatic = ModinfoStatic(builtin: bool, variable: string, text: string, length: nat)

  /** `__build_modinfo_string_base` */
  function BuildModinfoStringBase(moduleName: string, field: string, content: string,
                                  variable: string, builtin: bool): (s: ModinfoStatic)
    ensures s.builtin == builtin && s.variable == variable
    ensures s.length == Utf8Len(s.text) + 1
    ensures s.text == (if builtin then moduleName + "." else "") + field + "=" + content
  {
    var text := if builtin then moduleName + "." + field + "=" + content else field + "=" + content;
    ModinfoStatic(builtin, variable, text, Utf8Len(text) + 1)
  }

  /** `__build_modinfo_string_variable` */
  function BuildModinfoStringVariable(moduleName: string, field: string): string {
    "__" + moduleName + "_" + field
  }

  /** `build_modinfo_string_only_builtin` */
  function BuildModinfoStringOnlyBuiltin(moduleName: string, field: string, content: string): ModinfoStatic {
    BuildModinfoStringBase(moduleName, field, content, BuildModinfoStringVariable(moduleName, field), true)
  }

  /** `build_modinfo_string_only_loadable` */
  function BuildModinfoStringOnlyLoadable(moduleName: string, field: string, content: string): ModinfoStatic {
    BuildModinfoStringBase(moduleName, field, content, BuildModinfoStringVariable(moduleName, field), false)
  }

  /** `build_modinfo_string`: the built-in form followed by the loadable form. */
  function BuildModinfoString(moduleName: string, field: string, content: string): (r: seq<ModinfoStatic>)
    ensures |r| == 2 && r[0].builtin && !r[1].builtin
    ensures r[0].variable == r[1].variable == "__" + moduleName + "_" + field
    ensures r[0].text == moduleName + "." + r[1].text
  {
    [BuildModinfoStringOnlyBuiltin(moduleName, field, content),
     BuildModinfoStringOnlyLoadable(moduleName, field, content)]
  }

  /** `build_modinfo_string_optional`: nothing at all for an absent value. */
  function BuildModinfoStringOptional(moduleName: string, field: string, content: Option<string>): (r: seq<ModinfoStatic>)
    ensures content.None? <==> r == []
    ensures content.Some? ==> r == BuildModinfoString(moduleName, field, content.value)
  {
    if content.Some? then BuildModinfoString(moduleName, field, content.value) else []
  }

  /** `build_modinfo_string_param`: the entry `field=param:content`, built-in form first. */
  function BuildModinfoStringParam(moduleName: string, field: string, param: string, content: string): (r: seq<ModinfoStatic>)
    ensures |r| == 2 && r[0].builtin && !r[1].builtin
    ensures r[0].variable == r[1].variable == "__" + moduleName + "_" + field + "_" + param
    ensures r[1].text == field + "=" + param + ":" + content
    ensures r[0].text == moduleName + "." + r[1].text
  {
    var variable := "__" + moduleName + "_" + field + "_" + param;
    [BuildModinfoStringBase(moduleName, field, param + ":" + content, variable, true),
     BuildModinfoStringBase(moduleName, field, param + ":" + content, variable, false)]
  }

  /**
   * How a `.modinfo` string is read back: the tag before the first `=` and
   * the value after it (the whole string is the tag when there is no `=`).
   */
  function ModinfoEntry(s: string): (string, string) {
    if s == [] then ("", "")
    else if s[0] == '=' then ("", s[1..])
    else
      var (tag, value) := ModinfoEntry(s[1..]);
      ([s[0]] + tag, value)
  }

  /** A tag without `=` and any value read back from `tag=value` as the pair. */
  lemma {:induction false} ModinfoEntryRoundTrip(tag: string, value: string)
    requires '=' !in tag
    ensures ModinfoEntry(tag + "=" + value) == (tag, value)
  {
    var s := tag + "=" + value;
    if tag == [] {
      assert s == ['='] + value;
      assert s[0] == '=' && s[1..] == value;
    } else {
      assert s[0] == tag[0];
      assert s[1..] == tag[1..] + "=" + value;
      assert '=' !in tag[1..] by {
        forall i | 0 <= i < |tag[1..]| ensures tag[1..][i] != '=' {
          assert tag[1..][i] == tag[i + 1];
        }
      }
      ModinfoEntryRoundTrip(tag[1..], value);
      assert [tag[0]] + tag[1..] == tag;
    }
  }

  /**
   * When neither the module name nor the field holds `=`, both statics of
   * `build_modinfo_string` read back as their tag and the content, and the
   * built-in tag is the loadable one under the module's name.
   */
  lemma ModinfoStringReadsBack(moduleName: string, field: string, content: string)
    requires '=' !in moduleName && '=' !in field
    ensures ModinfoEntry(BuildModinfoString(moduleName, field, content)[1].text) == (field, content)
    ensures ModinfoEntry(BuildModinfoString(moduleName, field, content)[0].text)
            == (moduleName + "." + field, content)
  {
    var r := BuildModinfoString(moduleName, field, content);
    ModinfoEntryRoundTrip(field, content);
    var tag := moduleName + "." + field;
    assert '=' !in tag by {
      forall i | 0 <= i < |tag| ensures tag[i] != '=' {
        if i < |moduleName| { assert tag[i] == moduleName[i]; }
        else if i > |moduleName| { assert tag[i] == field[i - |moduleName| - 1]; }
      }
    }
    ModinfoEntryRoundTrip(tag, content);
    assert r[0].text == tag + "=" + content;
  }

  /** A parameter's description reads back as its field and `param:content`. */
  lemma ModinfoParamReadsBack(moduleName: string, field: string, param: string, content: string)
    requires '=' !in field
    ensures ModinfoEntry(BuildModinfoStringParam(moduleName, field, param, content)[1].text)
            == (field, param + ":" + content)
  {
    ModinfoEntryRoundTrip(field, param + ":" + content);
    assert field + "=" + param + ":" + content == field + "=" + (param + ":" + content);
  }

  /** The octal `0o222`: the write bits of owner, group and others. */
  const WRITE_BITS: nat := 0x92

  /** The radix a `0x`/`0o`/`0b` prefix selects, and the digits after it (decimal otherwise). */
  function RadixAndDigits(perms: string): (r: (nat, string))
    ensures r.0 == 16 <==> |perms| >= 2 && perms[..2] == "0x"
    ensures r.0 == 8 <==> |perms| >= 2 && perms[..2] == "0o"
    ensures r.0 == 2 <==> |perms| >= 2 && perms[..2] == "0b"
    ensures r.0 in {2, 8, 10, 16}
    ensures r.1 == if r.0 == 10 then perms else perms[2..]
  {
    if |perms| >= 2 && perms[..2] == "0x" then (16, perms[2..])
    else if |perms| >= 2 && perms[..2] == "0o" then (8, perms[2..])
    else if |perms| >= 2 && perms[..2] == "0b" then (2, perms[2..])
    else (10, perms)
  }

  /** The number a permissions literal denotes, when it parses as a `u32`. */
  function ParsePermissions(perms: string): Option<nat> {
    var (radix, digits) := RadixAndDigits(perms);
    FromStrRadix(digits, radix, 0xFFFF_FFFF)
  }

  /**
   * `permissions_are_readonly`: true exactly when the literal parses and
   * grants no write permission to owner (bit 7), group (bit 4) or others
   * (bit 1); false whenever it does not parse.
   */
  function PermissionsAreReadonly(perms: string): (r: bool)
    ensures r <==> ParsePermissions(perms).Some?
                   && Bit(ParsePermissions(perms).value, 7) == 0
                   && Bit(ParsePermissions(perms).value, 4) == 0
                   && Bit(ParsePermissions(perms).value, 1) == 0
  {
    match ParsePermissions(perms)
    case Some(p) =>
      WriteBitsMask(p);
      BitAnd(p, WRITE_BITS) == 0
    case None => false
  }

  /** `p & 0o222` is zero exactly when bits 1, 4 and 7 of `p` are clear. */
  lemma WriteBitsMask(p: nat)
    ensures BitAnd(p, WRITE_BITS) == 0 <==> Bit(p, 1) == 0 && Bit(p, 4) == 0 && Bit(p, 7) == 0
  {
    var p1 := p / 2;
    var p2 := p1 / 2;
    var p3 := p2 / 2;
    var p4 := p3 / 2;
    var p5 := p4 / 2;
    var p6 := p5 / 2;
    var p7 := p6 / 2;
    WriteBitsOfHalvings(p, p1, p2, p3, p4, p5, p6, p7);
    MaskOfHalvings(p, p1, p2, p3, p4, p5, p6, p7);
  }

  /** Bits 1, 4 and 7 of `p` are the parities of its 1st, 4th and 7th halvings. */
  lemma WriteBitsOfHalvings(p: nat, p1: nat, p2: nat, p3: nat, p4: nat, p5: nat, p6: nat, p7: nat)
    requires p1 == p / 2 && p2 == p1 / 2 && p3 == p2 / 2 && p4 == p3 / 2
    requires p5 == p4 / 2 && p6 == p5 / 2 && p7 == p6 / 2
    ensures Bit(p, 1) == p1 % 2 && Bit(p, 4) == p4 % 2 && Bit(p, 7) == p7 % 2
  {
    assert Bit(p, 1) == Bit(p1, 0);
    assert Bit(p, 4) == Bit(p1, 3) == Bit(p2, 2) == Bit(p3, 1) == Bit(p4, 0);
    assert Bit(p, 7) == Bit(p1, 6) == Bit(p2, 5) == Bit(p3, 4) == Bit(p4, 3);
    assert Bit(p4, 3) == Bit(p5, 2) == Bit(p6, 1) == Bit(p7, 0);
  }

  /** `p & 0o222` collects exactly those three parities. */
  lemma MaskOfHalvings(p: nat, p1: nat, p2: nat, p3: nat, p4: nat, p5: nat, p6: nat, p7: nat)
    requires p1 == p / 2 && p2 == p1 / 2 && p3 == p2 / 2 && p4 == p3 / 2
    requires p5 == p4 / 2 && p6 == p5 / 2 && p7 == p6 / 2
    ensures BitAnd(p, WRITE_BITS) == 128 * (p7 % 2) + 16 * (p4 % 2) + 2 * (p1 % 2)
  {
    assert BitAnd(p7, 1) == p7 % 2;
    assert BitAnd(p6, 2) == 2 * BitAnd(p7, 1);
    assert BitAnd(p5, 4) == 2 * BitAnd(p6, 2);
    assert BitAnd(p4, 9) == 2 * BitAnd(p5, 4) + p4 % 2;
    assert BitAnd(p3, 18) == 2 * BitAnd(p4, 9);
    assert BitAnd(p2, 36) == 2 * BitAnd(p3, 18);
    assert BitAnd(p1, 73) == 2 * BitAnd(p2, 36) + p1 % 2;
    assert BitAnd(p, 146) == 2 * BitAnd(p1, 73);
  }

  /** The octal digit character of a value below 8. */
  function OctalDigit(d: nat): char
    requires d < 8
  {
    ('0' as nat + d) as char
  }

  /** A three-digit `0o` literal parses to its octal value. */
  lemma ParseOctalMode(u: nat, g: nat, o: nat)
    requires u < 8 && g < 8 && o < 8
    ensures ParsePermissions("0o" + [OctalDigit(u), OctalDigit(g), OctalDigit(o)])
            == Some(64 * u + 8 * g + o)
  {
    var ds := [OctalDigit(u), OctalDigit(g), OctalDigit(o)];
    var perms := "0o" + ds;
    assert perms[..2] == "0o" && perms[2..] == ds;
    assert ds[..2] == [OctalDigit(u), OctalDigit(g)];
    assert ds[..2][..1] == [OctalDigit(u)];
    assert [OctalDigit(u)][..0] == [];
    assert DigitsValue([OctalDigit(u)], 8) == Some(u);
    assert DigitsValue(ds[..2], 8) == Some(8 * u + g);
    assert DigitsValue(ds, 8) == Some(64 * u + 8 * g + o);
  }

  /**
   * A three-digit octal mode `0oUGO` is read-only exactly when none of the
   * owner, group and other digits has its write bit (value 2) set.
   */
  lemma ReadonlyOctalMode(u: nat, g: nat, o: nat)
    requires u < 8 && g < 8 && o < 8
    ensures PermissionsAreReadonly("0o" + [OctalDigit(u), OctalDigit(g), OctalDigit(o)])
            <==> u % 4 < 2 && g % 4 < 2 && o % 4 < 2
  {
    var v := 64 * u + 8 * g + o;
    ParseOctalMode(u, g, o);
    OctalBits(u, g, o, v);
    OctalWriteDigit(u);
    OctalWriteDigit(g);
    OctalWriteDigit(o);
  }

  /** An octal digit grants write permission when its value-2 bit is set. */
  lemma OctalWriteDigit(d: nat)
    requires d < 8
    ensures (d / 2) % 2 == 0 <==> d % 4 < 2
  {
  }

  /** Bit `k + 3` of `8w + d` is bit `k` of `w`, for an octal digit `d`. */
  lemma OctalShift(w: nat, d: nat, k: nat)
    requires d < 8
    ensures Bit(8 * w + d, k + 3) == Bit(w, k)
  {
    var w1 := 4 * w + d / 2;
    assert 8 * w + d == 2 * w1 + d % 2;
    BitStep(w1, d % 2, k + 2);
    var w2 := 2 * w + d / 4;
    assert w1 == 2 * w2 + (d / 2) % 2;
    BitStep(w2, (d / 2) % 2, k + 1);
    BitStep(w, d / 4, k);
  }
  /** Bit 1 of `8w + d` is the write bit of the octal digit `d`. */
  lemma OctalWriteBit(w: nat, d: nat)
    requires d < 8
    ensures Bit(8 * w + d, 1) == (d / 2) % 2
  {
    var h := d / 2;
    var w1 := 4 * w + h;
    assert 8 * w + d == 2 * w1 + d % 2;
    HalfOf(w1, d % 2);
    assert w1 == 2 * (2 * w + h / 2) + h % 2;
    HalfOf(2 * w + h / 2, h % 2);
  }
  /** The write bits of a three-digit octal mode `v` are bit 1 of each octal digit. */
  lemma OctalBits(u: nat, g: nat, o: nat, v: nat)
    requires u < 8 && g < 8 && o < 8 && v == 64 * u + 8 * g + o
    ensures Bit(v, 1) == (o / 2) % 2
    ensures Bit(v, 4) == (g / 2) % 2
    ensures Bit(v, 7) == (u / 2) % 2
  {
    var w := 8 * u + g;
    assert v == 8 * w + o;
    OctalWriteBit(w, o);
    OctalShift(w, o, 1);
    OctalWriteBit(u, g);
    OctalShift(w, o, 4);
    OctalShift(u, g, 1);
    assert u == 8 * 0 + u;
    OctalWriteBit(0, u);
  }

  /** The parameter types the macro supports, in the order of `param_ops_path`. */
  const PARAM_TYPES: seq<string> :=
    ["bool", "i8", "u8", "i16", "u16", "i32", "u32", "i64", "u64", "isize", "usize", "str"]

  /** ASCII upper-casing of one character. */
  function UpperChar(c: char): char {
    if 'a' <= c <= 'z' then (c as int - 32) as char else c
  }

  /** ASCII upper-casing of a name. */
  function AsciiUpper(s: string): (r: string)
    ensures |r| == |s|
    ensures forall i :: 0 <= i < |s| ==> r[i] == UpperChar(s[i])
  {
    if s == [] then [] else [UpperChar(s[0])] + AsciiUpper(s[1..])
  }

  const PARAM_OPS_PREFIX := "kernel::module_param::PARAM_OPS_"

  /**
   * `param_ops_path`: the `kernel_param_ops` static for each supported type;
   * any other name panics.
   */
  function ParamOpsPath(paramType: string): (r: Result<string, MacroPanic>)
    ensures r.Ok? <==> paramType in PARAM_TYPES
    ensures r.Err? ==> r.error == UnrecognizedType(paramType)
  {
    if paramType == "bool" then Ok(PARAM_OPS_PREFIX + "BOOL")
    else if paramType == "i8" then Ok(PARAM_OPS_PREFIX + "I8")
    else if paramType == "u8" then Ok(PARAM_OPS_PREFIX + "U8")
    else if paramType == "i16" then Ok(PARAM_OPS_PREFIX + "I16")
    else if paramType == "u16" then Ok(PARAM_OPS_PREFIX + "U16")
    else if paramType == "i32" then Ok(PARAM_OPS_PREFIX + "I32")
    else if paramType == "u32" then Ok(PARAM_OPS_PREFIX + "U32")
    else if paramType == "i64" then Ok(PARAM_OPS_PREFIX + "I64")
    else if paramType == "u64" then Ok(PARAM_OPS_PREFIX + "U64")
    else if paramType == "isize" then Ok(PARAM_OPS_PREFIX + "ISIZE")
    else if paramType == "usize" then Ok(PARAM_OPS_PREFIX + "USIZE")
    else if paramType == "str" then Ok(PARAM_OPS_PREFIX + "STR")
    else Err(UnrecognizedType(paramType))
  }

  /** Each supported type name, upper-cased. */
  lemma ParamTypeNamesUpper()
    ensures AsciiUpper("bool") == "BOOL"
    ensures AsciiUpper("i8") == "I8"
    ensures AsciiUpper("u8") == "U8"
    ensures AsciiUpper("i16") == "I16"
    ensures AsciiUpper("u16") == "U16"
    ensures AsciiUpper("i32") == "I32"
    ensures AsciiUpper("u32") == "U32"
    ensures AsciiUpper("i64") == "I64"
    ensures AsciiUpper("u64") == "U64"
    ensures AsciiUpper("isize") == "ISIZE"
    ensures AsciiUpper("usize") == "USIZE"
    ensures AsciiUpper("str") == "STR"
  {
    assert AsciiUpper("bool") == "BOOL" by { UpperOf("bool", "BOOL"); }
    assert AsciiUpper("i8") == "I8" by { UpperOf("i8", "I8"); }
    assert AsciiUpper("u8") == "U8" by { UpperOf("u8", "U8"); }
    assert AsciiUpper("i16") == "I16" by { UpperOf("i16", "I16"); }
    assert AsciiUpper("u16") == "U16" by { UpperOf("u16", "U16"); }
    assert AsciiUpper("i32") == "I32" by { UpperOf("i32", "I32"); }
    assert AsciiUpper("u32") == "U32" by { UpperOf("u32", "U32"); }
    assert AsciiUpper("i64") == "I64" by { UpperOf("i64", "I64"); }
    assert AsciiUpper("u64") == "U64" by { UpperOf("u64", "U64"); }
    assert AsciiUpper("isize") == "ISIZE" by { UpperOf("isize", "ISIZE"); }
    assert AsciiUpper("usize") == "USIZE" by { UpperOf("usize", "USIZE"); }
    assert AsciiUpper("str") == "STR" by { UpperOf("str", "STR"); }
  }

  /** A name is upper-cased to `u` when `u` holds its characters upper-cased, one by one. */
  lemma UpperOf(s: string, u: string)
    requires |s| == |u| && forall i :: 0 <= i < |s| ==> u[i] == UpperChar(s[i])
    ensures AsciiUpper(s) == u
  {
  }

  /**
   * The table follows one rule: the ops static of a supported type is named
   * after the type, upper-cased.
   */
  lemma ParamOpsPathUpper(t: string)
    requires t in PARAM_TYPES
    ensures ParamOpsPath(t) == Ok(PARAM_OPS_PREFIX + AsciiUpper(t))
  {
    ParamTypeNamesUpper();
    if t == "bool" { assert ParamOpsPath("bool") == Ok(PARAM_OPS_PREFIX + "BOOL"); }
    else if t == "i8" { assert ParamOpsPath("i8") == Ok(PARAM_OPS_PREFIX + "I8"); }
    else if t == "u8" { assert ParamOpsPath("u8") == Ok(PARAM_OPS_PREFIX + "U8"); }
    else if t == "i16" { assert ParamOpsPath("i16") == Ok(PARAM_OPS_PREFIX + "I16"); }
    else if t == "u16" { assert ParamOpsPath("u16") == Ok(PARAM_OPS_PREFIX + "U16"); }
    else if t == "i32" { assert ParamOpsPath("i32") == Ok(PARAM_OPS_PREFIX + "I32"); }
    else if t == "u32" { assert ParamOpsPath("u32") == Ok(PARAM_OPS_PREFIX + "U32"); }
    else if t == "i64" { assert ParamOpsPath("i64") == Ok(PARAM_OPS_PREFIX + "I64"); }
    else if t == "u64" { assert ParamOpsPath("u64") == Ok(PARAM_OPS_PREFIX + "U64"); }
    else if t == "isize" { assert ParamOpsPath("isize") == Ok(PARAM_OPS_PREFIX + "ISIZE"); }
    else if t == "usize" { assert ParamOpsPath("usize") == Ok(PARAM_OPS_PREFIX + "USIZE"); }
    else if t == "str" { assert ParamOpsPath("str") == Ok(PARAM_OPS_PREFIX + "STR"); }
  }
}
