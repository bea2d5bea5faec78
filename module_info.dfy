/**
 * `ModuleInfo::parse`: the `key: value,` list of the `module!` macro, with
 * its rules on duplicated, unknown, missing and misordered keys.
 */
module ModuleInfoParser {
  import opened Wrappers
  import opened Tokens

  /** `ModuleInfo`; a key that is absent keeps the `Default` value. */
  datatype ModuleInfo = ModuleInfo(
    typeName: string,
    license: string,
    name: string,
    author: Option<string>,
    description: Option<string>,
    alias: Option<string>,
    params: Option<Token>)

  const DEFAULT_INFO := ModuleInfo("", "", "", None, None, None, None)

  /** The keys the macro knows, in the order they must be written. */
  const EXPECTED_KEYS: seq<string> :=
    ["type", "name", "author", "description", "license", "alias", "alias_rtnl_link", "params"]

  /** The keys that must be present. */
  const REQUIRED_KEYS: seq<string> := ["type", "name", "license"]

  /** Where the byte string of a key other than `type` and `params` is stored. */
  function StoreByteString(info: ModuleInfo, key: string, s: string): ModuleInfo {
    if key == "name" then info.(name := s)
    else if key == "author" then info.(author := Some(s))
    else if key == "description" then info.(description := Some(s))
    else if key == "license" then info.(license := s)
    else if key == "alias" then info.(alias := Some(s))
    else info.(alias := Some("rtnl-link-" + s))
  }

  /**
   * The value after `key :`, stored into `info`: `type` takes an identifier,
   * `params` a group, every other known key a byte string; `alias_rtnl_link`
   * sets `alias`. An unknown key panics.
   */
  function ReadValue(key: string, ts: seq<Token>, info: ModuleInfo): (r: Result<(ModuleInfo, seq<Token>), MacroPanic>)
    ensures r.Ok? ==> ts != [] && r.value.1 == ts[1..]
    ensures key !in EXPECTED_KEYS ==> r == Err(UnknownKey(key))
  {
    if key !in EXPECTED_KEYS then Err(UnknownKey(key))
    else if key == "type" then
      var v :- ExpectIdent(ts); Ok((info.(typeName := v.0), v.1))
    else if key == "params" then
      var v :- ExpectGroup(ts); Ok((info.(params := Some(v.0)), v.1))
    else
      var v :- ExpectByteString(ts); Ok((StoreByteString(info, key, v.0), v.1))
  }

  /**
   * One turn of the `loop` of `parse` on a non-empty stream: `key : value ,`
   * read into `info`, giving the tokens left, the keys seen and the new
   * information.
   */
  function ScanStep(ts: seq<Token>, seen: seq<string>, info: ModuleInfo)
    : (r: Result<(seq<Token>, seq<string>, ModuleInfo), MacroPanic>)
    requires ts != []
    ensures r.Ok? ==> |r.value.0| < |ts|
  {
    if !ts[0].Ident? then Err(ExpectedIdentOrEnd)
    else
      var key := ts[0].name;
      if key in seen then Err(DuplicatedKey(key))
      else
        var afterColon :- ExpectPunctChar(ts[1..], ':');
        var value :- ReadValue(key, afterColon, info);
        var rest :- ExpectPunctChar(value.1, ',');
        Ok((rest, seen + [key], value.0))
  }

  /**
   * The `loop` of `parse` from a point where the keys `seen` have been read
   * into `info`: the keys read until the end of the stream, and the result.
   */
  function ScanFrom(ts: seq<Token>, seen: seq<string>, info: ModuleInfo): Result<(seq<string>, ModuleInfo), MacroPanic>
    decreases |ts|
  {
    if ts == [] then Ok((seen, info))
    else
      var next :- ScanStep(ts, seen, info);
      ScanFrom(next.0, next.1, next.2)
  }

  /** The first of `keys` that is not among `seen`. */
  function FirstMissing(keys: seq<string>, seen: seq<string>): (r: Option<string>)
    ensures r.None? <==> forall k :: k in keys ==> k in seen
    ensures r.Some? ==> r.value in keys && r.value !in seen
    decreases |keys|
  {
    if keys == [] then None
    else if keys[0] !in seen then Some(keys[0])
    else FirstMissing(keys[1..], seen)
  }

  /** The key `FirstMissing` names comes after only keys that were seen. */
  lemma {:induction false} FirstMissingIsFirst(keys: seq<string>, seen: seq<string>)
    requires FirstMissing(keys, seen).Some?
    ensures exists i :: 0 <= i < |keys| && keys[i] == FirstMissing(keys, seen).value
                        && forall k :: k in keys[..i] ==> k in seen
    decreases |keys|
  {
    if keys[0] !in seen {
      assert keys[0] == FirstMissing(keys, seen).value && keys[..0] == [];
    } else {
      FirstMissingIsFirst(keys[1..], seen);
      var i :| 0 <= i < |keys[1..]| && keys[1..][i] == FirstMissing(keys[1..], seen).value
               && forall k :: k in keys[1..][..i] ==> k in seen;
      assert keys[..i + 1] == [keys[0]] + keys[1..][..i];
      assert keys[i + 1] == FirstMissing(keys, seen).value;
    }
  }

  /** The keys of `keys` that are among `seen`, in the order of `keys`. */
  function KeepSeen(keys: seq<string>, seen: seq<string>): (r: seq<string>)
    ensures forall k :: k in r <==> k in keys && k in seen
  {
    if keys == [] then []
    else (if keys[0] in seen then [keys[0]] else []) + KeepSeen(keys[1..], seen)
  }

  /** `ModuleInfo::parse` as a function of the token stream. */
  function ParseSpec(ts: seq<Token>): Result<ModuleInfo, MacroPanic> {
    var scanned :- ScanFrom(ts, [], DEFAULT_INFO);
    var seen := scanned.0;
    var missing := FirstMissing(REQUIRED_KEYS, seen);
    if missing.Some? then Err(MissingRequiredKey(missing.value))
    else
      var ordered := KeepSeen(EXPECTED_KEYS, seen);
      if seen != ordered then Err(KeysNotOrdered(ordered)) else Ok(scanned.1)
  }

  lemma {:induction false} KeepSeenAppend(keys: seq<string>, k: string, seen: seq<string>)
    ensures KeepSeen(keys + [k], seen) == KeepSeen(keys, seen) + (if k in seen then [k] else [])
    decreases |keys|
  {
    var last: seq<string> := if k in seen then [k] else [];
    if keys == [] {
      assert keys + [k] == [k];
      assert KeepSeen([k], seen) == last + KeepSeen([], seen);
    } else {
      var head: seq<string> := if keys[0] in seen then [keys[0]] else [];
      assert (keys + [k])[0] == keys[0];
      assert (keys + [k])[1..] == keys[1..] + [k];
      KeepSeenAppend(keys[1..], k, seen);
      assert KeepSeen(keys + [k], seen) == head + (KeepSeen(keys[1..], seen) + last);
      assert KeepSeen(keys, seen) == head + KeepSeen(keys[1..], seen);
    }
  }

  /** The entry loop of `ModuleInfo::parse`: the keys read, in order, and the information stored. */
  method ScanEntries(ts: seq<Token>) returns (r: Result<(seq<string>, ModuleInfo), MacroPanic>)
    ensures r == ScanFrom(ts, [], DEFAULT_INFO)
  {
    var info := DEFAULT_INFO;
    var seenKeys: seq<string> := [];
    var it := ts;
    while it != []
      invariant ScanFrom(ts, [], DEFAULT_INFO) == ScanFrom(it, seenKeys, info)
      decreases |it|
    {
      if !it[0].Ident? {
        assert ScanStep(it, seenKeys, info) == Err(ExpectedIdentOrEnd);
        return Err(ExpectedIdentOrEnd);
      }
      var key := it[0].name;
      if key in seenKeys {
        assert ScanStep(it, seenKeys, info) == Err(DuplicatedKey(key));
        return Err(DuplicatedKey(key));
      }
      var afterColon := ExpectPunctChar(it[1..], ':');
      if afterColon.Err? {
        assert ScanStep(it, seenKeys, info) == Err(afterColon.error);
        return Err(afterColon.error);
      }
      var value := ReadValue(key, afterColon.value, info);
      if value.Err? {
        assert ScanStep(it, seenKeys, info) == Err(value.error);
        return Err(value.error);
      }
      var rest := ExpectPunctChar(value.value.1, ',');
      if rest.Err? {
        assert ScanStep(it, seenKeys, info) == Err(rest.error);
        return Err(rest.error);
      }
      assert ScanStep(it, seenKeys, info) == Ok((rest.value, seenKeys + [key], value.value.0));
      info := value.value.0;
      seenKeys := seenKeys + [key];
      it := rest.value;
    }
    return Ok((seenKeys, info));
  }

  /** The required-key check of `ModuleInfo::parse`: the first required key not read, if any. */
  method CheckRequired(seenKeys: seq<string>) returns (missing: Option<string>)
    ensures missing == FirstMissing(REQUIRED_KEYS, seenKeys)
  {
    for i := 0 to |REQUIRED_KEYS|
      invariant FirstMissing(REQUIRED_KEYS, seenKeys) == FirstMissing(REQUIRED_KEYS[i..], seenKeys)
    {
      if REQUIRED_KEYS[i] !in seenKeys {
        return Some(REQUIRED_KEYS[i]);
      }
    }
    return None;
  }

  /** The `ordered_keys` of `ModuleInfo::parse`: the expected keys that were read, in the expected order. */
  method OrderKeys(seenKeys: seq<string>) returns (orderedKeys: seq<string>)
    ensures orderedKeys == KeepSeen(EXPECTED_KEYS, seenKeys)
  {
    orderedKeys := [];
    for i := 0 to |EXPECTED_KEYS|
      invariant orderedKeys == KeepSeen(EXPECTED_KEYS[..i], seenKeys)
    {
      KeepSeenAppend(EXPECTED_KEYS[..i], EXPECTED_KEYS[i], seenKeys);
      assert EXPECTED_KEYS[..i + 1] == EXPECTED_KEYS[..i] + [EXPECTED_KEYS[i]];
      if EXPECTED_KEYS[i] in seenKeys {
        orderedKeys := orderedKeys + [EXPECTED_KEYS[i]];
      }
    }
    assert EXPECTED_KEYS[..|EXPECTED_KEYS|] == EXPECTED_KEYS;
  }

  /** `ModuleInfo::parse`: the entry loop, then the required-key and key-order checks. */
  method Parse(ts: seq<Token>) returns (r: Result<ModuleInfo, MacroPanic>)
    ensures r == ParseSpec(ts)
  {
    var scanned := ScanEntries(ts);
    if scanned.Err? {
      return Err(scanned.error);
    }
    var (seenKeys, info) := scanned.value;
    var missing := CheckRequired(seenKeys);
    if missing.Some? {
      return Err(MissingRequiredKey(missing.value));
    }
    var orderedKeys := OrderKeys(seenKeys);
    if seenKeys != orderedKeys {
      return Err(KeysNotOrdered(orderedKeys));
    }
    return Ok(info);
  }

  // ---------------------------------------------------------------------
  // What the parser accepts, stated independently of the loop.
  // ---------------------------------------------------------------------

  /** One `key: value,` entry. */
  datatype Entry = Entry(key: string, value: Token)

  function EntryTokens(e: Entry): seq<Token> {
    [Ident(e.key), Punct(':'), e.value, Punct(',')]
  }

  /** The token stream of a list of entries. */
  function Render(es: seq<Entry>): seq<Token>
    decreases |es|
  {
    if es == [] then [] else EntryTokens(es[0]) + Render(es[1..])
  }

  function Keys(es: seq<Entry>): (ks: seq<string>)
    ensures |ks| == |es| && forall i :: 0 <= i < |es| ==> ks[i] == es[i].key
    decreases |es|
  {
    if es == [] then [] else [es[0].key] + Keys(es[1..])
  }

  /** The token a key's value must be: an identifier, a group or a byte string. */
  predicate ValueFits(key: string, v: Token) {
    if key == "type" then v.Ident?
    else if key == "params" then v.Group?
    else v.Literal? && IsByteStringText(v.text)
  }

  /** The text between `b"` and the closing `"` of a byte-string literal. */
  function ByteStringText(v: Token): string
    requires v.Literal? && IsByteStringText(v.text)
  {
    v.text[2..|v.text| - 1]
  }

  /** The effect of one well-formed entry on the module information. */
  function ApplyEntry(info: ModuleInfo, e: Entry): ModuleInfo
    requires e.key in EXPECTED_KEYS && ValueFits(e.key, e.value)
  {
    if e.key == "type" then info.(typeName := e.value.name)
    else if e.key == "params" then info.(params := Some(e.value))
    else StoreByteString(info, e.key, ByteStringText(e.value))
  }

  predicate AllFit(es: seq<Entry>) {
    forall i :: 0 <= i < |es| ==> es[i].key in EXPECTED_KEYS && ValueFits(es[i].key, es[i].value)
  }

  function ApplyAll(info: ModuleInfo, es: seq<Entry>): ModuleInfo
    requires AllFit(es)
    decreases |es|
  {
    if es == [] then info else ApplyAll(ApplyEntry(info, es[0]), es[1..])
  }

  /** `s` is `keys` with some elements left out, in the same order. */
  predicate IsSubsequence(s: seq<string>, keys: seq<string>)
    decreases |keys|
  {
    s == [] || (keys != [] && (if s[0] == keys[0] then IsSubsequence(s[1..], keys[1..]) else IsSubsequence(s, keys[1..])))
  }

  predicate Distinct(s: seq<string>) {
    forall i, j :: 0 <= i < j < |s| ==> s[i] != s[j]
  }

  /**
   * A well-formed declaration: every key known and its value of the right
   * kind, the keys in the order of `EXPECTED_KEYS` (so none twice), and the
   * required keys present.
   */
  predicate WellFormed(es: seq<Entry>) {
    AllFit(es)
    && IsSubsequence(Keys(es), EXPECTED_KEYS)
    && forall k :: k in REQUIRED_KEYS ==> k in Keys(es)
  }

  function InfoOf(es: seq<Entry>): ModuleInfo
    requires AllFit(es)
  {
    ApplyAll(DEFAULT_INFO, es)
  }

  lemma ExpectedKeysDistinct()
    ensures Distinct(EXPECTED_KEYS)
  {
    assert EXPECTED_KEYS[0] == "type" && EXPECTED_KEYS[1] == "name" && EXPECTED_KEYS[2] == "author";
    assert EXPECTED_KEYS[3] == "description" && EXPECTED_KEYS[4] == "license";
    assert EXPECTED_KEYS[5] == "alias" && EXPECTED_KEYS[6] == "alias_rtnl_link" && EXPECTED_KEYS[7] == "params";
  }

  lemma {:induction false} SubsequenceMembers(s: seq<string>, keys: seq<string>)
    requires IsSubsequence(s, keys)
    ensures forall k :: k in s ==> k in keys
    decreases |keys|
  {
    if s != [] {
      if s[0] == keys[0] {
        SubsequenceMembers(s[1..], keys[1..]);
        forall k | k in s ensures k in keys {
          if k != s[0] { assert k in s[1..]; }
        }
      } else {
        SubsequenceMembers(s, keys[1..]);
      }
    }
  }

  lemma {:induction false} SubsequenceDistinct(s: seq<string>, keys: seq<string>)
    requires IsSubsequence(s, keys) && Distinct(keys)
    ensures Distinct(s)
    decreases |keys|
  {
    if s != [] {
      assert Distinct(keys[1..]) by {
        forall i, j | 0 <= i < j < |keys[1..]| ensures keys[1..][i] != keys[1..][j] {
          assert keys[1..][i] == keys[i + 1] && keys[1..][j] == keys[j + 1];
        }
      }
      if s[0] == keys[0] {
        SubsequenceDistinct(s[1..], keys[1..]);
        SubsequenceMembers(s[1..], keys[1..]);
        forall j | 0 < j < |s| ensures s[0] != s[j] {
          assert s[j] == s[1..][j - 1];
          assert s[j] in keys[1..];
          var m :| 0 <= m < |keys[1..]| && keys[1..][m] == s[j];
          assert keys[m + 1] == s[j];
        }
        forall i, j | 0 <= i < j < |s| ensures s[i] != s[j] {
          if i > 0 {
            assert s[i] == s[1..][i - 1] && s[j] == s[1..][j - 1];
          }
        }
      } else {
        SubsequenceDistinct(s, keys[1..]);
      }
    }
  }

  /** `KeepSeen` only looks at which of `keys` are seen. */
  lemma {:induction false} KeepSeenOnlyMembership(keys: seq<string>, s: seq<string>, t: seq<string>)
    requires forall k :: k in keys ==> (k in s <==> k in t)
    ensures KeepSeen(keys, s) == KeepSeen(keys, t)
    decreases |keys|
  {
    if keys != [] {
      KeepSeenOnlyMembership(keys[1..], s, t);
    }
  }

  /**
   * For keys without repetitions, the keys read are left unchanged by the
   * reordering check exactly when they are a subsequence of the keys in
   * their expected order.
   */
  lemma {:induction false} OrderedIff(keys: seq<string>, s: seq<string>)
    requires Distinct(keys)
    ensures KeepSeen(keys, s) == s <==> IsSubsequence(s, keys)
    decreases |keys|
  {
    if keys != [] {
      var k := keys[0];
      var rest := keys[1..];
      assert Distinct(rest) by {
        forall i, j | 0 <= i < j < |rest| ensures rest[i] != rest[j] {
          assert rest[i] == keys[i + 1] && rest[j] == keys[j + 1];
        }
      }
      assert k !in rest by {
        forall i | 0 <= i < |rest| ensures rest[i] != k {
          assert rest[i] == keys[i + 1];
        }
      }
      OrderedIff(rest, s);
      if s != [] && s[0] == k {
        OrderedIff(rest, s[1..]);
        KeepSeenOnlyMembership(rest, s, s[1..]);
        if KeepSeen(keys, s) == s {
          assert KeepSeen(keys, s) == [k] + KeepSeen(rest, s);
          assert s == [k] + s[1..];
        }
        if IsSubsequence(s, keys) {
          assert [k] + s[1..] == s;
        }
      } else if k in s {
        assert KeepSeen(keys, s)[0] == k;
        assert k !in KeepSeen(rest, s);
        assert !IsSubsequence(s, rest);
      } else {
        if s != [] {
          assert IsSubsequence(s, keys) == IsSubsequence(s, rest);
        }
      }
    }
  }

  lemma {:induction false} RenderAppend(es: seq<Entry>, e: Entry)
    ensures Render(es + [e]) == Render(es) + EntryTokens(e)
    decreases |es|
  {
    if es == [] {
      assert es + [e] == [e];
    } else {
      assert (es + [e])[0] == es[0];
      assert (es + [e])[1..] == es[1..] + [e];
      RenderAppend(es[1..], e);
    }
  }

  /** A byte-string literal reads back as the text between its quotes. */
  lemma ExpectByteStringFits(v: Token, rest: seq<Token>)
    requires v.Literal? && IsByteStringText(v.text)
    ensures ExpectByteString([v] + rest) == Ok((ByteStringText(v), rest))
  {
    assert v.text == "b\"" + ByteStringText(v) + "\"" by {
      assert v.text[..2] == "b\"";
    }
    assert ([v] + rest)[1..] == rest;
  }

  /** The value of a known key, of the right kind, is stored as `ApplyEntry` says. */
  lemma ReadValueFits(key: string, v: Token, rest: seq<Token>, info: ModuleInfo)
    requires key in EXPECTED_KEYS && ValueFits(key, v)
    ensures ReadValue(key, [v] + rest, info) == Ok((ApplyEntry(info, Entry(key, v)), rest))
  {
    assert ([v] + rest)[0] == v && ([v] + rest)[1..] == rest;
    if key != "type" && key != "params" {
      ExpectByteStringFits(v, rest);
    }
  }

  /** Reading one well-formed entry. */
  lemma ScanEntry(e: Entry, rest: seq<Token>, seen: seq<string>, info: ModuleInfo)
    requires e.key in EXPECTED_KEYS && ValueFits(e.key, e.value) && e.key !in seen
    ensures ScanStep(EntryTokens(e) + rest, seen, info) == Ok((rest, seen + [e.key], ApplyEntry(info, e)))
    ensures ScanFrom(EntryTokens(e) + rest, seen, info)
            == ScanFrom(rest, seen + [e.key], ApplyEntry(info, e))
  {
    var ts := EntryTokens(e) + rest;
    assert ts[1..] == [Punct(':'), e.value, Punct(',')] + rest;
    assert ts[1..][1..] == [e.value] + ([Punct(',')] + rest);
    ReadValueFits(e.key, e.value, [Punct(',')] + rest, info);
    assert ([Punct(',')] + rest)[1..] == rest;
  }

  lemma DistinctTail(s: seq<string>)
    requires Distinct(s) && s != []
    ensures Distinct(s[1..]) && s[0] !in s[1..]
  {
    forall i, j | 0 <= i < j < |s[1..]| ensures s[1..][i] != s[1..][j] {
      assert s[1..][i] == s[i + 1] && s[1..][j] == s[j + 1];
    }
    forall i | 0 <= i < |s[1..]| ensures s[1..][i] != s[0] {
      assert s[1..][i] == s[i + 1];
    }
  }

  lemma AllFitTail(es: seq<Entry>)
    requires AllFit(es) && es != []
    ensures AllFit(es[1..])
  {
    forall i | 0 <= i < |es[1..]|
      ensures es[1..][i].key in EXPECTED_KEYS && ValueFits(es[1..][i].key, es[1..][i].value)
    {
      assert es[1..][i] == es[i + 1];
    }
  }

  lemma FreshKeys(ks: seq<string>, seen: seq<string>)
    requires ks != [] && Distinct(ks) && forall k :: k in ks ==> k !in seen
    ensures forall k :: k in ks[1..] ==> k !in seen + [ks[0]]
  {
    DistinctTail(ks);
  }

  lemma RenderCons(es: seq<Entry>, rest: seq<Token>)
    requires es != []
    ensures Render(es) + rest == EntryTokens(es[0]) + (Render(es[1..]) + rest)
  {
  }

  lemma KeysCons(es: seq<Entry>, seen: seq<string>)
    requires es != []
    ensures seen + [es[0].key] + Keys(es[1..]) == seen + Keys(es)
  {
    assert Keys(es) == [es[0].key] + Keys(es[1..]);
  }

  /** Reading a run of well-formed entries with keys not read before. */
  lemma {:induction false} ScanRender(es: seq<Entry>, rest: seq<Token>, seen: seq<string>, info: ModuleInfo)
    requires AllFit(es) && Distinct(Keys(es))
    requires forall k :: k in Keys(es) ==> k !in seen
    ensures ScanFrom(Render(es) + rest, seen, info) == ScanFrom(rest, seen + Keys(es), ApplyAll(info, es))
    decreases |es|
  {
    if es == [] {
      assert Render(es) + rest == rest;
      assert seen + Keys(es) == seen;
    } else {
      var e := es[0];
      var tail := es[1..];
      assert Keys(es) == [e.key] + Keys(tail);
      DistinctTail(Keys(es));
      AllFitTail(es);
      FreshKeys(Keys(es), seen);
      RenderCons(es, rest);
      ScanEntry(e, Render(tail) + rest, seen, info);
      ScanRender(tail, rest, seen + [e.key], ApplyEntry(info, e));
      KeysCons(es, seen);
    }
  }

  /** Every well-formed declaration is accepted, with the information its entries give. */
  lemma ParseAccepts(es: seq<Entry>)
    requires WellFormed(es)
    ensures ParseSpec(Render(es)) == Ok(InfoOf(es))
  {
    ExpectedKeysDistinct();
    SubsequenceDistinct(Keys(es), EXPECTED_KEYS);
    ScanRender(es, [], [], DEFAULT_INFO);
    assert Render(es) + [] == Render(es);
    assert [] + Keys(es) == Keys(es);
    OrderedIff(EXPECTED_KEYS, Keys(es));
  }

  /** A step of the loop that does not panic has read one well-formed entry. */
  lemma ScanStepShape(ts: seq<Token>, seen: seq<string>, info: ModuleInfo)
    requires ts != [] && ScanStep(ts, seen, info).Ok?
    ensures |ts| >= 4 && ts[0].Ident? && ts[0].name in EXPECTED_KEYS && ts[0].name !in seen
    ensures ValueFits(ts[0].name, ts[2])
    ensures ts == EntryTokens(Entry(ts[0].name, ts[2])) + ts[4..]
  {
    var key := ts[0].name;
    var afterColon := ts[1..][1..];
    assert ReadValue(key, afterColon, info).Ok?;
    assert afterColon[0] == ts[2];
  }

  /** An entry put in front of a list of entries. */
  lemma EntriesCons(e: Entry, more: seq<Entry>, seen: seq<string>, info: ModuleInfo)
    requires e.key in EXPECTED_KEYS && ValueFits(e.key, e.value) && AllFit(more)
    ensures AllFit([e] + more)
    ensures Render([e] + more) == EntryTokens(e) + Render(more)
    ensures ApplyAll(info, [e] + more) == ApplyAll(ApplyEntry(info, e), more)
    ensures seen + [e.key] + Keys(more) == seen + Keys([e] + more)
  {
    var es := [e] + more;
    assert es[0] == e && es[1..] == more;
    forall i | 0 <= i < |es| ensures es[i].key in EXPECTED_KEYS && ValueFits(es[i].key, es[i].value) {
      if i > 0 { assert es[i] == more[i - 1]; }
    }
    assert Keys(es) == [e.key] + Keys(more);
  }

  /** The entries the loop reads from a stream it scans without a panic. */
  lemma {:induction false} ScanSound(ts: seq<Token>, seen: seq<string>, info: ModuleInfo)
    returns (es: seq<Entry>)
    requires ScanFrom(ts, seen, info).Ok?
    ensures AllFit(es) && ts == Render(es)
    ensures ScanFrom(ts, seen, info).value == (seen + Keys(es), ApplyAll(info, es))
    decreases |ts|
  {
    if ts == [] {
      es := [];
      assert seen + [] == seen;
    } else {
      ScanStepShape(ts, seen, info);
      var e := Entry(ts[0].name, ts[2]);
      var rest := ts[4..];
      ScanEntry(e, rest, seen, info);
      var more := ScanSound(rest, seen + [e.key], ApplyEntry(info, e));
      EntriesCons(e, more, seen, info);
      es := [e] + more;
    }
  }

  /** Every declaration that is accepted is a well-formed one, and yields its information. */
  lemma ParseSound(ts: seq<Token>)
    requires ParseSpec(ts).Ok?
    ensures exists es :: WellFormed(es) && ts == Render(es) && ParseSpec(ts).value == InfoOf(es)
  {
    var es := ScanSound(ts, [], DEFAULT_INFO);
    assert [] + Keys(es) == Keys(es);
    ExpectedKeysDistinct();
    OrderedIff(EXPECTED_KEYS, Keys(es));
    assert WellFormed(es);
  }

  /** Scanning well-formed entries with distinct keys from the start of the stream. */
  lemma ScanEntriesFromStart(es: seq<Entry>, tail: seq<Token>)
    requires AllFit(es) && Distinct(Keys(es))
    ensures ScanFrom(Render(es) + tail, [], DEFAULT_INFO) == ScanFrom(tail, Keys(es), InfoOf(es))
  {
    ScanRender(es, tail, [], DEFAULT_INFO);
    assert [] + Keys(es) == Keys(es);
  }

  /** A key written a second time panics as a duplicate, before its value is looked at. */
  lemma ParseRejectsDuplicate(es: seq<Entry>, k: string, rest: seq<Token>)
    requires AllFit(es) && Distinct(Keys(es)) && k in Keys(es)
    ensures ParseSpec(Render(es) + [Ident(k)] + rest) == Err(DuplicatedKey(k))
  {
    var tail := [Ident(k)] + rest;
    ScanEntriesFromStart(es, tail);
    assert ScanStep(tail, Keys(es), InfoOf(es)) == Err(DuplicatedKey(k));
    assert Render(es) + [Ident(k)] + rest == Render(es) + tail;
  }

  /** A key outside `EXPECTED_KEYS` panics as unknown once its `:` is read. */
  lemma ParseRejectsUnknown(es: seq<Entry>, k: string, rest: seq<Token>)
    requires AllFit(es) && Distinct(Keys(es)) && k !in Keys(es) && k !in EXPECTED_KEYS
    ensures ParseSpec(Render(es) + [Ident(k), Punct(':')] + rest) == Err(UnknownKey(k))
  {
    var tail := [Ident(k), Punct(':')] + rest;
    ScanEntriesFromStart(es, tail);
    assert tail[1..][1..] == rest;
    assert ScanStep(tail, Keys(es), InfoOf(es)) == Err(UnknownKey(k));
    assert Render(es) + [Ident(k), Punct(':')] + rest == Render(es) + tail;
  }

  /**
   * A declaration of known, distinct, well-typed keys without some required
   * key panics naming the first one missing, in the order `type`, `name`,
   * `license`.
   */
  lemma ParseRejectsMissing(es: seq<Entry>)
    requires AllFit(es) && Distinct(Keys(es))
    requires exists k :: k in REQUIRED_KEYS && k !in Keys(es)
    ensures FirstMissing(REQUIRED_KEYS, Keys(es)).Some?
    ensures ParseSpec(Render(es)) == Err(MissingRequiredKey(FirstMissing(REQUIRED_KEYS, Keys(es)).value))
    ensures ParseSpec(Render(es)).error.key in REQUIRED_KEYS
    ensures ParseSpec(Render(es)).error.key !in Keys(es)
  {
    ScanEntriesFromStart(es, []);
    assert Render(es) + [] == Render(es);
  }

  /**
   * A declaration with all required keys, each known key once, but out of
   * order, panics and lists the keys in the order they should have had.
   */
  lemma ParseRejectsMisordered(es: seq<Entry>)
    requires AllFit(es) && Distinct(Keys(es))
    requires forall k :: k in REQUIRED_KEYS ==> k in Keys(es)
    requires !IsSubsequence(Keys(es), EXPECTED_KEYS)
    ensures ParseSpec(Render(es)) == Err(KeysNotOrdered(KeepSeen(EXPECTED_KEYS, Keys(es))))
  {
    ScanEntriesFromStart(es, []);
    assert Render(es) + [] == Render(es);
    ExpectedKeysDistinct();
    OrderedIff(EXPECTED_KEYS, Keys(es));
  }

  /** An `alias_rtnl_link: b"x",` entry sets the alias to `rtnl-link-x`. */
  lemma AliasRtnlLink(info: ModuleInfo, link: string)
    ensures ValueFits("alias_rtnl_link", Literal("b\"" + link + "\""))
    ensures ApplyEntry(info, Entry("alias_rtnl_link", Literal("b\"" + link + "\"")))
            == info.(alias := Some("rtnl-link-" + link))
  {
    var text := "b\"" + link + "\"";
    assert text[..2] == "b\"";
    assert text[2..|text| - 1] == link;
  }
}
