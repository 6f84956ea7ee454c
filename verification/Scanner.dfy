/** The duplicate-key scanners: three packages each walk a document's tokens with a decoder
    cursor and refuse an object that repeats a key, at any depth. */
module Scanner {
  import opened Text
  import opened Json

  datatype Token =
    | OpenObject | CloseObject | OpenArray | CloseArray
    | Text(s: string)
    | Number(lexeme: string)
    | Flag(b: bool)
    | Nil

  predicate Closes(t: Token) { t.CloseObject? || t.CloseArray? }

  // ---- what a document's tokens are ----------------------------------------------

  function Flatten(v: Json): (ts: seq<Token>)
    ensures |ts| > 0 && !Closes(ts[0])
  {
    match v
    case Null => [Nil]
    case Bool(b) => [Flag(b)]
    case Num(lexeme) => [Number(lexeme)]
    case Str(text) => [Text(text)]
    case Arr(items) => [OpenArray] + (FlattenItems(items) + [CloseArray])
    case Obj(fields) => [OpenObject] + (FlattenFields(fields) + [CloseObject])
  }

  function FlattenItems(items: Items): seq<Token> {
    if items.NoItems? then [] else Flatten(items.first) + FlattenItems(items.others)
  }

  function FlattenFields(fields: Fields): seq<Token> {
    if fields.NoFields? then [] else [Text(fields.key)] + (Flatten(fields.value) + FlattenFields(fields.more))
  }

  function Keys(fields: Fields): seq<string> {
    if fields.NoFields? then [] else [fields.key] + Keys(fields.more)
  }

  /** No object in v, however deep, has the same key twice. */
  predicate KeysDistinct(v: Json) {
    match v
    case Arr(items) => KeysDistinctItems(items)
    case Obj(fields) =>
      KeysDistinctFields(fields) && forall i, j :: 0 <= i < j < |Keys(fields)| ==> Keys(fields)[i] != Keys(fields)[j]
    case _ => true
  }

  predicate KeysDistinctItems(items: Items) {
    items.Item? ==> KeysDistinct(items.first) && KeysDistinctItems(items.others)
  }

  predicate KeysDistinctFields(fields: Fields) {
    fields.Field? ==> KeysDistinct(fields.value) && KeysDistinctFields(fields.more)
  }

  lemma {:induction false} KeysOfPairs(ps: seq<Pair>)
    ensures |Keys(FromPairs(ps))| == |ps|
    ensures forall i :: 0 <= i < |ps| ==> Keys(FromPairs(ps))[i] == ps[i].0
  {
    if ps != [] { KeysOfPairs(ps[1..]); }
  }

  lemma {:induction false} KeysDistinctPairs(ps: seq<Pair>)
    requires forall i :: 0 <= i < |ps| ==> KeysDistinct(ps[i].1)
    ensures KeysDistinctFields(FromPairs(ps))
  {
    if ps != [] { KeysDistinctPairs(ps[1..]); }
  }

  lemma KeysDistinctObject(ps: seq<Pair>)
    requires NamesDistinct(ps) && forall i :: 0 <= i < |ps| ==> KeysDistinct(ps[i].1)
    ensures KeysDistinct(Obj(FromPairs(ps)))
  {
    KeysOfPairs(ps);
    KeysDistinctPairs(ps);
  }

  lemma {:induction false} KeysDistinctSeq(vs: seq<Json>)
    requires forall i :: 0 <= i < |vs| ==> KeysDistinct(vs[i])
    ensures KeysDistinctItems(FromSeq(vs))
  {
    if vs != [] { KeysDistinctSeq(vs[1..]); }
  }

  // ---- the scan as a function of the remaining tokens -------------------------------

  datatype Scan = Rest(ts: seq<Token>) | Duplicate | Malformed

  /** Scan one value. With `strict` the closing delimiter must match the opening one. */
  function ScanValue(ts: seq<Token>, strict: bool): (r: Scan)
    ensures r.Rest? ==> |r.ts| < |ts|
    decreases |ts|, 0
  {
    if ts == [] then Malformed else
    match ts[0]
    case OpenObject => ScanFields(ts[1..], {}, strict)
    case OpenArray => ScanItems(ts[1..], strict)
    case CloseObject => Malformed
    case CloseArray => Malformed
    case _ => Rest(ts[1..])
  }

  function ScanItems(ts: seq<Token>, strict: bool): (r: Scan)
    ensures r.Rest? ==> |r.ts| < |ts|
    decreases |ts|, 1
  {
    if ts == [] then Malformed
    else if Closes(ts[0]) then if strict && !ts[0].CloseArray? then Malformed else Rest(ts[1..])
    else
      match ScanValue(ts, strict)
      case Rest(us) => ScanItems(us, strict)
      case failed => failed
  }

  function ScanFields(ts: seq<Token>, seen: set<string>, strict: bool): (r: Scan)
    ensures r.Rest? ==> |r.ts| < |ts|
    decreases |ts|, 1
  {
    if ts == [] then Malformed
    else if Closes(ts[0]) then if strict && !ts[0].CloseObject? then Malformed else Rest(ts[1..])
    else if !ts[0].Text? then Malformed
    else if ts[0].s in seen then Duplicate
    else
      match ScanValue(ts[1..], strict)
      case Rest(us) => ScanFields(us, seen + {ts[0].s}, strict)
      case failed => failed
  }

  // ---- the scan accepts exactly the documents without repeated keys ---------------------

  /** Fields keep distinct keys, none of them already seen. */
  predicate FreshKeys(fields: Fields, seen: set<string>) {
    && (forall i :: 0 <= i < |Keys(fields)| ==> Keys(fields)[i] !in seen)
    && (forall i, j :: 0 <= i < j < |Keys(fields)| ==> Keys(fields)[i] != Keys(fields)[j])
  }

  lemma FreshKeysStep(fields: Fields, seen: set<string>)
    requires fields.Field?
    ensures FreshKeys(fields, seen) <==> fields.key !in seen && FreshKeys(fields.more, seen + {fields.key})
  {
    var ks, more := Keys(fields), Keys(fields.more);
    assert forall i :: 0 <= i < |more| ==> more[i] == ks[i + 1];
    if fields.key !in seen && FreshKeys(fields.more, seen + {fields.key}) {
      forall i | 0 <= i < |ks| ensures ks[i] !in seen {
        if i > 0 { assert more[i - 1] !in seen + {fields.key}; }
      }
      forall i, j | 0 <= i < j < |ks| ensures ks[i] != ks[j] {
        assert more[j - 1] !in seen + {fields.key};
      }
    }
    if FreshKeys(fields, seen) {
      assert ks[0] == fields.key;
      forall i | 0 <= i < |more| ensures more[i] !in seen + {fields.key} {
        assert ks[0] != ks[i + 1];
      }
    }
  }

  /** On the tokens of a document the scan passes over it, or reports a repeated key if there is one. */
  lemma {:induction false} ScanOfFlatten(v: Json, rest: seq<Token>, strict: bool)
    ensures ScanValue(Flatten(v) + rest, strict) == if KeysDistinct(v) then Rest(rest) else Duplicate
    decreases v, 0
  {
    var ts := Flatten(v) + rest;
    match v {
      case Arr(items) =>
        assert ts[1..] == FlattenItems(items) + ([CloseArray] + rest);
        ScanOfFlattenItems(items, rest, strict);
      case Obj(fields) =>
        assert ts[1..] == FlattenFields(fields) + ([CloseObject] + rest);
        ScanOfFlattenFields(fields, {}, rest, strict);
      case _ =>
        assert ts[1..] == rest;
    }
  }

  lemma {:induction false} ScanOfFlattenItems(items: Items, rest: seq<Token>, strict: bool)
    ensures ScanItems(FlattenItems(items) + ([CloseArray] + rest), strict) == if KeysDistinctItems(items) then
      Rest(rest) else Duplicate
    decreases items, 1
  {
    var close := [CloseArray] + rest;
    var ts := FlattenItems(items) + close;
    if items.NoItems? {
      assert ts == close && close[1..] == rest;
    } else {
      var us := FlattenItems(items.others) + close;
      assert ts == Flatten(items.first) + us;
      ScanOfFlatten(items.first, us, strict);
      ScanOfFlattenItems(items.others, rest, strict);
    }
  }

  lemma {:induction false} ScanOfFlattenFields(fields: Fields, seen: set<string>, rest: seq<Token>, strict: bool)
    ensures ScanFields(FlattenFields(fields) + ([CloseObject] + rest), seen, strict)
         == if KeysDistinctFields(fields) && FreshKeys(fields, seen) then Rest(rest) else Duplicate
    decreases fields, 1
  {
    var close := [CloseObject] + rest;
    var ts := FlattenFields(fields) + close;
    if fields.NoFields? {
      assert ts == close && close[1..] == rest;
    } else {
      var us := FlattenFields(fields.more) + close;
      assert ts[0] == Text(fields.key) && ts[1..] == Flatten(fields.value) + us;
      FreshKeysStep(fields, seen);
      ScanOfFlatten(fields.value, us, strict);
      ScanOfFlattenFields(fields.more, seen + {fields.key}, rest, strict);
    }
  }

  /** What a strict scan passes over is the flattening of a document with distinct keys. */
  lemma {:induction false} ScannedDocument(ts: seq<Token>) returns (v: Json)
    requires ScanValue(ts, true).Rest?
    ensures ts == Flatten(v) + ScanValue(ts, true).ts && KeysDistinct(v)
    decreases |ts|, 0
  {
    hide Flatten, FlattenFields, FlattenItems, KeysDistinct, KeysDistinctFields, KeysDistinctItems, FreshKeys;
    match ts[0] {
      case OpenObject =>
        var fields := ScannedFields(ts[1..], {});
        v := Obj(fields);
        ScannedObject(ts, fields, ScanValue(ts, true).ts);
      case OpenArray =>
        var items := ScannedItems(ts[1..]);
        v := Arr(items);
        ScannedArray(ts, items, ScanValue(ts, true).ts);
      case Text(_) => v := ScalarOf(ts[0]); ScannedScalar(ts);
      case Number(_) => v := ScalarOf(ts[0]); ScannedScalar(ts);
      case Flag(_) => v := ScalarOf(ts[0]); ScannedScalar(ts);
      case Nil => v := ScalarOf(ts[0]); ScannedScalar(ts);
    }
  }

  lemma ScannedObject(ts: seq<Token>, fields: Fields, rest: seq<Token>)
    requires ts != [] && ts[0].OpenObject? && ts[1..] == FlattenFields(fields) + ([CloseObject] + rest)
    requires KeysDistinctFields(fields) && FreshKeys(fields, {})
    ensures ts == Flatten(Obj(fields)) + rest && KeysDistinct(Obj(fields))
  {
    hide FlattenFields, Keys, KeysDistinctFields;
    assert ts == [OpenObject] + ts[1..];
  }

  lemma ScannedArray(ts: seq<Token>, items: Items, rest: seq<Token>)
    requires ts != [] && ts[0].OpenArray? && ts[1..] == FlattenItems(items) + ([CloseArray] + rest)
    requires KeysDistinctItems(items)
    ensures ts == Flatten(Arr(items)) + rest && KeysDistinct(Arr(items))
  {
    hide FlattenItems, KeysDistinctItems;
    assert ts == [OpenArray] + ts[1..];
  }

  function ScalarOf(t: Token): Json {
    match t
    case Text(s) => Str(s)
    case Number(lexeme) => Num(lexeme)
    case Flag(b) => Bool(b)
    case _ => Null
  }

  lemma ScannedScalar(ts: seq<Token>)
    requires ts != [] && (ts[0].Text? || ts[0].Number? || ts[0].Flag? || ts[0].Nil?)
    ensures ts == Flatten(ScalarOf(ts[0])) + ts[1..] && KeysDistinct(ScalarOf(ts[0]))
  {
  }

  lemma {:induction false} ScannedItems(ts: seq<Token>) returns (items: Items)
    requires ScanItems(ts, true).Rest?
    ensures ts == FlattenItems(items) + ([CloseArray] + ScanItems(ts, true).ts) && KeysDistinctItems(items)
    decreases |ts|, 1
  {
    hide ScanValue, ScanFields, KeysDistinct, Flatten;
    if Closes(ts[0]) {
      items := NoItems;
    } else {
      var first := ScannedDocument(ts);
      var others := ScannedItems(ScanValue(ts, true).ts);
      items := Item(first, others);
    }
  }

  lemma FlattenField(ts: seq<Token>, fields: Fields, us: seq<Token>, close: seq<Token>)
    requires fields.Field? && ts != [] && ts[0] == Text(fields.key)
    requires ts[1..] == Flatten(fields.value) + us && us == FlattenFields(fields.more) + close
    ensures ts == FlattenFields(fields) + close
  {
    assert ts == [ts[0]] + ts[1..];
  }

  lemma {:induction false} ScannedFields(ts: seq<Token>, seen: set<string>) returns (fields: Fields)
    requires ScanFields(ts, seen, true).Rest?
    ensures ts == FlattenFields(fields) + ([CloseObject] + ScanFields(ts, seen, true).ts)
    ensures KeysDistinctFields(fields) && FreshKeys(fields, seen)
    decreases |ts|, 1
  {
    if Closes(ts[0]) {
      fields := NoFields;
    } else {
      var value := ScannedDocument(ts[1..]);
      var more := ScannedFields(ScanValue(ts[1..], true).ts, seen + {ts[0].s});
      fields := Field(ts[0].s, value, more);
      FreshKeysStep(fields, seen);
      FlattenField(ts, fields, ScanValue(ts[1..], true).ts, [CloseObject] + ScanFields(ts, seen, true).ts);
    }
  }

  /** The manifest and policy scanners accept a token list exactly when it is one document
      without repeated keys, whatever the list. */
  lemma ScannerAcceptsExactly(ts: seq<Token>)
    ensures ScanValue(ts, true) == Rest([]) <==> exists v :: KeysDistinct(v) && ts == Flatten(v)
  {
    if ScanValue(ts, true) == Rest([]) {
      var v := ScannedDocument(ts);
      assert ts == Flatten(v);
    }
    if v :| KeysDistinct(v) && ts == Flatten(v) {
      ScanOfFlatten(v, [], true);
      assert Flatten(v) + [] == Flatten(v);
    }
  }

  // ---- the configuration scanner leaves bracket matching to the decoder ---------------

  /** A decoder never yields a closing delimiter that does not match the innermost open one. */
  predicate Matched(ts: seq<Token>, open: seq<Token>) {
    ts == [] ||
    match ts[0]
    case OpenObject => Matched(ts[1..], open + [CloseObject])
    case OpenArray => Matched(ts[1..], open + [CloseArray])
    case CloseObject => open != [] && open[|open| - 1] == CloseObject && Matched(ts[1..], open[..|open| - 1])
    case CloseArray => open != [] && open[|open| - 1] == CloseArray && Matched(ts[1..], open[..|open| - 1])
    case _ => Matched(ts[1..], open)
  }

  lemma {:induction false} LooseScanAgrees(ts: seq<Token>, open: seq<Token>)
    requires Matched(ts, open)
    ensures ScanValue(ts, false) == ScanValue(ts, true)
    ensures ScanValue(ts, true).Rest? ==> Matched(ScanValue(ts, true).ts, open)
    decreases |ts|, 0
  {
    if ts != [] {
      if ts[0].OpenObject? { LooseFieldsAgree(ts[1..], {}, open); }
      if ts[0].OpenArray? { LooseItemsAgree(ts[1..], open); }
    }
  }

  lemma {:induction false} LooseItemsAgree(ts: seq<Token>, open: seq<Token>)
    requires Matched(ts, open + [CloseArray])
    ensures ScanItems(ts, false) == ScanItems(ts, true)
    ensures ScanItems(ts, true).Rest? ==> Matched(ScanItems(ts, true).ts, open)
    decreases |ts|, 1
  {
    assert (open + [CloseArray])[..|open|] == open;
    if ts != [] && !Closes(ts[0]) {
      LooseScanAgrees(ts, open + [CloseArray]);
      if ScanValue(ts, true).Rest? { LooseItemsAgree(ScanValue(ts, true).ts, open); }
    }
  }

  lemma {:induction false} LooseFieldsAgree(ts: seq<Token>, seen: set<string>, open: seq<Token>)
    requires Matched(ts, open + [CloseObject])
    ensures ScanFields(ts, seen, false) == ScanFields(ts, seen, true)
    ensures ScanFields(ts, seen, true).Rest? ==> Matched(ScanFields(ts, seen, true).ts, open)
    decreases |ts|, 1
  {
    assert (open + [CloseObject])[..|open|] == open;
    if ts != [] && ts[0].Text? && ts[0].s !in seen {
      LooseScanAgrees(ts[1..], open + [CloseObject]);
      if ScanValue(ts[1..], true).Rest? {
        LooseFieldsAgree(ScanValue(ts[1..], true).ts, seen + {ts[0].s}, open);
      }
    }
  }

  /** On every token list a decoder can yield, the three copies give the same answer;
      only a mismatched bracket, which no decoder yields, tells them apart. */
  lemma ScannersAgree(ts: seq<Token>)
    ensures Matched(ts, []) ==> ScanValue(ts, false) == ScanValue(ts, true)
    ensures ScanValue([OpenArray, CloseObject], false) != ScanValue([OpenArray, CloseObject], true)
  {
    if Matched(ts, []) { LooseScanAgrees(ts, []); }
    assert ScanItems([CloseObject], false) == Rest([]) && ScanItems([CloseObject], true) == Malformed;
    assert [OpenArray, CloseObject][1..] == [CloseObject];
  }

  // ---- the decoder cursor and the three scanners as written ---------------------------

  class Decoder {
    var rest: seq<Token>

    constructor (tokens: seq<Token>)
      ensures rest == tokens
    {
      rest := tokens;
    }

    /** The next token, or None where the decoder reports an error or the end. */
    method Next() returns (t: Option<Token>)
      modifies this
      ensures old(rest) == [] ==> t == None && rest == []
      ensures old(rest) != [] ==> t == Some(old(rest)[0]) && rest == old(rest)[1..]
    {
      if rest == [] {
        t := None;
      } else {
        t, rest := Some(rest[0]), rest[1..];
      }
    }

    predicate More()
      reads this
    {
      rest != [] && !Closes(rest[0])
    }
  }

  datatype ScanError = NoError | ParseError | DuplicateKey

  function ErrorOf(s: Scan): ScanError {
    match s
    case Rest(_) => NoError
    case Duplicate => DuplicateKey
    case Malformed => ParseError
  }

  /** approvalmanifest.scanJSONValue. */
  method ScanJSONValue(d: Decoder) returns (e: ScanError)
    modifies d
    ensures e == ErrorOf(ScanValue(old(d.rest), true))
    ensures e == NoError ==> d.rest == ScanValue(old(d.rest), true).ts
    ensures |d.rest| <= |old(d.rest)|
    decreases |d.rest|
  {
    var token := d.Next();
    if token == None { return ParseError; }
    match token.value {
      case OpenObject =>
        ghost var inside := d.rest;
        var seen: set<string> := {};
        while d.More()
          invariant |d.rest| <= |inside| < |old(d.rest)|
          invariant ScanFields(d.rest, seen, true) == ScanFields(inside, {}, true)
          decreases |d.rest|
        {
          var key := d.Next();
          if key == None || !key.value.Text? { return ParseError; }
          if key.value.s in seen { return DuplicateKey; }
          seen := seen + {key.value.s};
          e := ScanJSONValue(d);
          if e != NoError { return; }
        }
        var end := d.Next();
        if end != Some(CloseObject) { return ParseError; }
      case OpenArray =>
        ghost var inside := d.rest;
        while d.More()
          invariant |d.rest| <= |inside| < |old(d.rest)|
          invariant ScanItems(d.rest, true) == ScanItems(inside, true)
          decreases |d.rest|
        {
          e := ScanJSONValue(d);
          if e != NoError { return; }
        }
        var end := d.Next();
        if end != Some(CloseArray) { return ParseError; }
      case CloseObject => return ParseError;
      case CloseArray => return ParseError;
      case _ =>
    }
    e := NoError;
  }

  /** egresspolicy.scanObjectContents, after the opening brace. */
  method ScanObjectContents(d: Decoder) returns (ok: bool)
    modifies d
    ensures ok == ScanFields(old(d.rest), {}, true).Rest?
    ensures ok ==> d.rest == ScanFields(old(d.rest), {}, true).ts
    ensures |d.rest| <= |old(d.rest)|
    decreases |d.rest|, 1
  {
    var seen: set<string> := {};
    while d.More()
      invariant |d.rest| <= |old(d.rest)|
      invariant ScanFields(d.rest, seen, true) == ScanFields(old(d.rest), {}, true)
      decreases |d.rest|
    {
      var key := d.Next();
      if key == None || !key.value.Text? { return false; }
      if key.value.s in seen { return false; }
      seen := seen + {key.value.s};
      var inner := PolicyScanValue(d);
      if !inner { return false; }
    }
    var end := d.Next();
    ok := end == Some(CloseObject);
  }

  /** egresspolicy.scanJSONValue. */
  method PolicyScanValue(d: Decoder) returns (ok: bool)
    modifies d
    ensures ok == ScanValue(old(d.rest), true).Rest?
    ensures ok ==> d.rest == ScanValue(old(d.rest), true).ts
    ensures |d.rest| <= |old(d.rest)|
    decreases |d.rest|, 0
  {
    var token := d.Next();
    if token == None { return false; }
    match token.value {
      case OpenObject => ok := ScanObjectContents(d);
      case OpenArray =>
        ghost var inside := d.rest;
        while d.More()
          invariant |d.rest| <= |inside| < |old(d.rest)|
          invariant ScanItems(d.rest, true) == ScanItems(inside, true)
          decreases |d.rest|
        {
          var inner := PolicyScanValue(d);
          if !inner { return false; }
        }
        var end := d.Next();
        ok := end == Some(CloseArray);
      case CloseObject => ok := false;
      case CloseArray => ok := false;
      case _ => ok := true;
    }
  }

  /** egresspolicy.scanSingleJSONObject: the same scan, and the top level must be an object. */
  method ScanSingleJSONObject(tokens: seq<Token>) returns (ok: bool)
    ensures ok <==> exists v: Json :: v.Obj? && KeysDistinct(v) && tokens == Flatten(v)
  {
    var d := new Decoder(tokens);
    var token := d.Next();
    ScannerAcceptsExactly(tokens);
    if token != Some(OpenObject) { return false; }
    var inner := ScanObjectContents(d);
    if !inner { return false; }
    var trailing := d.Next();
    ok := trailing == None;
  }

  /** config.scanValue: any closing delimiter the decoder yields ends the value. */
  method ConfigScanValue(d: Decoder) returns (e: ScanError)
    modifies d
    ensures e == ErrorOf(ScanValue(old(d.rest), false))
    ensures e == NoError ==> d.rest == ScanValue(old(d.rest), false).ts
    ensures |d.rest| <= |old(d.rest)|
    decreases |d.rest|
  {
    var token := d.Next();
    if token == None { return ParseError; }
    match token.value {
      case OpenObject =>
        ghost var inside := d.rest;
        var seen: set<string> := {};
        while d.More()
          invariant |d.rest| <= |inside| < |old(d.rest)|
          invariant ScanFields(d.rest, seen, false) == ScanFields(inside, {}, false)
          decreases |d.rest|
        {
          var key := d.Next();
          if key == None || !key.value.Text? { return ParseError; }
          if key.value.s in seen { return DuplicateKey; }
          seen := seen + {key.value.s};
          e := ConfigScanValue(d);
          if e != NoError { return; }
        }
        var end := d.Next();
        if end == None { return ParseError; }
      case OpenArray =>
        ghost var inside := d.rest;
        while d.More()
          invariant |d.rest| <= |inside| < |old(d.rest)|
          invariant ScanItems(d.rest, false) == ScanItems(inside, false)
          decreases |d.rest|
        {
          e := ConfigScanValue(d);
          if e != NoError { return; }
        }
        var end := d.Next();
        if end == None { return ParseError; }
      case CloseObject => return ParseError;
      case CloseArray => return ParseError;
      case _ =>
    }
    e := NoError;
  }
}
