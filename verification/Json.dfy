/** JSON documents (RFC 8259): the decoder's grammar with white space and every escape,
    and the compact encoder of Go's encoding/json with HTML escaping. */
module Json {
  import opened Text

  datatype Json =
    | Null
    | Bool(b: bool)
    | Num(lexeme: string)
    | Str(text: string)
    | Arr(items: Items)
    | Obj(fields: Fields)

  datatype Items = NoItems | Item(first: Json, others: Items)

  datatype Fields = NoFields | Field(key: string, value: Json, more: Fields)

  // ---- encoder ------------------------------------------------------------------

  function HexDigit(n: nat): (c: char)
    requires n < 16
    ensures IsLowerHex(c)
  {
    if n < 10 then ('0' as int + n) as char else ('a' as int + n - 10) as char
  }

  /** The letter of a control character that has one. */
  function ShortEscape(c: char): Option<char> {
    if c == '\n' then Some('n')
    else if c == '\r' then Some('r')
    else if c == '\t' then Some('t')
    else if c as int == 8 then Some('b')
    else if c as int == 12 then Some('f')
    else None
  }

  function EscapeChar(c: char): (s: string)
    ensures 0 < |s| <= 6
  {
    if c == '"' then "\\\""
    else if c == '\\' then "\\\\"
    else if ShortEscape(c).Some? then ['\\', ShortEscape(c).value]
    else if c < ' ' || c in {'<', '>', '&'} then
      "\\u00" + [HexDigit(c as int / 16), HexDigit(c as int % 16)]
    else [c]
  }

  function Escape(s: string): string {
    if s == [] then [] else EscapeChar(s[0]) + Escape(s[1..])
  }

  function Encode(v: Json): string {
    match v
    case Null => "null"
    case Bool(b) => if b then "true" else "false"
    case Num(lexeme) => lexeme
    case Str(text) => "\"" + Escape(text) + "\""
    case Arr(items) => "[" + EncodeItems(items) + "]"
    case Obj(fields) => "{" + EncodeFields(fields) + "}"
  }

  function EncodeItems(items: Items): string {
    match items
    case NoItems => ""
    case Item(first, others) => Encode(first) + (if others.NoItems? then "" else "," + EncodeItems(others))
  }

  function EncodeFields(fields: Fields): string {
    match fields
    case NoFields => ""
    case Field(key, value, more) =>
      "\"" + Escape(key) + "\":" + Encode(value) + (if more.NoFields? then "" else "," + EncodeFields(more))
  }

  // ---- decoder ------------------------------------------------------------------

  predicate IsSpace(c: char) { c in {' ', '\t', '\n', '\r'} }

  function SkipSpace(s: string): (r: string)
    ensures |r| <= |s|
  {
    if s != [] && IsSpace(s[0]) then SkipSpace(s[1..]) else s
  }

  predicate NumberChar(c: char) { IsDigit(c) || c in {'-', '+', '.', 'e', 'E'} }

  function NumberLength(s: string): (n: nat)
    ensures n <= |s|
  {
    if s != [] && NumberChar(s[0]) then 1 + NumberLength(s[1..]) else 0
  }

  function SkipDigits(s: string): string {
    if s != [] && IsDigit(s[0]) then SkipDigits(s[1..]) else s
  }

  predicate ValidNumber(l: string) {
    var t := if l != [] && l[0] == '-' then l[1..] else l;
    t != [] && IsDigit(t[0]) && ValidFraction(if t[0] == '0' then t[1..] else SkipDigits(t))
  }

  predicate ValidFraction(u: string) {
    if u != [] && u[0] == '.' then |u| > 1 && IsDigit(u[1]) && ValidExponent(SkipDigits(u[1..]))
    else ValidExponent(u)
  }

  predicate ValidExponent(u: string) {
    u == [] || (u[0] in {'e', 'E'} && var v := if |u| > 1 && u[1] in {'+', '-'} then u[2..] else u[1..];
                v != [] && AllDigits(v))
  }

  function HexValue(c: char): (r: Option<nat>)
    ensures r.Some? ==> r.value < 16
  {
    if '0' <= c <= '9' then Some(c as int - '0' as int)
    else if 'a' <= c <= 'f' then Some(c as int - 'a' as int + 10)
    else if 'A' <= c <= 'F' then Some(c as int - 'A' as int + 10)
    else None
  }

  function CodePoint(n: nat): char
    requires n < 0x10000
  {
    if 0xD800 <= n < 0xE000 then '\U{FFFD}' else n as char
  }

  /** One escape sequence after its backslash. */
  function ParseEscape(s: string): (r: Option<(char, string)>)
    ensures r.Some? ==> |r.value.1| < |s|
  {
    if s == [] then None
    else if s[0] in {'"', '\\', '/'} then Some((s[0], s[1..]))
    else if s[0] == 'b' then Some((8 as char, s[1..]))
    else if s[0] == 'f' then Some((12 as char, s[1..]))
    else if s[0] == 'n' then Some(('\n', s[1..]))
    else if s[0] == 'r' then Some(('\r', s[1..]))
    else if s[0] == 't' then Some(('\t', s[1..]))
    else if s[0] == 'u' && |s| >= 5 then
      var a :- HexValue(s[1]);
      var b :- HexValue(s[2]);
      var c :- HexValue(s[3]);
      var d :- HexValue(s[4]);
      Some((CodePoint(a * 4096 + b * 256 + c * 16 + d), s[5..]))
    else None
  }

  /** The rest of a string after its opening quote. */
  function ParseString(s: string): (r: Option<(string, string)>)
    ensures r.Some? ==> |r.value.1| < |s|
    decreases |s|
  {
    if s == [] || s[0] < ' ' then None
    else if s[0] == '"' then Some(("", s[1..]))
    else if s[0] == '\\' then
      var (c, u) :- ParseEscape(s[1..]);
      var (text, rest) :- ParseString(u);
      Some(([c] + text, rest))
    else
      var (text, rest) :- ParseString(s[1..]);
      Some(([s[0]] + text, rest))
  }

  function ParseValue(s: string): (r: Option<(Json, string)>)
    ensures r.Some? ==> |r.value.1| < |s|
    decreases |s|, 0
  {
    var t := SkipSpace(s);
    if t == [] then None
    else if t[0] == '{' then
      var u := SkipSpace(t[1..]);
      if u != [] && u[0] == '}' then Some((Obj(NoFields), u[1..])) else
      var (fields, rest) :- ParseFields(u);
      Some((Obj(fields), rest))
    else if t[0] == '[' then
      var u := SkipSpace(t[1..]);
      if u != [] && u[0] == ']' then Some((Arr(NoItems), u[1..])) else
      var (items, rest) :- ParseItems(u);
      Some((Arr(items), rest))
    else if t[0] == '"' then
      var (text, rest) :- ParseString(t[1..]);
      Some((Str(text), rest))
    else if "null" <= t then Some((Null, t[4..]))
    else if "true" <= t then Some((Bool(true), t[4..]))
    else if "false" <= t then Some((Bool(false), t[5..]))
    else
      var n := NumberLength(t);
      if ValidNumber(t[..n]) then Some((Num(t[..n]), t[n..])) else None
  }

  function ParseItems(s: string): (r: Option<(Items, string)>)
    ensures r.Some? ==> |r.value.1| < |s|
    decreases |s|, 1
  {
    var (first, u) :- ParseValue(s);
    var v := SkipSpace(u);
    if v == [] then None
    else if v[0] == ']' then Some((Item(first, NoItems), v[1..]))
    else if v[0] == ',' then
      var (others, rest) :- ParseItems(v[1..]);
      Some((Item(first, others), rest))
    else None
  }

  function ParseFields(s: string): (r: Option<(Fields, string)>)
    ensures r.Some? ==> |r.value.1| < |s|
    decreases |s|, 1
  {
    var t := SkipSpace(s);
    if t == [] || t[0] != '"' then None else
    var (key, u) :- ParseString(t[1..]);
    var v := SkipSpace(u);
    if v == [] || v[0] != ':' then None else
    var (value, w) :- ParseValue(v[1..]);
    var x := SkipSpace(w);
    if x == [] then None
    else if x[0] == '}' then Some((Field(key, value, NoFields), x[1..]))
    else if x[0] == ',' then
      var (more, rest) :- ParseFields(x[1..]);
      Some((Field(key, value, more), rest))
    else None
  }

  /** A whole document: one value and nothing but white space after it. */
  function Decode(s: string): Option<Json> {
    var (v, rest) :- ParseValue(s);
    if SkipSpace(rest) == [] then Some(v) else None
  }

  // ---- the encoder is inverted by the decoder ---------------------------------------

  predicate WellFormed(v: Json) {
    match v
    case Num(lexeme) => ValidNumber(lexeme) && forall i :: 0 <= i < |lexeme| ==> NumberChar(lexeme[i])
    case Arr(items) => WellFormedItems(items)
    case Obj(fields) => WellFormedFields(fields)
    case _ => true
  }

  predicate WellFormedItems(items: Items) {
    items.Item? ==> WellFormed(items.first) && WellFormedItems(items.others)
  }

  predicate WellFormedFields(fields: Fields) {
    fields.Field? ==> WellFormed(fields.value) && WellFormedFields(fields.more)
  }

  lemma ParseEscapeOfEscape(c: char, rest: string)
    ensures EscapeChar(c)[0] == '\\' ==> ParseEscape(EscapeChar(c)[1..] + rest) == Some((c, rest))
    ensures EscapeChar(c)[0] != '\\' ==> EscapeChar(c) == [c] && c != '"' && c >= ' '
  {
    var t := EscapeChar(c)[1..] + rest;
    if ShortEscape(c).Some? {
      assert t[0] == ShortEscape(c).value && t[1..] == rest;
    } else if c < ' ' || c in {'<', '>', '&'} {
      assert |t| >= 5 && t[0] == 'u' && t[1] == '0' && t[2] == '0' && t[5..] == rest;
      assert HexValue(t[3]) == Some(c as int / 16) && HexValue(t[4]) == Some(c as int % 16);
      assert c as int / 16 * 16 + c as int % 16 == c as int;
    } else if c == '"' || c == '\\' {
      assert t[0] == c && t[1..] == rest;
    }
  }

  lemma ParseStringStep(c: char, tail: string, text: string, rest: string)
    requires ParseString(tail) == Some((text, rest))
    ensures ParseString(EscapeChar(c) + tail) == Some(([c] + text, rest))
  {
    var whole := EscapeChar(c) + tail;
    ParseEscapeOfEscape(c, tail);
    if EscapeChar(c)[0] == '\\' {
      assert whole[0] == '\\';
      assert whole[1..] == EscapeChar(c)[1..] + tail;
    } else {
      assert whole[0] == c && whole[1..] == tail;
    }
  }

  lemma {:induction false} ParseStringOfEscape(s: string, rest: string)
    ensures ParseString(Escape(s) + ("\"" + rest)) == Some((s, rest))
  {
    var close := "\"" + rest;
    if s == [] {
      assert Escape(s) + close == close;
      assert close[1..] == rest;
    } else {
      assert Escape(s) + close == EscapeChar(s[0]) + (Escape(s[1..]) + close);
      hide *;
      ParseStringOfEscape(s[1..], rest);
      ParseStringStep(s[0], Escape(s[1..]) + close, s[1..], rest);
      assert [s[0]] + s[1..] == s;
    }
  }

  /** Text that ends a number lexeme. */
  predicate Ends(rest: string) { rest == [] || !NumberChar(rest[0]) }

  lemma {:induction false} NumberLengthOf(lexeme: string, rest: string)
    requires Ends(rest) && forall i :: 0 <= i < |lexeme| ==> NumberChar(lexeme[i])
    ensures NumberLength(lexeme + rest) == |lexeme|
  {
    if lexeme == [] {
      assert lexeme + rest == rest;
    } else {
      NumberLengthOf(lexeme[1..], rest);
      assert (lexeme + rest)[1..] == lexeme[1..] + rest;
    }
  }

  lemma {:induction false} EncodingStarts(v: Json)
    requires WellFormed(v)
    ensures Encode(v) != [] && !IsSpace(Encode(v)[0]) && Encode(v)[0] !in {']', '}', ',', ':'}
  {
  }

  lemma ParseLiteral(v: Json, rest: string)
    requires v.Null? || v.Bool?
    ensures ParseValue(Encode(v) + rest) == Some((v, rest))
  {
    var s := Encode(v) + rest;
    assert SkipSpace(s) == s;
    assert s[..|Encode(v)|] == Encode(v) && s[|Encode(v)|..] == rest;
  }

  lemma ParseNumber(lexeme: string, rest: string)
    requires WellFormed(Num(lexeme)) && Ends(rest)
    ensures ParseValue(lexeme + rest) == Some((Num(lexeme), rest))
  {
    var s := lexeme + rest;
    assert s[0] == lexeme[0] && NumberChar(s[0]);
    assert SkipSpace(s) == s;
    NumberLengthOf(lexeme, rest);
    assert s[..|lexeme|] == lexeme && s[|lexeme|..] == rest;
  }

  lemma ParseQuoted(text: string, rest: string)
    ensures ParseValue(Encode(Str(text)) + rest) == Some((Str(text), rest))
  {
    QuotedText(text, rest);
    ParseStringOfEscape(text, rest);
    hide Encode, Escape, ParseString, ParseItems, ParseFields;
  }

  lemma QuotedText(text: string, rest: string)
    ensures Encode(Str(text)) + rest == ['"'] + (Escape(text) + ("\"" + rest))
  {
  }

  lemma ParseArrayStep(s: string, u: string, items: Items, rest: string)
    requires s != [] && s[0] == '[' && s[1..] == u && SkipSpace(u) == u && u != []
    requires if items.Item? then u[0] != ']' && ParseItems(u) == Some((items, rest)) else u[0] == ']' && u[1..] == rest
    ensures ParseValue(s) == Some((Arr(items), rest))
  {
    assert SkipSpace(s) == s;
  }

  lemma ParseObjectStep(s: string, u: string, fields: Fields, rest: string)
    requires s != [] && s[0] == '{' && s[1..] == u && SkipSpace(u) == u && u != []
    requires if fields.Field? then u[0] != '}' && ParseFields(u) == Some((fields, rest))
      else u[0] == '}' && u[1..] == rest
    ensures ParseValue(s) == Some((Obj(fields), rest))
  {
    assert SkipSpace(s) == s;
  }

  lemma Bracketed(open: char, x: string, close: char, rest: string)
    ensures var s := [open] + x + [close] + rest;
      s[0] == open && s[1..] == x + ([close] + rest) && x + ([close] + rest) != []
    ensures x == [] ==> (x + ([close] + rest))[0] == close && (x + ([close] + rest))[1..] == rest
    ensures x != [] ==> (x + ([close] + rest))[0] == x[0]
  {
    if x == [] { assert x + ([close] + rest) == [close] + rest; }
  }

  lemma EncodedArray(items: Items)
    ensures Encode(Arr(items)) == ['['] + EncodeItems(items) + [']'] && (items.NoItems? ==> EncodeItems(items) == [])
  {
  }

  lemma ItemsStart(items: Items)
    requires WellFormedItems(items) && items.Item?
    ensures EncodeItems(items) != [] && !IsSpace(EncodeItems(items)[0]) && EncodeItems(items)[0] != ']'
  {
    EncodingStarts(items.first);
    hide Encode;
  }

  lemma ArrayText(items: Items, rest: string)
    requires WellFormedItems(items)
    ensures var s, u := Encode(Arr(items)) + rest, EncodeItems(items) + ("]" + rest);
      s[0] == '[' && s[1..] == u && u != [] && !IsSpace(u[0])
      && if items.Item? then u[0] != ']' else u[0] == ']' && u[1..] == rest
  {
    hide Encode, EncodeItems, WellFormedItems;
    EncodedArray(items);
    Bracketed('[', EncodeItems(items), ']', rest);
    if items.Item? { ItemsStart(items); }
  }

  lemma EncodedObject(fields: Fields)
    ensures Encode(Obj(fields)) == ['{'] + EncodeFields(fields) + ['}']
    ensures fields.NoFields? ==> EncodeFields(fields) == []
  {
  }

  lemma FieldsStart(fields: Fields)
    requires fields.Field?
    ensures EncodeFields(fields) != [] && EncodeFields(fields)[0] == '"'
  {
    hide Encode, Escape;
  }

  lemma ObjectText(fields: Fields, rest: string)
    ensures var s, u := Encode(Obj(fields)) + rest, EncodeFields(fields) + ("}" + rest);
      s[0] == '{' && s[1..] == u && u != [] && !IsSpace(u[0])
      && if fields.Field? then u[0] != '}' else u[0] == '}' && u[1..] == rest
  {
    hide Encode, EncodeFields;
    EncodedObject(fields);
    Bracketed('{', EncodeFields(fields), '}', rest);
    if fields.Field? { FieldsStart(fields); }
  }

  lemma {:induction false} ParseValueOfEncode(v: Json, rest: string)
    requires WellFormed(v) && Ends(rest)
    ensures ParseValue(Encode(v) + rest) == Some((v, rest))
    decreases v, 0
  {
    match v {
      case Null => ParseLiteral(v, rest);
      case Bool(_) => ParseLiteral(v, rest);
      case Num(lexeme) => ParseNumber(lexeme, rest);
      case Str(text) => ParseQuoted(text, rest);
      case Arr(items) =>
        if items.Item? { ParseItemsOfEncode(items, rest); }
        ArrayText(items, rest);
        ParseArrayStep(Encode(v) + rest, EncodeItems(items) + ("]" + rest), items, rest);
      case Obj(fields) =>
        if fields.Field? { ParseFieldsOfEncode(fields, rest); }
        ObjectText(fields, rest);
        ParseObjectStep(Encode(v) + rest, EncodeFields(fields) + ("}" + rest), fields, rest);
    }
  }

  lemma {:induction false} ParseItemsOfEncode(items: Items, rest: string)
    requires items.Item? && WellFormedItems(items)
    ensures ParseItems(EncodeItems(items) + ("]" + rest)) == Some((items, rest))
    decreases items, 1
  {
    var close := "]" + rest;
    var tail := if items.others.NoItems? then close else "," + (EncodeItems(items.others) + close);
    assert EncodeItems(items) + close == Encode(items.first) + tail;
    ParseValueOfEncode(items.first, tail);
    assert SkipSpace(tail) == tail;
    assert tail[1..] == if items.others.NoItems? then rest else EncodeItems(items.others) + close;
    if items.others.Item? {
      ParseItemsOfEncode(items.others, rest);
    }
  }

  lemma FieldText(fields: Fields, close: string, tail: string)
    requires fields.Field?
    requires tail == if fields.more.NoFields? then close else "," + (EncodeFields(fields.more) + close)
    ensures EncodeFields(fields) + close
         == ['"'] + (Escape(fields.key) + ("\"" + (":" + (Encode(fields.value) + tail))))
  {
  }

  lemma ParseFieldHead(key: string, valueAndTail: string, s: string)
    requires s == ['"'] + (Escape(key) + ("\"" + (":" + valueAndTail)))
    ensures SkipSpace(s) == s && s[0] == '"'
    ensures ParseString(s[1..]) == Some((key, ":" + valueAndTail))
  {
    assert s[1..] == Escape(key) + ("\"" + (":" + valueAndTail));
    ParseStringOfEscape(key, ":" + valueAndTail);
  }

  lemma ParseFieldsStep(s: string, fields: Fields, valueAndTail: string, tail: string, rest: string)
    requires fields.Field? && s != [] && SkipSpace(s) == s && s[0] == '"'
    requires ParseString(s[1..]) == Some((fields.key, ":" + valueAndTail))
    requires ParseValue(valueAndTail) == Some((fields.value, tail))
    requires tail != [] && SkipSpace(tail) == tail
    requires if fields.more.NoFields? then tail[0] == '}' && tail[1..] == rest
             else tail[0] == ',' && ParseFields(tail[1..]) == Some((fields.more, rest))
    ensures ParseFields(s) == Some((fields, rest))
  {
    var v := ":" + valueAndTail;
    assert SkipSpace(v) == v && v[1..] == valueAndTail;
  }

  lemma {:induction false} ParseFieldsOfEncode(fields: Fields, rest: string)
    requires fields.Field? && WellFormedFields(fields)
    ensures ParseFields(EncodeFields(fields) + ("}" + rest)) == Some((fields, rest))
    decreases fields, 1
  {
    var close := "}" + rest;
    var s := EncodeFields(fields) + close;
    var tail := if fields.more.NoFields? then close else "," + (EncodeFields(fields.more) + close);
    FieldText(fields, close, tail);
    ParseFieldHead(fields.key, Encode(fields.value) + tail, s);
    ParseValueOfEncode(fields.value, tail);
    assert tail[1..] == if fields.more.NoFields? then rest else EncodeFields(fields.more) + close;
    if fields.more.Field? {
      ParseFieldsOfEncode(fields.more, rest);
    }
    ParseFieldsStep(s, fields, Encode(fields.value) + tail, tail, rest);
  }

  /** Every value that is encoded decodes to itself; hence encodings are unambiguous. */
  lemma DecodeOfEncode(v: Json)
    requires WellFormed(v)
    ensures Decode(Encode(v)) == Some(v)
  {
    ParseValueOfEncode(v, []);
    assert Encode(v) + [] == Encode(v);
  }

  // ---- values built from lists ----------------------------------------------------

  type Pair = (string, Json)

  function FromPairs(ps: seq<Pair>): Fields {
    if ps == [] then NoFields else Field(ps[0].0, ps[0].1, FromPairs(ps[1..]))
  }

  function FromSeq(vs: seq<Json>): Items {
    if vs == [] then NoItems else Item(vs[0], FromSeq(vs[1..]))
  }

  function ToSeq(items: Items): seq<Json> {
    if items.NoItems? then [] else [items.first] + ToSeq(items.others)
  }

  /** Go's decoder keeps the last of several fields with one name. */
  function Lookup(fields: Fields, key: string): Option<Json> {
    match fields
    case NoFields => None
    case Field(k, value, more) =>
      var later := Lookup(more, key);
      if later.Some? then later else if k == key then Some(value) else None
  }

  lemma {:induction false} ToSeqOfFromSeq(vs: seq<Json>)
    ensures ToSeq(FromSeq(vs)) == vs
  {
    if vs != [] {
      ToSeqOfFromSeq(vs[1..]);
      assert vs == [vs[0]] + vs[1..];
    }
  }

  lemma {:induction false} FromPairsIsInjective(ps: seq<Pair>, qs: seq<Pair>)
    requires FromPairs(ps) == FromPairs(qs)
    ensures ps == qs
  {
    if ps != [] && qs != [] {
      FromPairsIsInjective(ps[1..], qs[1..]);
      assert ps == [ps[0]] + ps[1..] && qs == [qs[0]] + qs[1..];
    }
  }

  predicate NamesDistinct(ps: seq<Pair>) {
    forall i, j :: 0 <= i < j < |ps| ==> ps[i].0 != ps[j].0
  }

  lemma {:induction false} LookupMissing(ps: seq<Pair>, key: string)
    requires forall i :: 0 <= i < |ps| ==> ps[i].0 != key
    ensures Lookup(FromPairs(ps), key) == None
  {
    if ps != [] { LookupMissing(ps[1..], key); }
  }

  lemma {:induction false} LookupPair(ps: seq<Pair>, i: nat)
    requires NamesDistinct(ps) && i < |ps|
    ensures Lookup(FromPairs(ps), ps[i].0) == Some(ps[i].1)
  {
    if i == 0 {
      LookupMissing(ps[1..], ps[0].0);
    } else {
      LookupPair(ps[1..], i - 1);
    }
  }

  lemma {:induction false} WellFormedPairs(ps: seq<Pair>)
    requires forall i :: 0 <= i < |ps| ==> WellFormed(ps[i].1)
    ensures WellFormedFields(FromPairs(ps))
  {
    if ps != [] { WellFormedPairs(ps[1..]); }
  }

  lemma {:induction false} WellFormedSeq(vs: seq<Json>)
    requires forall i :: 0 <= i < |vs| ==> WellFormed(vs[i])
    ensures WellFormedItems(FromSeq(vs))
  {
    if vs != [] { WellFormedSeq(vs[1..]); }
  }

  lemma {:induction false} SkipAllDigits(s: string)
    requires AllDigits(s)
    ensures SkipDigits(s) == []
  {
    if s != [] { SkipAllDigits(s[1..]); }
  }

  lemma DecimalIsNumber(n: nat)
    ensures WellFormed(Num(Decimal(n)))
  {
    SkipAllDigits(Decimal(n));
    if Decimal(n)[0] == '0' { assert Decimal(n)[1..] == []; }
  }

  /** A decoded unsigned integer of at most 64 bits. */
  function Uint64Of(lexeme: string): Option<nat> {
    if lexeme != [] && AllDigits(lexeme) && DecimalValue(lexeme) < 0x1_0000_0000_0000_0000
    then Some(DecimalValue(lexeme)) else None
  }

  // ---- lengths ----------------------------------------------------------------------

  predicate Plain(s: string) {
    forall i :: 0 <= i < |s| ==> ' ' <= s[i] && s[i] !in {'"', '\\', '<', '>', '&'}
  }

  lemma {:induction false} EscapePlain(s: string)
    requires Plain(s)
    ensures Escape(s) == s
  {
    hide EscapeChar;
    if s != [] {
      EscapePlain(s[1..]);
      PlainChar(s[0]);
      assert [s[0]] + s[1..] == s;
    }
  }

  lemma PlainChar(c: char)
    requires ' ' <= c && c !in {'"', '\\', '<', '>', '&'}
    ensures EscapeChar(c) == [c]
  {
  }

  lemma {:induction false} EscapeLength(s: string)
    ensures |Escape(s)| <= 6 * |s|
  {
    if s != [] { EscapeLength(s[1..]); }
  }

  /** Bytes the first n pairs need, each with its quotes, colon and comma. */
  function PairBytes(ps: seq<Pair>, n: nat): nat
    requires n <= |ps|
  {
    if n == 0 then 0 else PairBytes(ps, n - 1) + |Escape(ps[n - 1].0)| + |Encode(ps[n - 1].1)| + 4
  }

  lemma {:induction false} PairBytesHead(ps: seq<Pair>, n: nat)
    requires 0 < n <= |ps|
    ensures PairBytes(ps, n) == PairBytes(ps[1..], n - 1) + |Escape(ps[0].0)| + |Encode(ps[0].1)| + 4
  {
    if n > 1 { PairBytesHead(ps, n - 1); }
  }

  lemma {:induction false} FieldsLength(ps: seq<Pair>)
    ensures |EncodeFields(FromPairs(ps))| <= PairBytes(ps, |ps|)
  {
    if ps != [] {
      FieldsLength(ps[1..]);
      PairBytesHead(ps, |ps|);
    }
  }

  lemma {:induction false} FieldsLengthExactly(ps: seq<Pair>)
    ensures ps != [] ==> |EncodeFields(FromPairs(ps))| + 1 == PairBytes(ps, |ps|)
  {
    if ps != [] {
      FieldsLengthExactly(ps[1..]);
      PairBytesHead(ps, |ps|);
    }
  }

  lemma {:induction false} PairBytesJoined(a: seq<Pair>, b: seq<Pair>)
    ensures PairBytes(a + b, |a + b|) == PairBytes(a, |a|) + PairBytes(b, |b|)
    decreases |a|
  {
    if a == [] {
      assert a + b == b;
    } else {
      assert (a + b)[1..] == a[1..] + b;
      PairBytesHead(a, |a|);
      PairBytesHead(a + b, |a + b|);
      PairBytesJoined(a[1..], b);
    }
  }

  lemma {:induction false} ItemsLength(vs: seq<Json>, each: nat)
    requires forall i :: 0 <= i < |vs| ==> |Encode(vs[i])| <= each
    ensures |EncodeItems(FromSeq(vs))| <= |vs| * (each + 1)
  {
    if vs != [] {
      ItemsLength(vs[1..], each);
      assert |vs| * (each + 1) == (|vs| - 1) * (each + 1) + (each + 1);
      hide Encode;
    }
  }
}
