/** Base64 (RFC 4648, sections 3.5, 4 and 5) as Go's encoding/base64 does it, and the `cap_` handles
    spelled with it. */
module Base64 {
  import opened Text

  /** Padded with the standard alphabet, or unpadded with the URL-safe one. */
  datatype Variant = Std | RawURL

  type Sextet = n: nat | n < 64

  function Symbol(n: Sextet, v: Variant): char {
    if n < 26 then ('A' as int + n) as char
    else if n < 52 then ('a' as int + n - 26) as char
    else if n < 62 then ('0' as int + n - 52) as char
    else if n == 62 then (if v.Std? then '+' else '-')
    else (if v.Std? then '/' else '_')
  }

  function SymbolValue(c: char, v: Variant): Option<Sextet> {
    if 'A' <= c <= 'Z' then Some(c as int - 'A' as int)
    else if 'a' <= c <= 'z' then Some(c as int - 'a' as int + 26)
    else if '0' <= c <= '9' then Some(c as int - '0' as int + 52)
    else if c == (if v.Std? then '+' else '-') then Some(62)
    else if c == (if v.Std? then '/' else '_') then Some(63)
    else None
  }

  lemma ValueOfSymbol(n: Sextet, v: Variant)
    ensures SymbolValue(Symbol(n, v), v) == Some(n)
    ensures var c := Symbol(n, v); c != '=' && c != '\n' && c != '\r' && c != ' ' && c != ':' && '!' <= c <= '~'
  {
  }

  // ---- encoding ---------------------------------------------------------------------------------

  function Padding(v: Variant, n: nat): string { if v.Std? then seq(n, _ => '=') else "" }

  /** The digits of one to three bytes. */
  function Group(b: seq<Byte>): (ds: seq<Sextet>)
    requires 1 <= |b| <= 3
    ensures |ds| == |b| + 1
  {
    if |b| == 1 then [b[0] / 4, b[0] % 4 * 16]
    else if |b| == 2 then [b[0] / 4, b[0] % 4 * 16 + b[1] / 16, b[1] % 16 * 4]
    else [b[0] / 4, b[0] % 4 * 16 + b[1] / 16, b[1] % 16 * 4 + b[2] / 64, b[2] % 64]
  }

  function Symbols(ds: seq<Sextet>, v: Variant): (s: string)
    ensures |s| == |ds|
  {
    if ds == [] then "" else [Symbol(ds[0], v)] + Symbols(ds[1..], v)
  }

  function Encode(b: seq<Byte>, v: Variant): string {
    if b == [] then ""
    else if |b| < 3 then Symbols(Group(b), v) + Padding(v, 3 - |b|)
    else Symbols(Group(b[..3]), v) + Encode(b[3..], v)
  }

  // ---- decoding ---------------------------------------------------------------------------------

  predicate IsNewline(c: char) { c == '\n' || c == '\r' }

  function SkipNewlines(s: string): (r: string)
    ensures |r| <= |s|
  {
    if s != [] && IsNewline(s[0]) then SkipNewlines(s[1..]) else s
  }

  datatype Stop = Full | EndOfInput | Padded | Bad

  /** Up to n digits, newlines skipped, and why no more were read. */
  function TakeDigits(s: string, v: Variant, n: nat): (r: (seq<Sextet>, string, Stop))
    ensures |r.0| <= n && |r.1| + |r.0| <= |s| && (r.2.Full? ==> |r.0| == n)
    decreases |s|
  {
    if n == 0 then ([], s, Full)
    else if s == [] then ([], s, EndOfInput)
    else if IsNewline(s[0]) then TakeDigits(s[1..], v, n)
    else match SymbolValue(s[0], v)
         case Some(d) =>
           var (ds, rest, stop) := TakeDigits(s[1..], v, n - 1);
           ([d] + ds, rest, stop)
         case None => ([], s[1..], if v.Std? && s[0] == '=' then Padded else Bad)
  }

  /** The whole bytes in two to four digits; the bits left over are dropped unread. */
  function DigitBytes(ds: seq<Sextet>): (b: seq<Byte>)
    requires 2 <= |ds| <= 4
    ensures |b| == |ds| - 1
  {
    var x: Byte := (ds[0] as int) * 4 + ds[1] / 16;
    if |ds| == 2 then [x] else
    var y: Byte := (ds[1] as int) % 16 * 16 + ds[2] / 4;
    if |ds| == 3 then [x, y] else
    var z: Byte := (ds[2] as int) % 4 * 64 + ds[3];
    [x, y, z]
  }

  /** DecodeString, not strict: newlines anywhere and any trailing bits are accepted. */
  function Decode(s: string, v: Variant): Option<seq<Byte>>
    decreases |s|
  {
    var (ds, rest, stop) := TakeDigits(s, v, 4);
    match stop
    case Bad => None
    case Full =>
      var more :- Decode(rest, v);
      Some(DigitBytes(ds) + more)
    case EndOfInput =>
      if ds == [] then Some([]) else if |ds| == 1 || v.Std? then None else Some(DigitBytes(ds))
    case Padded =>
      if |ds| < 2 then None else
      var after := SkipNewlines(rest);
      if |ds| == 2 && (after == [] || after[0] != '=') then None
      else if SkipNewlines(if |ds| == 2 then after[1..] else after) != [] then None
      else Some(DigitBytes(ds))
  }

  // ---- what is encoded is decoded ------------------------------------------------------------------

  lemma Sixteenths(q: nat, r: nat)
    requires r < 16
    ensures (q * 16 + r) / 16 == q && (q * 16 + r) % 16 == r
  {
  }

  lemma Fourths(q: nat, r: nat)
    requires r < 4
    ensures (q * 4 + r) / 4 == q && (q * 4 + r) % 4 == r
  {
  }

  lemma FirstByte(x: Byte, next: nat)
    requires next < 16
    ensures x / 4 * 4 + (x % 4 * 16 + next) / 16 == x
  {
    Sixteenths(x % 4, next);
  }

  lemma SecondByte(q: nat, x: Byte, next: nat)
    requires next < 4
    ensures (q * 16 + x / 16) % 16 * 16 + (x % 16 * 4 + next) / 4 == x
  {
    Sixteenths(q, x / 16);
    Fourths(x % 16, next);
  }

  lemma ThirdByte(q: nat, x: Byte)
    ensures (q * 4 + x / 64) % 4 * 64 + x % 64 == x
  {
    Fourths(q, x / 64);
  }

  lemma BytesOfGroup(b: seq<Byte>)
    requires 1 <= |b| <= 3
    ensures DigitBytes(Group(b)) == b
  {
    if |b| == 1 {
      FirstByte(b[0], 0);
    } else if |b| == 2 {
      FirstByte(b[0], b[1] / 16);
      SecondByte(b[0] % 4, b[1], 0);
    } else {
      FirstByte(b[0], b[1] / 16);
      SecondByte(b[0] % 4, b[1], b[2] / 64);
      ThirdByte(b[1] % 16, b[2]);
    }
  }

  lemma TakeSymbol(n: Sextet, v: Variant, tail: string, count: nat)
    requires count > 0
    ensures var (ds, rest, stop) := TakeDigits(tail, v, count - 1);
      TakeDigits([Symbol(n, v)] + tail, v, count) == ([n] + ds, rest, stop)
  {
    ValueOfSymbol(n, v);
    assert ([Symbol(n, v)] + tail)[1..] == tail;
  }

  lemma {:induction false} TakeSymbols(ds: seq<Sextet>, v: Variant, tail: string, n: nat)
    requires |ds| <= n
    ensures var (more, rest, stop) := TakeDigits(tail, v, n - |ds|);
      TakeDigits(Symbols(ds, v) + tail, v, n) == (ds + more, rest, stop)
    decreases |ds|
  {
    hide Symbol, Symbols, TakeDigits;
    if ds == [] {
      NoSymbols(v, tail);
      var (more, rest, stop) := TakeDigits(tail, v, n);
      assert ds + more == more;
    } else {
      TakeSymbols(ds[1..], v, tail, n - 1);
      TakeSymbol(ds[0], v, Symbols(ds[1..], v) + tail, n);
      SymbolsHead(ds, v, tail);
      var (more, rest, stop) := TakeDigits(tail, v, n - |ds|);
      assert [ds[0]] + (ds[1..] + more) == ds + more;
    }
  }

  lemma NoSymbols(v: Variant, tail: string)
    ensures Symbols([], v) + tail == tail
  {
  }

  lemma SymbolsHead(ds: seq<Sextet>, v: Variant, tail: string)
    requires ds != []
    ensures Symbols(ds, v) + tail == [Symbol(ds[0], v)] + (Symbols(ds[1..], v) + tail)
  {
  }

  lemma PaddingTaken(v: Variant, n: nat)
    requires 1 <= n <= 2
    ensures var pad := Padding(v, n);
      TakeDigits(pad, v, n) == if v.Std? then ([], pad[1..], Padded) else ([], "", EndOfInput)
    ensures v.Std? ==> var rest := Padding(v, n)[1..]; if n == 2 then rest == "=" else rest == ""
  {
  }

  lemma ShortGroup(b: seq<Byte>, v: Variant)
    requires 1 <= |b| <= 2
    ensures Decode(Encode(b, v), v) == Some(b)
  {
    var ds, pad := Group(b), Padding(v, 3 - |b|);
    BytesOfGroup(b);
    TakeSymbols(ds, v, pad, 4);
    PaddingTaken(v, 3 - |b|);
    assert ds + [] == ds;
    assert Encode(b, v) == Symbols(ds, v) + pad;
    hide Symbols, Group, DigitBytes, TakeDigits, Encode;
    if v.Std? && |b| == 1 {
      var rest := pad[1..];
      assert SkipNewlines(rest) == rest && rest[1..] == "" && SkipNewlines("") == "";
    }
  }

  lemma FullGroup(b: seq<Byte>, v: Variant, tail: string)
    requires |b| == 3 && Decode(tail, v).Some?
    ensures Decode(Symbols(Group(b), v) + tail, v) == Some(b + Decode(tail, v).value)
  {
    BytesOfGroup(b);
    TakeSymbols(Group(b), v, tail, 4);
    assert Group(b) + [] == Group(b);
    assert TakeDigits(tail, v, 0) == ([], tail, Full);
    hide Symbols, Group, DigitBytes, TakeDigits;
  }

  /** Whatever bytes, of whatever number: decoding undoes encoding. */
  lemma {:induction false} DecodeOfEncode(b: seq<Byte>, v: Variant)
    ensures Decode(Encode(b, v), v) == Some(b)
    decreases |b|
  {
    hide Symbols, Group, DigitBytes, TakeDigits, Decode;
    if b == [] {
      DecodeNothing(v);
    } else if |b| < 3 {
      ShortGroup(b, v);
    } else {
      DecodeOfEncode(b[3..], v);
      FullGroup(b[..3], v, Encode(b[3..], v));
      assert b == b[..3] + b[3..];
    }
  }

  lemma DecodeNothing(v: Variant)
    ensures Decode("", v) == Some([])
  {
  }

  lemma {:induction false} RawLength(b: seq<Byte>)
    ensures |Encode(b, RawURL)| == (4 * |b| + 2) / 3
    decreases |b|
  {
    if |b| > 2 { RawLength(b[3..]); }
  }

  lemma {:induction false} StdLength(b: seq<Byte>)
    ensures |Encode(b, Std)| == 4 * ((|b| + 2) / 3)
    decreases |b|
  {
    if |b| > 2 { StdLength(b[3..]); }
  }

  predicate URLCharacter(c: char) { 'A' <= c <= 'Z' || 'a' <= c <= 'z' || '0' <= c <= '9' || c == '-' || c == '_' }

  lemma {:induction false} URLSymbols(ds: seq<Sextet>)
    ensures forall i :: 0 <= i < |ds| ==> URLCharacter(Symbols(ds, RawURL)[i])
  {
    if ds != [] { URLSymbols(ds[1..]); }
  }

  lemma {:induction false} URLCharacters(b: seq<Byte>)
    ensures forall i :: 0 <= i < |Encode(b, RawURL)| ==> URLCharacter(Encode(b, RawURL)[i])
    decreases |b|
  {
    hide Symbols, Group;
    if b == [] {
    } else if |b| < 3 {
      URLSymbols(Group(b));
    } else {
      URLSymbols(Group(b[..3]));
      URLCharacters(b[3..]);
    }
  }

  predicate PrintableUnspaced(c: char) { '!' <= c <= '~' && c != ':' }

  lemma {:induction false} SymbolsPrintable(ds: seq<Sextet>, v: Variant)
    ensures forall i :: 0 <= i < |ds| ==> PrintableUnspaced(Symbols(ds, v)[i])
  {
    if ds != [] {
      ValueOfSymbol(ds[0], v);
      SymbolsPrintable(ds[1..], v);
    }
  }

  lemma {:induction false} EncodedPrintable(b: seq<Byte>, v: Variant)
    ensures forall i :: 0 <= i < |Encode(b, v)| ==> PrintableUnspaced(Encode(b, v)[i])
    decreases |b|
  {
    hide Symbols, Group;
    if b == [] {
    } else if |b| < 3 {
      SymbolsPrintable(Group(b), v);
    } else {
      SymbolsPrintable(Group(b[..3]), v);
      EncodedPrintable(b[3..], v);
    }
  }

  // ---- handles ------------------------------------------------------------------------------------

  const HANDLE_BYTES := 32

  function HandleOf(raw: seq<Byte>): string { "cap_" + Encode(raw, RawURL) }

  predicate HasPrefix(s: string, p: string) { |s| >= |p| && s[..|p|] == p }

  function TrimPrefix(s: string, p: string): string { if HasPrefix(s, p) then s[|p|..] else s }

  /** The check as the registry and the forwarder write it, slicing the prefix off. */
  predicate SlicedHandleCheck(h: string) {
    |h| == 4 + 43 && HasPrefix(h, "cap_")
    && match Decode(h[4..], RawURL)
       case None => false
       case Some(raw) => |raw| == HANDLE_BYTES && "cap_" + Encode(raw, RawURL) == h
  }

  /** The check as the client, the session and the transaction write it. */
  predicate CanonicalHandle(h: string) {
    |h| == 4 + 43 && HasPrefix(h, "cap_")
    && match Decode(TrimPrefix(h, "cap_"), RawURL)
       case None => false
       case Some(raw) => |raw| == HANDLE_BYTES && "cap_" + Encode(raw, RawURL) == h
  }

  lemma ChecksAgree(h: string)
    ensures CanonicalHandle(h) == SlicedHandleCheck(h)
  {
  }

  lemma PrefixTaken(raw: seq<Byte>)
    ensures HasPrefix(HandleOf(raw), "cap_") && HandleOf(raw)[4..] == Encode(raw, RawURL)
  {
    assert HandleOf(raw)[..4] == "cap_";
  }

  /** The check accepts the spellings of the 32-byte strings and nothing else, although the decoder
      alone is lenient. */
  lemma HandlesExactly(h: string)
    ensures CanonicalHandle(h) <==> exists raw: seq<Byte> :: |raw| == HANDLE_BYTES && h == HandleOf(raw)
  {
    hide Encode, Decode;
    if CanonicalHandle(h) {
      var raw := Decode(h[4..], RawURL).value;
      assert h == HandleOf(raw);
    }
    if raw: seq<Byte> :| |raw| == HANDLE_BYTES && h == HandleOf(raw) {
      PrefixTaken(raw);
      RawLength(raw);
      DecodeOfEncode(raw, RawURL);
    }
  }

  /** Different bytes have different handles. */
  lemma HandlesAreDistinct(a: seq<Byte>, b: seq<Byte>)
    requires HandleOf(a) == HandleOf(b)
    ensures a == b
  {
    hide Encode, Decode;
    PrefixTaken(a);
    PrefixTaken(b);
    DecodeOfEncode(a, RawURL);
    DecodeOfEncode(b, RawURL);
  }

  /** The decoder alone would not do: it takes many spellings of one byte, whatever the bits left
      over, and skips newlines. */
  lemma DecoderIsLenient(b: Byte, slack: nat)
    requires slack < 16
    ensures var x, y: Sextet := b / 4, b % 4 * 16 + slack;
      Decode([Symbol(x, RawURL), Symbol(y, RawURL)], RawURL) == Some([b])
      && Decode([Symbol(x, RawURL), '\n', Symbol(y, RawURL)], RawURL) == Some([b])
  {
    var x, y: Sextet := b / 4, b % 4 * 16 + slack;
    var one, two := [Symbol(y, RawURL)], ['\n', Symbol(y, RawURL)];
    TakeSymbol(y, RawURL, "", 3);
    assert one + "" == one && [y] + [] == [y];
    assert TakeDigits(one, RawURL, 3) == ([y], "", EndOfInput);
    assert two[1..] == one;
    TakeSymbol(x, RawURL, one, 4);
    TakeSymbol(x, RawURL, two, 4);
    assert [Symbol(x, RawURL)] + one == [Symbol(x, RawURL), Symbol(y, RawURL)];
    assert [Symbol(x, RawURL)] + two == [Symbol(x, RawURL), '\n', Symbol(y, RawURL)];
    assert DigitBytes([x, y]) == [b];
  }

  /** Examples of RFC 4648, section 10, and the two digits in which the alphabets differ. */
  lemma Examples()
    ensures Encode([102], Std) == "Zg==" && Encode([102, 111], Std) == "Zm8=" && Encode([102, 111, 111], Std) == "Zm9v"
    ensures Encode([102], RawURL) == "Zg" && Encode([251, 255], Std) == "+/8=" && Encode([251, 255], RawURL) == "-_8"
  {
    OneByte(102);
    TwoBytes(102, 111);
    TwoBytes(251, 255);
    ThreeBytes(102, 111, 111);
  }

  lemma {:induction false} SymbolsAt(ds: seq<Sextet>, v: Variant)
    ensures forall i :: 0 <= i < |ds| ==> Symbols(ds, v)[i] == Symbol(ds[i], v)
  {
    hide Symbol;
    if ds != [] { SymbolsAt(ds[1..], v); }
  }

  lemma OneByte(a: Byte)
    ensures Encode([a], Std) == [Symbol(a / 4, Std), Symbol(a % 4 * 16, Std), '=', '=']
    ensures Encode([a], RawURL) == [Symbol(a / 4, RawURL), Symbol(a % 4 * 16, RawURL)]
  {
    hide Symbol, Symbols;
    SymbolsAt(Group([a]), Std);
    SymbolsAt(Group([a]), RawURL);
    assert Padding(Std, 2) == "==";
  }

  lemma TwoBytes(a: Byte, b: Byte)
    ensures Encode([a, b], Std)
         == [Symbol(a / 4, Std), Symbol(a % 4 * 16 + b / 16, Std), Symbol(b % 16 * 4, Std), '=']
    ensures Encode([a, b], RawURL)
         == [Symbol(a / 4, RawURL), Symbol(a % 4 * 16 + b / 16, RawURL), Symbol(b % 16 * 4, RawURL)]
  {
    hide Symbol, Symbols;
    SymbolsAt(Group([a, b]), Std);
    SymbolsAt(Group([a, b]), RawURL);
    assert Padding(Std, 1) == "=";
  }

  lemma ThreeBytes(a: Byte, b: Byte, c: Byte)
    ensures Encode([a, b, c], Std)
         == [Symbol(a / 4, Std), Symbol(a % 4 * 16 + b / 16, Std), Symbol(b % 16 * 4 + c / 64, Std),
           Symbol(c % 64, Std)]
  {
    hide Symbol, Symbols;
    SymbolsAt(Group([a, b, c]), Std);
    assert [a, b, c][..3] == [a, b, c] && [a, b, c][3..] == [];
    assert Encode([], Std) == "";
  }
}
