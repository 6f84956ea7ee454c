/** What a client reads from a flushed header block. */
module ResponseText {
  import opened Text
  import opened ResponseHeader
  import ControlWire
  import EgressPolicy

  type Field = (string, string)

  // ---- a client's reading -------------------------------------------------------------------------------

  /** One line: the name up to its colon, one space, and all the rest as the value. */
  function ReadLine(line: string): Option<Field> {
    var colon := EgressPolicy.IndexOf(line, {':'});
    if colon + 2 > |line| || line[colon + 1] != ' ' then None else Some((line[..colon], line[colon + 2..]))
  }

  function ReadLines(lines: seq<string>): Option<seq<Field>> {
    if lines == [] then Some([])
    else
      var first :- ReadLine(lines[0]);
      var others :- ReadLines(lines[1..]);
      Some([first] + others)
  }

  /** The lines up to the empty one that ends the block. */
  function ReadBlock(block: string): Option<seq<Field>> {
    var lines := ControlWire.SplitLines(block);
    if |lines| < 2 || lines[|lines| - 1] != "" || lines[|lines| - 2] != "" then None
    else ReadLines(lines[..|lines| - 2])
  }

  /** The values of one name, in their order. */
  function ValuesOf(fields: seq<Field>, name: string): seq<string> {
    if fields == [] then []
    else (if fields[0].0 == name then [fields[0].1] else []) + ValuesOf(fields[1..], name)
  }

  // ---- what is written, as fields ---------------------------------------------------------------------------

  function Line(f: Field): string { f.0 + (": " + f.1) }

  function Written(fields: seq<Field>): string {
    if fields == [] then "" else Line(fields[0]) + (ControlWire.CRLF() + Written(fields[1..]))
  }

  function Named(key: string, values: seq<string>): seq<Field> {
    seq(|values|, i requires 0 <= i < |values| => (key, values[i]))
  }

  /** The fields in the order they are written. */
  function Listed(h: Headers, keys: set<string>): seq<Field>
    requires keys <= h.Keys
    decreases |keys|
  {
    if keys == {} then [] else
    var k := SmallestID(keys);
    Named(k, h[k]) + Listed(h, keys - {k})
  }

  lemma {:induction false} WrittenJoined(a: seq<Field>, b: seq<Field>)
    ensures Written(a + b) == Written(a) + Written(b)
  {
    hide Line;
    if a == [] {
      assert a + b == b;
    } else {
      WrittenJoined(a[1..], b);
      assert (a + b)[0] == a[0] && (a + b)[1..] == a[1..] + b;
      Bracketed(Line(a[0]), ControlWire.CRLF(), Written(a[1..]), Written(b));
    }
  }

  lemma Bracketed(a: string, b: string, c: string, d: string)
    ensures a + (b + (c + d)) == (a + (b + c)) + d
  {
  }

  lemma {:induction false} NamedWritten(key: string, values: seq<string>)
    ensures FieldLines(key, values) == Written(Named(key, values))
  {
    if values != [] {
      var init, last := values[..|values| - 1], values[|values| - 1];
      NamedWritten(key, init);
      assert Named(key, values) == Named(key, init) + [(key, last)];
      WrittenJoined(Named(key, init), [(key, last)]);
      OneWritten((key, last));
      assert key + ": " + last + "\r\n" == Line((key, last)) + ControlWire.CRLF();
    }
  }

  lemma OneWritten(f: Field)
    ensures Written([f]) == Line(f) + ControlWire.CRLF()
  {
    assert [f][1..] == [];
    assert Written([]) == "";
    assert ControlWire.CRLF() + "" == ControlWire.CRLF();
  }

  lemma {:induction false} ListedWritten(h: Headers, keys: set<string>)
    requires keys <= h.Keys
    ensures Fields(h, keys) == Written(Listed(h, keys))
    decreases |keys|
  {
    hide Written, FieldLines, Named;
    if keys == {} {
      NothingWritten();
    } else {
      var k := SmallestID(keys);
      NamedWritten(k, h[k]);
      ListedWritten(h, keys - {k});
      WrittenJoined(Named(k, h[k]), Listed(h, keys - {k}));
    }
  }

  lemma NothingWritten()
    ensures Written([]) == ""
  {
  }

  // ---- and is read again ----------------------------------------------------------------------------------------

  predicate Readable(f: Field) { CanonicalName(f.0) && VisibleASCII(f.1) }

  lemma LineRead(f: Field)
    requires Readable(f)
    ensures ReadLine(Line(f)) == Some(f) && ControlWire.NoCR(Line(f))
  {
    hide ControlWire.TokenChar, EgressPolicy.IndexOf;
    TokenPlain(f.0);
    var line := Line(f);
    assert line == f.0 + ([':'] + (" " + f.1));
    ControlWire.IndexAfter(f.0, ':', " " + f.1);
    assert line[..|f.0|] == f.0 && line[|f.0| + 2..] == f.1 && line[|f.0| + 1] == ' ';
    LinePlain(f.0, f.1);
  }

  lemma TokenPlain(name: string)
    requires CanonicalName(name)
    ensures ':' !in name && ControlWire.NoCR(name)
  {
    forall i | 0 <= i < |name| ensures name[i] != ':' && name[i] != '\r' { assert ControlWire.TokenChar(name[i]); }
  }

  lemma LinePlain(name: string, value: string)
    requires ControlWire.NoCR(name) && VisibleASCII(value)
    ensures ControlWire.NoCR(Line((name, value)))
  {
    var line := Line((name, value));
    forall i | 0 <= i < |line| ensures line[i] != '\r' {
      if i < |name| { assert line[i] == name[i]; }
      else if i >= |name| + 2 { assert line[i] == value[i - |name| - 2]; }
      else { assert line[i] == ": "[i - |name|]; }
    }
  }

  function LinesOf(fields: seq<Field>): seq<string> {
    seq(|fields|, i requires 0 <= i < |fields| => Line(fields[i]))
  }

  lemma {:induction false} WrittenSplit(fields: seq<Field>)
    requires forall f :: f in fields ==> Readable(f)
    ensures ControlWire.SplitLines(Written(fields) + ControlWire.CRLF()) == LinesOf(fields) + ["", ""]
    ensures ReadLines(LinesOf(fields)) == Some(fields)
  {
    hide ControlWire.SplitLines, Line, Readable, ReadLine;
    if fields == [] {
      EmptyBlock();
    } else {
      WrittenSplit(fields[1..]);
      LineRead(fields[0]);
      var rest := Written(fields[1..]) + ControlWire.CRLF();
      ControlWire.LinesOfLine(Line(fields[0]), rest);
      Bracketed(Line(fields[0]), ControlWire.CRLF(), Written(fields[1..]), ControlWire.CRLF());
      assert LinesOf(fields) == [Line(fields[0])] + LinesOf(fields[1..]);
      assert [Line(fields[0])] + (LinesOf(fields[1..]) + ["", ""]) == LinesOf(fields) + ["", ""];
      assert [fields[0]] + fields[1..] == fields;
    }
  }

  lemma EmptyBlock()
    ensures ControlWire.SplitLines(Written([]) + ControlWire.CRLF()) == ["", ""] && LinesOf([]) == []
      && ReadLines(LinesOf([])) == Some([])
  {
    assert "" + ControlWire.CRLF() == ControlWire.CRLF();
    assert ControlWire.SplitLines("") == [""];
    assert ControlWire.CRLF()[2..] == "";
  }

  lemma {:induction false} ListedReadable(h: Headers, keys: set<string>)
    requires keys <= h.Keys && NamesAndValuesValid(h)
    ensures forall f :: f in Listed(h, keys) ==> Readable(f)
    decreases |keys|
  {
    hide CanonicalName, VisibleASCII;
    if keys != {} {
      var k := SmallestID(keys);
      ListedReadable(h, keys - {k});
      forall f | f in Named(k, h[k]) ensures Readable(f) {
        var i :| 0 <= i < |h[k]| && f == (k, h[k][i]);
        assert h[k][i] in h[k];
      }
    }
  }

  lemma {:induction false} ValuesJoined(a: seq<Field>, b: seq<Field>, name: string)
    ensures ValuesOf(a + b, name) == ValuesOf(a, name) + ValuesOf(b, name)
  {
    if a == [] {
      assert a + b == b;
    } else {
      ValuesJoined(a[1..], b, name);
      assert (a + b)[0] == a[0] && (a + b)[1..] == a[1..] + b;
      var first := if a[0].0 == name then [a[0].1] else [];
      var rest, others := ValuesOf(a[1..], name), ValuesOf(b, name);
      assert first + (rest + others) == (first + rest) + others;
    }
  }

  lemma {:induction false} NamedValues(key: string, values: seq<string>, name: string)
    ensures ValuesOf(Named(key, values), name) == if key == name then values else []
  {
    if values != [] {
      NamedValues(key, values[1..], name);
      assert Named(key, values)[1..] == Named(key, values[1..]);
      assert values == [values[0]] + values[1..];
    }
  }

  lemma {:induction false} ListedValues(h: Headers, keys: set<string>, name: string)
    requires keys <= h.Keys
    ensures ValuesOf(Listed(h, keys), name) == if name in keys then h[name] else []
    decreases |keys|
  {
    hide Named;
    if keys != {} {
      var k := SmallestID(keys);
      NamedValues(k, h[k], name);
      ListedValues(h, keys - {k}, name);
      ValuesJoined(Named(k, h[k]), Listed(h, keys - {k}), name);
    }
  }

  /** The values a response says under a name. */
  function Said(h: Headers, bodyLength: nat, name: string): seq<string> {
    if name == "Content-Length" then [Decimal(bodyLength)]
    else if name == "Connection" then ["close"]
    else if name == "Transfer-Encoding" || name !in h then []
    else h[name]
  }

  lemma FlushedValid(h: Headers, bodyLength: nat)
    requires NamesAndValuesValid(h)
    ensures NamesAndValuesValid(Flushed(h, bodyLength))
  {
    hide CanonicalName, VisibleASCII;
    AddedNames(bodyLength);
    var g := Flushed(h, bodyLength);
    forall k | k in g ensures CanonicalName(k) && forall v :: v in g[k] ==> VisibleASCII(v) {
      if k != "Content-Length" && k != "Connection" { assert k in h && g[k] == h[k]; }
    }
  }

  lemma AddedNames(n: nat)
    ensures CanonicalName("Content-Length") && CanonicalName("Connection") && VisibleASCII("close")
      && VisibleASCII(Decimal(n))
  {
    hide CanonicalName, VisibleASCII;
    LengthName();
    ConnectionName();
    CloseText();
    NumeralText(n);
  }

  /** A name of two capitalized words. */
  lemma TwoWords(a: string, b: string)
    requires ControlWire.HeaderToken(a + "-" + b) && a != "" && b != "" && !LowerCase(a[0]) && !LowerCase(b[0])
    requires '-' !in a && '-' !in b
    requires (forall i :: 1 <= i < |a| ==> !Upper(a[i])) && forall i :: 1 <= i < |b| ==> !Upper(b[i])
    ensures CanonicalName(a + "-" + b)
  {
    hide ControlWire.HeaderToken;
    var k := a + "-" + b;
    forall i | 0 <= i < |k| ensures if i == 0 || k[i - 1] == '-' then !LowerCase(k[i]) else !Upper(k[i]) {
      if i < |a| {
        assert k[i] == a[i];
        if i > 0 { assert k[i - 1] == a[i - 1]; }
      } else if i == |a| {
        assert k[i] == '-';
      } else if i == |a| + 1 {
        assert k[i - 1] == '-' && k[i] == b[0];
      } else {
        assert k[i] == b[i - |a| - 1] && k[i - 1] == b[i - |a| - 2];
      }
    }
  }

  lemma LengthName()
    ensures CanonicalName("Content-Length")
  {
    LengthToken();
    hide ControlWire.HeaderToken, CanonicalName;
    var a, b := "Content", "Length";
    assert a + "-" + b == "Content-Length";
    TwoWords(a, b);
  }

  lemma LengthToken()
    ensures ControlWire.HeaderToken("Content-Length")
  {
  }

  lemma ConnectionName()
    ensures CanonicalName("Connection")
  {
  }

  lemma CloseText()
    ensures VisibleASCII("close")
  {
  }

  lemma NumeralText(n: nat)
    ensures VisibleASCII(Decimal(n))
  {
    hide Decimal;
    DecimalValueOfDecimal(n);
  }

  /** A client that reads a flushed block finds, under every name there can be, exactly the response's values in
      their order: its own, but for the length, the connection and the transfer encoding. */
  lemma BlockSays(h: Headers, bodyLength: nat)
    requires ValidHeaders(h, bodyLength)
    ensures ReadBlock(Block(Flushed(h, bodyLength))).Some?
    ensures forall name ::
              ValuesOf(ReadBlock(Block(Flushed(h, bodyLength))).value, name) == Said(h, bodyLength, name)
  {
    hide NamesAndValuesValid, Fields, Written, ControlWire.SplitLines, ReadLines, Readable, Line, ValuesOf, Decimal,
      ControlWire.CRLF;
    var g := Flushed(h, bodyLength);
    FlushedValid(h, bodyLength);
    ListedReadable(g, g.Keys);
    ListedWritten(g, g.Keys);
    var fields := Listed(g, g.Keys);
    WrittenSplit(fields);
    LineEnd();
    var lines := LinesOf(fields) + ["", ""];
    assert lines[..|lines| - 2] == LinesOf(fields);
    forall name ensures ValuesOf(fields, name) == Said(h, bodyLength, name) {
      ListedValues(g, g.Keys, name);
      NamesDiffer();
    }
  }

  lemma LineEnd()
    ensures ControlWire.CRLF() == "\r\n"
  {
  }

  // ---- which names and values are taken ------------------------------------------------------------------------

  function Raised(c: char): char { if 'a' <= c <= 'z' then (c as int - 32) as char else c }

  function Lowered(c: char): char { if 'A' <= c <= 'Z' then (c as int + 32) as char else c }

  /** The canonical spelling of a token: each word between hyphens capitalized. */
  function Canonical(k: string): string {
    seq(|k|, i requires 0 <= i < |k| => if i == 0 || k[i - 1] == '-' then Raised(k[i]) else Lowered(k[i]))
  }

  /** A name is taken if and only if it is a token in its canonical spelling. */
  lemma CanonicalExactly(k: string)
    ensures CanonicalName(k) <==> ControlWire.HeaderToken(k) && Canonical(k) == k
  {
    hide Raised, Lowered;
    forall c ensures (Raised(c) == c <==> !LowerCase(c)) && (Lowered(c) == c <==> !Upper(c)) { LettersSame(c); }
    forall i | 0 <= i < |k|
      ensures Canonical(k)[i] == k[i]
        <==> if i == 0 || k[i - 1] == '-' then !LowerCase(k[i]) else !Upper(k[i])
    {
      assert Canonical(k)[i] == if i == 0 || k[i - 1] == '-' then Raised(k[i]) else Lowered(k[i]);
    }
    if CanonicalName(k) {
      NameSpelled(k);
      assert Canonical(k) == k;
    }
    if Canonical(k) == k {
      forall i | 0 <= i < |k| ensures if i == 0 || k[i - 1] == '-' then !LowerCase(k[i]) else !Upper(k[i]) {
        assert Canonical(k)[i] == k[i];
      }
    }
  }

  lemma NameSpelled(k: string)
    requires CanonicalName(k)
    ensures forall i :: 0 <= i < |k| ==> if i == 0 || k[i - 1] == '-' then !LowerCase(k[i]) else !Upper(k[i])
  {
  }

  lemma LettersSame(c: char)
    ensures (Raised(c) == c <==> !LowerCase(c)) && (Lowered(c) == c <==> !Upper(c))
  {
  }

  /** And a value if and only if all of it is printable ASCII, spaces included. */
  lemma PrintableExactly(v: string)
    ensures VisibleASCII(v) <==> forall i :: 0 <= i < |v| ==> 32 <= v[i] as int <= 126
  {
  }
}
