/** Which bytes the control server takes for a request: no more than the spellings of one. */
module ControlRequests {
  import opened Text
  import opened Json
  import opened ControlWire
  import Base64
  import EgressPolicy

  // ---- field lines ------------------------------------------------------------------------------------

  /** A Content-Length line, its name in any letter case. */
  ghost predicate LengthLine(a: string, n: nat) {
    exists name :: Lower(name) == "content-length" && a == name + (": " + Decimal(n))
  }

  ghost predicate TypeLine(a: string) {
    exists name :: Lower(name) == "content-type" && a == name + (": " + "application/json")
  }

  predicate FieldText(name: string, value: string) {
    HeaderToken(name) && ValueText(value)
  }

  predicate ValueText(value: string) {
    HeaderBytes(value) && value != "" && value[0] != ' ' && value[|value| - 1] != ' '
  }

  /** A line is read as the one field it spells. */
  lemma FieldExactly(raw: string, name: string, value: string)
    ensures FieldOf(raw) == Some((name, value)) <==> FieldText(name, value) && raw == name + (": " + value)
  {
    hide TokenChar, HeaderBytes, EgressPolicy.IndexOf;
    if FieldText(name, value) && raw == name + (": " + value) { FieldFound(name, value); }
    if FieldOf(raw) == Some((name, value)) {
      var colon := EgressPolicy.IndexOf(raw, {':'});
      ColonAt(raw, colon);
      assert raw == raw[..colon] + ([raw[colon], raw[colon + 1]] + raw[colon + 2..]);
      assert ": " == [raw[colon], raw[colon + 1]];
      PartOfBytes(raw, colon + 2);
    }
  }

  lemma ColonAt(raw: string, colon: nat)
    requires colon == EgressPolicy.IndexOf(raw, {':'}) && colon < |raw|
    ensures raw[colon] == ':'
  {
  }

  lemma PartOfBytes(raw: string, n: nat)
    requires HeaderBytes(raw) && n <= |raw|
    ensures HeaderBytes(raw[n..])
  {
  }

  lemma LengthExactly(value: string, n: nat)
    ensures CanonicalLength(value) == Some(n) <==> value == Decimal(n) && n < 1000
  {
    hide Decimal, DecimalValue;
    LengthRead(n);
    if CanonicalLength(value) == Some(n) {
      DecimalOfDecimalValue(value);
      ShortNumeral(value);
    }
  }

  /** A name of nothing but the letters of another, in either case, and its hyphen. */
  lemma NamesAreTokens(name: string)
    ensures Lower(name) == "content-length" ==> HeaderToken(name)
    ensures Lower(name) == "content-type" ==> HeaderToken(name)
  {
    if Lower(name) == "content-length" { LettersAreTokens(name, "content-length"); }
    if Lower(name) == "content-type" { LettersAreTokens(name, "content-type"); }
  }

  lemma LettersAreTokens(name: string, lower: string)
    requires Lower(name) == lower && lower != ""
      && forall i :: 0 <= i < |lower| ==> 'a' <= lower[i] <= 'z' || lower[i] == '-'
    ensures HeaderToken(name)
  {
    forall i | 0 <= i < |name| ensures TokenChar(name[i]) { assert Lower(name)[i] == lower[i]; }
  }

  lemma DecimalText(n: nat)
    ensures ValueText(Decimal(n)) && AllDigits(Decimal(n))
  {
    DecimalValueOfDecimal(n);
  }

  lemma LengthLineRead(raw: string, n: nat)
    requires LengthLine(raw, n)
    ensures exists name :: FieldOf(raw) == Some((name, Decimal(n))) && Lower(name) == "content-length"
  {
    hide FieldOf, Lower, Decimal, HeaderToken, HeaderBytes;
    var name :| Lower(name) == "content-length" && raw == name + (": " + Decimal(n));
    NamesAreTokens(name);
    DecimalText(n);
    FieldExactly(raw, name, Decimal(n));
  }

  lemma TypeLineRead(raw: string)
    requires TypeLine(raw)
    ensures exists name :: FieldOf(raw) == Some((name, "application/json")) && Lower(name) == "content-type"
  {
    hide FieldOf, Lower, HeaderToken, HeaderBytes;
    var name :| Lower(name) == "content-type" && raw == name + (": " + "application/json");
    NamesAreTokens(name);
    JSONText();
    FieldExactly(raw, name, "application/json");
  }

  lemma JSONText()
    ensures ValueText("application/json")
  {
  }

  /** The next line adds a length where there was none, or the content type of an issue, and nothing else. */
  lemma NextExactly(kind: Kind, seen: Seen, raw: string, after: Seen)
    ensures NextField(kind, seen, raw) == Some(after)
            <==> (seen.length.None? && after.length.Some? && after.length.value < 1000
                  && LengthLine(raw, after.length.value) && after.contentType == seen.contentType)
                 || (!seen.contentType && kind.IssueKind? && TypeLine(raw) && after == seen.(contentType := true))
  {
    hide FieldOf, Lower, CanonicalLength, LengthLine, TypeLine, Decimal;
    FieldNames();
    if after.length.Some? && LengthLine(raw, after.length.value) {
      LengthLineRead(raw, after.length.value);
      LengthExactly(Decimal(after.length.value), after.length.value);
    }
    if TypeLine(raw) { TypeLineRead(raw); }
    if FieldOf(raw).Some? {
      var (name, value) := FieldOf(raw).value;
      FieldExactly(raw, name, value);
      if CanonicalLength(value).Some? { LengthExactly(value, CanonicalLength(value).value); }
      if Lower(name) == "content-length" && CanonicalLength(value).Some? {
        LengthLineIs(raw, name, CanonicalLength(value).value);
      }
      if Lower(name) == "content-type" && value == "application/json" { TypeLineIs(raw, name); }
    }
  }

  lemma LengthLineIs(raw: string, name: string, n: nat)
    requires Lower(name) == "content-length" && raw == name + (": " + Decimal(n))
    ensures LengthLine(raw, n)
  {
  }

  lemma TypeLineIs(raw: string, name: string)
    requires Lower(name) == "content-type" && raw == name + (": " + "application/json")
    ensures TypeLine(raw)
  {
  }

  // ---- whole headers ----------------------------------------------------------------------------------------

  /** As many lines are read as fields are found. */
  lemma {:induction false} FieldsCounted(kind: Kind, lines: seq<string>, n: nat)
    requires n <= |lines| && ReadFields(kind, lines, n).Some?
    ensures var seen := ReadFields(kind, lines, n).value;
      n == (if seen.length.Some? then 1 else 0) + (if seen.contentType then 1 else 0)
  {
    hide NextField;
    if n > 0 {
      FieldsCounted(kind, lines, n - 1);
      NextExactly(kind, ReadFields(kind, lines, n - 1).value, lines[n - 1], ReadFields(kind, lines, n).value);
    }
  }

  lemma OneLine(kind: Kind, a: string, n: nat)
    ensures ReadFields(kind, [a], 1) == Some(Seen(Some(n), false)) <==> n < 1000 && LengthLine(a, n)
  {
    hide NextField, LengthLine, TypeLine;
    assert ReadFields(kind, [a], 0) == Some(Seen(None, false));
    NextExactly(kind, Seen(None, false), a, Seen(Some(n), false));
  }

  lemma TwoLines(a: string, b: string, n: nat)
    ensures ReadFields(IssueKind, [a, b], 2) == Some(Seen(Some(n), true))
            <==> n < 1000 && ((LengthLine(a, n) && TypeLine(b)) || (TypeLine(a) && LengthLine(b, n)))
  {
    hide NextField, LengthLine, TypeLine;
    var first := ReadFields(IssueKind, [a, b], 1);
    assert ReadFields(IssueKind, [a, b], 0) == Some(Seen(None, false));
    assert first == NextField(IssueKind, Seen(None, false), a);
    NextExactly(IssueKind, Seen(None, false), a, Seen(Some(n), false));
    NextExactly(IssueKind, Seen(None, false), a, Seen(None, true));
    NextExactly(IssueKind, Seen(Some(n), false), b, Seen(Some(n), true));
    NextExactly(IssueKind, Seen(None, true), b, Seen(Some(n), true));
    if first.Some? {
      NextExactly(IssueKind, Seen(None, false), a, first.value);
      NextExactly(IssueKind, first.value, b, Seen(Some(n), true));
    }
  }

  function Lines(lines: seq<string>): string
    requires lines != []
  {
    if |lines| == 1 then lines[0] else lines[0] + (CRLF() + Lines(lines[1..]))
  }

  lemma LinesStep(first: string, others: seq<string>)
    requires others != []
    ensures Lines([first] + others) == first + (CRLF() + Lines(others))
  {
    assert ([first] + others)[1..] == others;
  }

  lemma FirstGrows(c: char, lines: seq<string>)
    requires lines != []
    ensures Lines([[c] + lines[0]] + lines[1..]) == [c] + Lines(lines)
  {
    hide Lines, CRLF;
    if |lines| == 1 {
      OneText(lines[0]);
      OneText([c] + lines[0]);
      assert lines == [lines[0]] && [[c] + lines[0]] + lines[1..] == [[c] + lines[0]];
    } else {
      assert lines == [lines[0]] + lines[1..];
      LinesStep(lines[0], lines[1..]);
      LinesStep([c] + lines[0], lines[1..]);
      Prefixed(c, lines[0], CRLF() + Lines(lines[1..]));
    }
  }

  lemma OneText(line: string)
    ensures Lines([line]) == line
  {
  }

  lemma Prefixed(c: char, a: string, b: string)
    ensures ([c] + a) + b == [c] + (a + b)
  {
  }

  lemma {:induction false} LinesOfSplit(s: string)
    ensures Lines(SplitLines(s)) == s
    decreases |s|
  {
    hide Lines;
    if s == "" {
      NoLines();
    } else if |s| >= 2 && s[0] == '\r' && s[1] == '\n' {
      LinesOfSplit(s[2..]);
      LinesStep("", SplitLines(s[2..]));
      assert s == "" + (CRLF() + s[2..]);
    } else {
      LinesOfSplit(s[1..]);
      FirstGrows(s[0], SplitLines(s[1..]));
      assert s == [s[0]] + s[1..];
    }
  }

  lemma NoLines()
    ensures Lines([""]) == ""
  {
  }

  function IssueText(a: string, b: string): string {
    "POST /v1/capabilities HTTP/1.1" + (CRLF() + (a + (CRLF() + (b + Marker()))))
  }

  function RevokeText(h: string, a: string): string {
    ("DELETE /v1/capabilities/" + h + " HTTP/1.1") + (CRLF() + (a + Marker()))
  }

  lemma FiveLines(l0: string, a: string, b: string)
    ensures Lines([l0, a, b, "", ""]) == l0 + (CRLF() + (a + (CRLF() + (b + Marker()))))
  {
    hide Lines, CRLF, Marker;
    LinesStep(l0, [a, b, "", ""]);
    LinesStep(a, [b, "", ""]);
    EndLines(b);
    assert [l0] + [a, b, "", ""] == [l0, a, b, "", ""] && [a] + [b, "", ""] == [a, b, "", ""];
  }

  lemma EndLines(b: string)
    ensures Lines([b, "", ""]) == b + Marker()
  {
    assert Lines([""]) == "";
    LinesStep("", [""]);
    LinesStep(b, ["", ""]);
    assert [""] + [""] == ["", ""] && [b] + ["", ""] == [b, "", ""];
    assert CRLF() + ("" + (CRLF() + "")) == Marker();
  }

  lemma FourLines(l0: string, a: string)
    ensures Lines([l0, a, "", ""]) == l0 + (CRLF() + (a + Marker()))
  {
    hide Lines, CRLF, Marker;
    LinesStep(l0, [a, "", ""]);
    EndLines(a);
    assert [l0] + [a, "", ""] == [l0, a, "", ""];
  }

  lemma LineText(raw: string)
    requires (exists n :: LengthLine(raw, n)) || TypeLine(raw)
    ensures NoCR(raw) && raw != "" && raw[0] in {'c', 'C'}
  {
    hide LengthLine, TypeLine, FieldOf;
    if TypeLine(raw) {
      TypeLineRead(raw);
      var name :| FieldOf(raw) == Some((name, "application/json")) && Lower(name) == "content-type";
      NameStarts(raw, name, "application/json", "content-type");
    } else {
      var n :| LengthLine(raw, n);
      LengthLineRead(raw, n);
      var name :| FieldOf(raw) == Some((name, Decimal(n))) && Lower(name) == "content-length";
      NameStarts(raw, name, Decimal(n), "content-length");
    }
  }

  lemma NameStarts(raw: string, name: string, value: string, lower: string)
    requires FieldOf(raw) == Some((name, value)) && Lower(name) == lower && lower != "" && lower[0] == 'c'
    ensures NoCR(raw) && raw != "" && raw[0] in {'c', 'C'}
  {
    FieldExactly(raw, name, value);
    assert Lower(name)[0] == 'c';
  }

  lemma NoCRBytes()
    ensures NoCR(IssueLine()) && IssueLine()[0] == 'P'
  {
  }

  /** The server takes a header for that of an issue request if and only if it is the issue line and two field
      lines, a length within the limit and the content type, in either order. */
  lemma IssueHeaderExactly(header: string, n: nat)
    ensures ParseHeader(header) == Some((IssueKind, n))
            <==> 1 <= n <= 512
                 && exists a, b :: header == IssueText(a, b)
                                   && ((LengthLine(a, n) && TypeLine(b)) || (TypeLine(a) && LengthLine(b, n)))
  {
    hide SplitLines, RequestKind, ReadFields, ProxyCARequest, LengthLine, TypeLine, IssueText, CRLF, Marker;
    if ParseHeader(header) == Some((IssueKind, n)) { IssueHeaderFrom(header, n); }
    forall a, b | 1 <= n <= 512 && header == IssueText(a, b)
                  && ((LengthLine(a, n) && TypeLine(b)) || (TypeLine(a) && LengthLine(b, n)))
      ensures ParseHeader(header) == Some((IssueKind, n))
    {
      IssueTextParsed(a, b, n);
    }
  }

  lemma IssueHeaderFrom(header: string, n: nat)
    requires ParseHeader(header) == Some((IssueKind, n))
    ensures 1 <= n <= 512
    ensures exists a, b :: header == IssueText(a, b)
                           && ((LengthLine(a, n) && TypeLine(b)) || (TypeLine(a) && LengthLine(b, n)))
  {
    hide SplitLines, ReadFields, ProxyCARequest, LengthLine, TypeLine, CRLF, Marker, Lines;
    var lines := SplitLines(header);
    var m := |lines|;
    var fields := lines[1..m - 2];
    FieldsCounted(IssueKind, fields, m - 3);
    assert fields == [lines[1], lines[2]];
    TwoLines(lines[1], lines[2], n);
    LinesOfSplit(header);
    assert lines == [lines[0], lines[1], lines[2], "", ""];
    FiveLines(lines[0], lines[1], lines[2]);
    assert header == IssueText(lines[1], lines[2]);
  }

  lemma IssueTextParsed(a: string, b: string, n: nat)
    requires 1 <= n <= 512 && ((LengthLine(a, n) && TypeLine(b)) || (TypeLine(a) && LengthLine(b, n)))
    ensures ParseHeader(IssueText(a, b)) == Some((IssueKind, n))
  {
    hide SplitLines, ReadFields, ProxyCARequest, LengthLine, TypeLine, RequestKind;
    LineText(a);
    LineText(b);
    NoCRBytes();
    var header := IssueText(a, b);
    assert header[0] == IssueLine()[0];
    NotTheProxyRequest(header);
    LinesOfLine(IssueLine(), a + (CRLF() + (b + Marker())));
    LinesOfLine(a, b + Marker());
    LastLines(b);
    assert SplitLines(header) == [IssueLine(), a, b, "", ""];
    assert SplitLines(header)[1..3] == [a, b];
    IssueKindFound();
    TwoLines(a, b, n);
  }

  /** And for that of a revocation if and only if it names a canonical handle and a length of zero. */
  lemma RevokeHeaderExactly(header: string, h: string)
    ensures ParseHeader(header) == Some((RevokeKind(h), 0))
            <==> Base64.CanonicalHandle(h) && exists a :: LengthLine(a, 0) && header == RevokeText(h, a)
  {
    hide SplitLines, RequestKind, ReadFields, ProxyCARequest, LengthLine, RevokeText, CRLF, Marker,
      Base64.CanonicalHandle;
    if ParseHeader(header) == Some((RevokeKind(h), 0)) { RevokeHeaderFrom(header, h); }
    forall a | Base64.CanonicalHandle(h) && LengthLine(a, 0) && header == RevokeText(h, a)
      ensures ParseHeader(header) == Some((RevokeKind(h), 0))
    {
      RevokeTextParsed(h, a);
    }
  }

  lemma RevokeKindExactly(line: string, h: string)
    ensures RequestKind(line) == Some(RevokeKind(h)) <==> Base64.CanonicalHandle(h) && line == RevokeLine(h)
  {
    hide Base64.CanonicalHandle;
    if Base64.CanonicalHandle(h) { RevokeLineRead(h); }
    if RequestKind(line) == Some(RevokeKind(h)) {
      var prefix, suffix := RevokePrefix(), RevokeSuffix();
      var rest := line[|prefix|..];
      assert line == prefix + rest;
      HandleText(h);
      RevokeParts();
      SuffixCut(line, rest, suffix);
      assert prefix + (h + suffix) == prefix + h + suffix;
    }
  }

  /** Where a suffix is cut off the text, it is cut off its end part too. */
  lemma SuffixCut(line: string, rest: string, suffix: string)
    requires |suffix| <= |rest| && |rest| <= |line| && line[|line| - |rest|..] == rest
    requires EgressPolicy.TrimSuffix(line, suffix) != line
    ensures rest == EgressPolicy.TrimSuffix(rest, suffix) + suffix
  {
  }

  lemma RevokeHeaderFrom(header: string, h: string)
    requires ParseHeader(header) == Some((RevokeKind(h), 0))
    ensures Base64.CanonicalHandle(h) && exists a :: LengthLine(a, 0) && header == RevokeText(h, a)
  {
    hide SplitLines, ReadFields, ProxyCARequest, LengthLine, CRLF, Marker, Lines, RequestKind, Base64.CanonicalHandle,
      RevokeLine;
    var lines := SplitLines(header);
    var m := |lines|;
    var fields := lines[1..m - 2];
    RevokeKindExactly(lines[0], h);
    FieldsCounted(RevokeKind(h), fields, m - 3);
    assert fields == [lines[1]];
    OneLine(RevokeKind(h), lines[1], 0);
    LinesOfSplit(header);
    assert lines == [lines[0], lines[1], "", ""];
    FourLines(lines[0], lines[1]);
    LineSpelled(h);
    assert header == RevokeText(h, lines[1]);
  }

  lemma LineSpelled(h: string)
    ensures RevokeLine(h) == "DELETE /v1/capabilities/" + h + " HTTP/1.1"
  {
  }

  lemma RevokeTextParsed(h: string, a: string)
    requires Base64.CanonicalHandle(h) && LengthLine(a, 0)
    ensures ParseHeader(RevokeText(h, a)) == Some((RevokeKind(h), 0))
  {
    hide SplitLines, ReadFields, ProxyCARequest, LengthLine, RequestKind, Base64.CanonicalHandle, RevokeLine;
    LineText(a);
    RevokeLineRead(h);
    LineSpelled(h);
    var header := RevokeText(h, a);
    assert header[0] == RevokeLine(h)[0];
    NotTheProxyRequest(header);
    LinesOfLine(RevokeLine(h), a + Marker());
    LastLines(a);
    assert SplitLines(header) == [RevokeLine(h), a, "", ""];
    assert SplitLines(header)[1..2] == [a];
    OneLine(RevokeKind(h), a, 0);
  }

  // ---- whole requests -----------------------------------------------------------------------------------------

  lemma IssueTextEnds(a: string, b: string, body: string)
    requires NoCR(a) && NoCR(b) && a != "" && b != ""
    ensures FirstMarker(IssueText(a, b) + body) == Some(|IssueText(a, b)|)
  {
    hide FirstMarker, NoCR;
    NoCRBytes();
    HeadsAreText(a, b);
    MarkerAfterLine(IssueLine(), a + (CRLF() + (b + (Marker() + body))));
    MarkerAfterLine(a, b + (Marker() + body));
    MarkerAtEnd(b, body);
    assert IssueText(a, b) + body == IssueLine() + (CRLF() + (a + (CRLF() + (b + (Marker() + body)))));
  }

  lemma HeadsAreText(a: string, b: string)
    requires NoCR(a) && NoCR(b) && a != "" && b != ""
    ensures a[0] != '\r' && b[0] != '\r'
  {
  }

  /** The server takes a whole stream for an issue request if and only if it is such a header of at most 16 KiB,
      followed by exactly the body it announces, and the body decodes. */
  lemma IssueReadExactly(stream: string, w: Wanted)
    ensures ServerReads(stream) == Some(Issue(w))
            <==> exists a, b, body ::
                   stream == IssueText(a, b) + body && |IssueText(a, b)| <= 16_384 && 1 <= |body| <= 512
                   && ((LengthLine(a, |body|) && TypeLine(b)) || (TypeLine(a) && LengthLine(b, |body|)))
                   && DecodeIssueBody(body) == Some(w)
  {
    hide ServerReads, LengthLine, TypeLine, IssueText, DecodeIssueBody;
    if ServerReads(stream) == Some(Issue(w)) { IssueStream(stream, w); }
    forall a, b, body |
      stream == IssueText(a, b) + body && |IssueText(a, b)| <= 16_384 && 1 <= |body| <= 512
      && ((LengthLine(a, |body|) && TypeLine(b)) || (TypeLine(a) && LengthLine(b, |body|)))
      && DecodeIssueBody(body) == Some(w)
      ensures ServerReads(stream) == Some(Issue(w))
    {
      StreamRead(a, b, body, w);
    }
  }

  lemma IssueStream(stream: string, w: Wanted)
    requires ServerReads(stream) == Some(Issue(w))
    ensures exists a, b, body ::
              stream == IssueText(a, b) + body && |IssueText(a, b)| <= 16_384 && 1 <= |body| <= 512
              && ((LengthLine(a, |body|) && TypeLine(b)) || (TypeLine(a) && LengthLine(b, |body|)))
              && DecodeIssueBody(body) == Some(w)
  {
    hide FirstMarker, ParseHeader, LengthLine, TypeLine, IssueText, DecodeIssueBody, IsConnect;
    var n := HeaderEnd(stream).value;
    var header, body := stream[..n], stream[n..];
    IssueHeaderExactly(header, |body|);
    var (kind, length) := ParseHeader(header).value;
    assert kind.IssueKind? && length == |body|;
    var a, b :| header == IssueText(a, b)
                && ((LengthLine(a, |body|) && TypeLine(b)) || (TypeLine(a) && LengthLine(b, |body|)));
    assert stream == IssueText(a, b) + body;
  }

  lemma StreamRead(a: string, b: string, body: string, w: Wanted)
    requires |IssueText(a, b)| <= 16_384 && 1 <= |body| <= 512 && DecodeIssueBody(body) == Some(w)
      && ((LengthLine(a, |body|) && TypeLine(b)) || (TypeLine(a) && LengthLine(b, |body|)))
    ensures ServerReads(IssueText(a, b) + body) == Some(Issue(w))
  {
    hide FirstMarker, ParseHeader, LengthLine, TypeLine, IssueText, DecodeIssueBody, IsConnect;
    LineText(a);
    LineText(b);
    IssueTextEnds(a, b, body);
    IssueHeaderExactly(IssueText(a, b), |body|);
    NotConnectText(a, b);
    var n, stream := |IssueText(a, b)|, IssueText(a, b) + body;
    assert stream[..n] == IssueText(a, b) && stream[n..] == body;
  }

  lemma NotConnectText(a: string, b: string)
    ensures !IsConnect(IssueText(a, b))
  {
    NoCRBytes();
    assert IssueText(a, b)[0] == IssueLine()[0];
    NotConnectHeader(IssueText(a, b));
  }

  // ---- the body of an issue request ------------------------------------------------------------------------------

  function PairsOf(f: Fields): seq<(string, Json)> {
    if f.NoFields? then [] else [(f.key, f.value)] + PairsOf(f.more)
  }

  /** The members are just these, once each, in any order. */
  ghost predicate Just(ps: seq<(string, Json)>, wanted: map<string, string>) {
    |ps| == |wanted| && (forall k :: k in wanted ==> (k, Str(wanted[k])) in ps)
    && forall p :: p in ps ==> p.0 in wanted && p.1 == Str(wanted[p.0])
  }

  /** The members that ask for something. */
  function Asking(w: Wanted): map<string, string> {
    if w.provider == "openai" then map["provider" := "openai"]
    else if w.operation == "" then map["provider" := "github", "repository" := w.repository]
    else map["provider" := "github", "repository" := w.repository, "operation" := "github-git-read"]
  }

  predicate Askable(w: Wanted) {
    (w.provider == "openai" && w.repository == "" && w.operation == "")
    || (w.provider == "github" && w.repository != "" && w.operation in {"", "github-git-read"})
  }

  predicate Texts(ps: seq<(string, Json)>) {
    forall i :: 0 <= i < |ps| ==> WantedKey(ps[i].0) && ps[i].1.Str? && ps[i].1.text != ""
  }

  predicate KeysOnce(ps: seq<(string, Json)>, values: map<string, string>) {
    (forall i :: 0 <= i < |ps| ==> ps[i].0 !in values) && forall i, j :: 0 <= i < j < |ps| ==> ps[i].0 != ps[j].0
  }

  lemma HeadAndRest(p: (string, Json), rest: seq<(string, Json)>, values: map<string, string>)
    ensures Texts([p] + rest) <==> WantedKey(p.0) && p.1.Str? && p.1.text != "" && Texts(rest)
    ensures p.1.Str? ==>
      (KeysOnce([p] + rest, values) <==> p.0 !in values && KeysOnce(rest, values[p.0 := p.1.text]))
  {
    hide WantedKey;
    var ps := [p] + rest;
    assert ps[0] == p && ps[1..] == rest;
    assert forall i :: 0 <= i < |rest| ==> rest[i] == ps[i + 1];
    if Texts(ps) {
      forall i | 0 <= i < |rest| ensures WantedKey(rest[i].0) && rest[i].1.Str? && rest[i].1.text != "" {
        assert rest[i] == ps[i + 1];
      }
    }
    if p.1.Str? && KeysOnce(ps, values) {
      forall i | 0 <= i < |rest| ensures rest[i].0 !in values[p.0 := p.1.text] { assert rest[i] == ps[i + 1]; }
      forall i, j | 0 <= i < j < |rest| ensures rest[i].0 != rest[j].0 {
        assert rest[i] == ps[i + 1] && rest[j] == ps[j + 1];
      }
    }
  }

  predicate HasPairs(m: map<string, string>, ps: seq<(string, Json)>) {
    forall i :: 0 <= i < |ps| ==> ps[i].0 in m && ps[i].1 == Str(m[ps[i].0])
  }

  predicate HasEntries(m: map<string, string>, values: map<string, string>) {
    forall k :: k in values ==> k in m && m[k] == values[k]
  }

  predicate NamedIn(k: string, ps: seq<(string, Json)>) { exists i :: 0 <= i < |ps| && ps[i].0 == k }

  /** The map has the given entries and those of the list, and no others. */
  predicate Gathered(m: map<string, string>, values: map<string, string>, ps: seq<(string, Json)>) {
    |m| == |values| + |ps| && HasEntries(m, values) && HasPairs(m, ps)
    && forall k :: k in m ==> k in values || NamedIn(k, ps)
  }

  lemma OneMorePair(m: map<string, string>, p: (string, Json), rest: seq<(string, Json)>)
    requires HasPairs(m, rest) && p.0 in m && p.1 == Str(m[p.0])
    ensures HasPairs(m, [p] + rest)
  {
    var ps := [p] + rest;
    forall i | 0 <= i < |ps| ensures ps[i].0 in m && ps[i].1 == Str(m[ps[i].0]) {
      if i > 0 { assert ps[i] == rest[i - 1]; }
    }
  }

  lemma OneMoreEntry(m: map<string, string>, values: map<string, string>, key: string, text: string)
    requires key !in values && HasEntries(m, values[key := text])
    ensures |values[key := text]| == |values| + 1 && HasEntries(m, values) && key in m && m[key] == text
  {
    var more := values[key := text];
    assert more.Keys == values.Keys + {key} && |more| == |more.Keys| && |values| == |values.Keys|;
    assert key in more;
  }

  lemma OneMoreName(k: string, p: (string, Json), rest: seq<(string, Json)>)
    ensures k == p.0 || NamedIn(k, rest) ==> NamedIn(k, [p] + rest)
  {
    var ps := [p] + rest;
    assert ps[0] == p;
    if NamedIn(k, rest) {
      var i :| 0 <= i < |rest| && rest[i].0 == k;
      assert ps[i + 1].0 == k;
    }
  }

  lemma GatheredMore(m: map<string, string>, values: map<string, string>, key: string, text: string,
                     rest: seq<(string, Json)>)
    requires key !in values && Gathered(m, values[key := text], rest)
    ensures Gathered(m, values, [(key, Str(text))] + rest)
  {
    var more, p := values[key := text], (key, Str(text));
    OneMoreEntry(m, values, key, text);
    OneMorePair(m, p, rest);
    hide HasPairs, NamedIn, HasEntries;
    forall k | k in m && k !in values ensures NamedIn(k, [p] + rest) {
      assert k in more || NamedIn(k, rest);
      OneMoreName(k, p, rest);
    }
  }

  lemma NothingGathered(values: map<string, string>)
    ensures Texts([]) && KeysOnce([], values) && Gathered(values, values, [])
  {
  }

  /** The values gathered from known names, once each, with some text. */
  lemma {:induction false} CollectedExactly(f: Fields, values: map<string, string>)
    ensures Collect(f, values).Some? <==> Texts(PairsOf(f)) && KeysOnce(PairsOf(f), values)
    ensures Collect(f, values).Some? ==> Gathered(Collect(f, values).value, values, PairsOf(f))
  {
    hide WantedKey, Texts, KeysOnce, Gathered;
    if f.NoFields? {
      NothingGathered(values);
    } else {
      var rest := PairsOf(f.more);
      HeadAndRest((f.key, f.value), rest, values);
      if WantedKey(f.key) && f.key !in values && f.value.Str? && f.value.text != "" {
        var more := values[f.key := f.value.text];
        CollectedExactly(f.more, more);
        if Collect(f, values).Some? { GatheredMore(Collect(f.more, more).value, values, f.key, f.value.text, rest); }
      }
    }
  }

  function KeySet(ps: seq<(string, Json)>): set<string> { set i | 0 <= i < |ps| :: ps[i].0 }

  lemma {:induction false} FewerKeys(ps: seq<(string, Json)>)
    ensures |KeySet(ps)| <= |ps|
    ensures |KeySet(ps)| == |ps| ==> forall i, j :: 0 <= i < j < |ps| ==> ps[i].0 != ps[j].0
  {
    if ps != [] {
      var init, last := ps[..|ps| - 1], ps[|ps| - 1];
      FewerKeys(init);
      assert KeySet(ps) == KeySet(init) + {last.0};
      if |KeySet(ps)| == |ps| {
        assert last.0 !in KeySet(init);
        forall i, j | 0 <= i < j < |ps| ensures ps[i].0 != ps[j].0 {
          if j == |ps| - 1 { assert ps[i].0 == init[i].0 && init[i].0 in KeySet(init); } else {
            assert init[i].0 != init[j].0;
          }
        }
      }
    }
  }

  lemma JustKeys(ps: seq<(string, Json)>, wanted: map<string, string>)
    requires Just(ps, wanted)
    ensures KeySet(ps) == wanted.Keys
  {
    forall k | k in wanted ensures k in KeySet(ps) {
      var i :| 0 <= i < |ps| && ps[i] == (k, Str(wanted[k]));
      assert ps[i].0 == k;
    }
    forall k | k in KeySet(ps) ensures k in wanted {
      var i :| 0 <= i < |ps| && ps[i].0 == k;
      assert ps[i] in ps;
    }
  }

  lemma JustGood(ps: seq<(string, Json)>, wanted: map<string, string>)
    requires Just(ps, wanted) && forall k :: k in wanted ==> WantedKey(k) && wanted[k] != ""
    ensures Texts(ps) && KeysOnce(ps, map[])
  {
    hide WantedKey;
    forall i | 0 <= i < |ps| ensures WantedKey(ps[i].0) && ps[i].1.Str? && ps[i].1.text != "" { assert ps[i] in ps; }
    JustKeys(ps, wanted);
    FewerKeys(ps);
    assert |wanted| == |wanted.Keys|;
  }

  lemma JustThenCollected(f: Fields, wanted: map<string, string>)
    requires Just(PairsOf(f), wanted) && forall k :: k in wanted ==> WantedKey(k) && wanted[k] != ""
    ensures Collect(f, map[]) == Some(wanted)
  {
    hide WantedKey, Collect, Texts, KeysOnce;
    var ps := PairsOf(f);
    JustGood(ps, wanted);
    CollectedExactly(f, map[]);
    SameMap(ps, Collect(f, map[]).value, wanted);
  }

  /** Two maps whose entries are all the pairs of one list. */
  lemma SameMap(ps: seq<(string, Json)>, m: map<string, string>, wanted: map<string, string>)
    requires Just(ps, wanted)
    requires forall i :: 0 <= i < |ps| ==> ps[i].0 in m && ps[i].1 == Str(m[ps[i].0])
    requires forall k :: k in m ==> exists i :: 0 <= i < |ps| && ps[i].0 == k
    ensures m == wanted
  {
    forall k | k in wanted ensures k in m && m[k] == wanted[k] {
      var i :| 0 <= i < |ps| && ps[i] == (k, Str(wanted[k]));
      assert ps[i].0 in m && ps[i].1 == Str(m[ps[i].0]);
    }
    forall k | k in m ensures k in wanted {
      var i :| 0 <= i < |ps| && ps[i].0 == k;
      assert ps[i] in ps;
    }
    assert m.Keys == wanted.Keys;
  }

  lemma CollectedThenJust(f: Fields, wanted: map<string, string>)
    requires Collect(f, map[]) == Some(wanted)
    ensures Just(PairsOf(f), wanted)
  {
    hide WantedKey, Collect, Texts, KeysOnce;
    var ps := PairsOf(f);
    CollectedExactly(f, map[]);
    forall p | p in ps ensures p.0 in wanted && p.1 == Str(wanted[p.0]) { var i :| 0 <= i < |ps| && ps[i] == p; }
    forall k | k in wanted ensures (k, Str(wanted[k])) in ps {
      var i :| 0 <= i < |ps| && ps[i].0 == k;
      assert ps[i] == (k, Str(wanted[k]));
    }
  }

  /** Members that are just those of a map are known, and gathered into that map. */
  lemma JustCollected(f: Fields, wanted: map<string, string>)
    requires forall k :: k in wanted ==> WantedKey(k) && wanted[k] != ""
    ensures Just(PairsOf(f), wanted) <==> Collect(f, map[]) == Some(wanted)
  {
    hide Just, Collect, WantedKey;
    if Just(PairsOf(f), wanted) { JustThenCollected(f, wanted); }
    if Collect(f, map[]) == Some(wanted) { CollectedThenJust(f, wanted); }
  }

  lemma AskingIsWanted(w: Wanted)
    requires Askable(w)
    ensures forall k :: k in Asking(w) ==> WantedKey(k) && Asking(w)[k] != ""
  {
  }

  lemma KeyNames()
    ensures "provider" != "repository" && "provider" != "operation" && "repository" != "operation"
      && "github" != "openai" && "github-git-read" != ""
  {
    WireNames();
  }

  /** What the gathered values ask for. */
  lemma ChosenExactly(values: map<string, string>, w: Wanted)
    requires forall k :: k in values ==> WantedKey(k) && values[k] != ""
    ensures Chosen(values) == Some(w) <==> Askable(w) && values == Asking(w)
  {
    if Chosen(values) == Some(w) { ChosenKeys(values, w); }
    if Askable(w) && values == Asking(w) {
      KeyNames();
      AskingSize(w);
    }
  }

  lemma ChosenKeys(values: map<string, string>, w: Wanted)
    requires (forall k :: k in values ==> WantedKey(k) && values[k] != "") && Chosen(values) == Some(w)
    ensures Askable(w) && values == Asking(w)
  {
    KeyNames();
    assert |values| == |values.Keys|;
    assert values.Keys <= {"provider", "repository", "operation"};
    if w.provider == "openai" {
      assert values.Keys == {"provider"};
    } else if w.operation == "" {
      TwoKeys(values.Keys, "provider", "repository");
    } else {
      assert values.Keys == {"provider", "repository", "operation"};
    }
    assert values == Asking(w);
  }

  lemma TwoKeys(s: set<string>, a: string, b: string)
    requires a in s && b in s && a != b && |s| == 2
    ensures s == {a, b}
  {
    SubsetEqual({a, b}, s);
  }

  lemma SubsetEqual(a: set<string>, b: set<string>)
    requires a <= b && |a| == |b|
    ensures a == b
  {
    assert |b - a| == 0;
  }

  lemma AskingSize(w: Wanted)
    requires Askable(w)
    ensures |Asking(w)| == if w.provider == "openai" then 1 else if w.operation == "" then 2 else 3
  {
    KeyNames();
    assert |Asking(w)| == |Asking(w).Keys|;
    if w.provider == "openai" {
      assert Asking(w).Keys == {"provider"};
    } else if w.operation == "" {
      assert Asking(w).Keys == {"provider", "repository"};
    } else {
      assert Asking(w).Keys == {"provider", "repository", "operation"};
    }
  }

  lemma CollectedIsWanted(f: Fields)
    requires Collect(f, map[]).Some?
    ensures forall k :: k in Collect(f, map[]).value ==> WantedKey(k) && Collect(f, map[]).value[k] != ""
  {
    hide WantedKey;
    CollectedExactly(f, map[]);
    var m, ps := Collect(f, map[]).value, PairsOf(f);
    forall k | k in m ensures WantedKey(k) && m[k] != "" { var i :| 0 <= i < |ps| && ps[i].0 == k; }
  }

  /** A body asks for something if and only if it is one object of exactly the members that ask for it, in any
      order, within the limit and in UTF-8. */
  lemma BodyExactly(body: string, w: Wanted)
    ensures DecodeIssueBody(body) == Some(w)
            <==> 1 <= |body| <= 512 && EgressPolicy.ValidUTF8(body) && Askable(w)
                 && match Decode(body)
                    case Some(Obj(f)) => Just(PairsOf(f), Asking(w))
                    case _ => false
  {
    hide Decode, EgressPolicy.ValidUTF8, Just, Askable, Asking, WantedKey, Collect, Chosen;
    match Decode(body)
    case Some(Obj(f)) =>
      if Askable(w) {
        AskingIsWanted(w);
        JustCollected(f, Asking(w));
        ChosenExactly(Asking(w), w);
      }
      if Collect(f, map[]).Some? {
        CollectedIsWanted(f);
        ChosenExactly(Collect(f, map[]).value, w);
      }
    case _ =>
  }

  // ---- the client's bytes, spelled out -------------------------------------------------------------------------

  /** What the client sends for a read of a repository, for the model, and for a revocation. */
  lemma RequestsSpelled(r: string, h: string)
    ensures IssueBytes(RestBody(r))
      == IssueText("Content-Length: " + Decimal(|RestBody(r)|), "Content-Type: application/json")
      + ("{\"provider\":\"github\",\"repository\":\"" + r + "\"}")
    ensures GitBody(r) == "{\"provider\":\"github\",\"repository\":\"" + r + "\",\"operation\":\"github-git-read\"}"
    ensures OpenAIBody() == "{\"provider\":\"openai\"}"
    ensures RevokeBytes(h) == RevokeText(h, "Content-Length: 0")
  {
    hide Decimal;
    DecimalZeroText();
    var body, length := RestBody(r), "Content-Length: " + Decimal(|RestBody(r)|);
    assert body == "{\"provider\":\"github\",\"repository\":\"" + r + "\"}";
    var t := "Content-Type: application/json";
    assert t + (Marker() + body) == (t + Marker()) + body;
    assert IssueLine() + (CRLF() + (length + (CRLF() + (t + (Marker() + body)))))
        == (IssueLine() + (CRLF() + (length + (CRLF() + (t + Marker()))))) + body;
  }

  lemma DecimalZeroText()
    ensures Decimal(0) == "0"
  {
  }

  /** What the server answers an issue with: a fixed header and the handle. */
  lemma ReplySpelled(h: string)
    requires Base64.CanonicalHandle(h)
    ensures ServerReply(h)
         == "HTTP/1.1 200 OK" + (CRLF() + ("Content-Type: application/json" + (CRLF() + ("Content-Length: 60" + (CRLF()
            + ("Connection: close" + (Marker() + ("{\"handle\":\"" + h + "\"}"))))))))
  {
    hide Base64.CanonicalHandle, ReplyBody, Decimal, CRLF, Marker, ReplyPrefix, ReplySuffix;
    ReplyBodyText(h);
    SixtyText();
    ReplyLines("60", ReplyBody(h));
    assert "Content-Length: " + "60" == "Content-Length: 60";
  }
}
