/** The buffered response of a session: its header budget and the header block it writes. */
module ResponseHeader {
  import opened Text
  import ControlWire

  const MAX_HEADER := 16384
  const MAX_BODY := 1048576

  type Headers = map<string, seq<string>>

  predicate Upper(c: char) { 'A' <= c <= 'Z' }

  predicate LowerCase(c: char) { 'a' <= c <= 'z' }

  /** A token that http.CanonicalHeaderKey leaves as it is. */
  predicate CanonicalName(k: string) {
    ControlWire.HeaderToken(k)
    && forall i :: 0 <= i < |k| ==> if i == 0 || k[i - 1] == '-' then !LowerCase(k[i]) else !Upper(k[i])
  }

  predicate VisibleASCII(v: string) { forall i :: 0 <= i < |v| ==> ' ' <= v[i] <= '~' }

  // ---- the budget ----------------------------------------------------------------------------------------

  function Cost(key: string, value: string): nat { |key| + |value| + 4 }

  /** What a key costs: one field for each value, or one with no value. */
  function ValuesCost(key: string, values: seq<string>): nat {
    if values == [] then 0 else ValuesCost(key, values[..|values| - 1]) + Cost(key, values[|values| - 1])
  }

  function KeyCost(key: string, values: seq<string>): nat {
    if values == [] then |key| + 4 else ValuesCost(key, values)
  }

  /** A sum over keys, whatever their order. */
  function Sum(h: Headers, keys: set<string>): nat
    requires keys <= h.Keys
    decreases |keys|
  {
    if keys == {} then 0 else
    var k := SmallestID(keys);
    KeyCost(k, h[k]) + Sum(h, keys - {k})
  }

  lemma {:induction false} SumWithout(h: Headers, keys: set<string>, k: string)
    requires keys <= h.Keys && k in keys
    ensures Sum(h, keys) == KeyCost(k, h[k]) + Sum(h, keys - {k})
    decreases |keys|
  {
    var least := SmallestID(keys);
    if k != least {
      SumWithout(h, keys - {least}, k);
      assert least in keys - {k};
      SumWithout(h, keys - {k}, least);
      assert keys - {least} - {k} == keys - {k} - {least};
    }
  }

  predicate NamesAndValuesValid(h: Headers) {
    forall k :: k in h ==> CanonicalName(k) && forall v :: v in h[k] ==> VisibleASCII(v)
  }

  /** The two fields the flush adds are paid for first. */
  function Reserved(bodyLength: nat): nat { Cost("Content-Length", Decimal(bodyLength)) + Cost("Connection", "close") }

  /** What the flush accepts. */
  predicate ValidHeaders(h: Headers, bodyLength: nat) {
    NamesAndValuesValid(h) && Reserved(bodyLength) + Sum(h, h.Keys) <= MAX_HEADER - 2
  }

  method ConsumeBudget(remaining: nat, key: string, value: string) returns (ok: bool, left: nat)
    ensures ok <==> Cost(key, value) <= remaining
    ensures left == if ok then remaining - Cost(key, value) else remaining
  {
    if |key| > remaining || |value| > remaining - |key| || 4 > remaining - |key| - |value| { return false, remaining; }
    return true, remaining - (|key| + |value| + 4);
  }

  /** The inner loop: the values of one key. */
  method ConsumeValues(remaining: nat, key: string, values: seq<string>) returns (ok: bool, left: nat)
    ensures ok <==> ValuesCost(key, values) <= remaining && forall v :: v in values ==> VisibleASCII(v)
    ensures ok ==> left == remaining - ValuesCost(key, values)
  {
    left := remaining;
    for i := 0 to |values|
      invariant ValuesCost(key, values[..i]) + left == remaining
      invariant forall v :: v in values[..i] ==> VisibleASCII(v)
    {
      assert values[..i + 1][..i] == values[..i] && values[..i + 1] == values[..i] + [values[i]];
      if !VisibleASCII(values[i]) { return false, left; }
      var paid, rest := ConsumeBudget(left, key, values[i]);
      if !paid {
        CostsGrow(key, values, i + 1);
        return false, left;
      }
      left := rest;
    }
    assert values[..|values|] == values;
    ok := true;
  }

  lemma {:induction false} CostsGrow(key: string, values: seq<string>, n: nat)
    requires n <= |values|
    ensures ValuesCost(key, values[..n]) <= ValuesCost(key, values)
    decreases |values| - n
  {
    if n < |values| {
      assert values[..n + 1][..n] == values[..n];
      CostsGrow(key, values, n + 1);
    } else {
      assert values[..n] == values;
    }
  }

  /** validResponseHeaders walks the map in an arbitrary order; the answer does not depend on it. */
  method CheckHeaders(h: Headers, bodyLength: nat) returns (ok: bool)
    ensures ok <==> ValidHeaders(h, bodyLength)
  {
    hide CanonicalName, VisibleASCII, ValuesCost;
    var remaining: nat := MAX_HEADER - 2;
    var paid, left := ConsumeBudget(remaining, "Content-Length", Decimal(bodyLength));
    if !paid { return false; }
    paid, left := ConsumeBudget(left, "Connection", "close");
    if !paid { return false; }
    remaining := left;
    var todo := h.Keys;
    while todo != {}
      invariant todo <= h.Keys
      invariant Reserved(bodyLength) + Sum(h, h.Keys) == MAX_HEADER - 2 - remaining + Sum(h, todo)
      invariant forall k :: k in h && k !in todo ==> CanonicalName(k) && forall v :: v in h[k] ==> VisibleASCII(v)
      decreases |todo|
    {
      var k :| k in todo;
      SumWithout(h, todo, k);
      todo := todo - {k};
      if !CanonicalName(k) { return false; }
      if h[k] == [] {
        paid, left := ConsumeBudget(remaining, k, "");
      } else {
        paid, left := ConsumeValues(remaining, k, h[k]);
      }
      if !paid { return false; }
      remaining := left;
    }
    ok := true;
  }

  // ---- the block ----------------------------------------------------------------------------------------------

  function FieldLines(key: string, values: seq<string>): string {
    if values == [] then "" else FieldLines(key, values[..|values| - 1]) + (key + ": " + values[|values| - 1] + "\r\n")
  }

  /** The fields in the order of their names. */
  function Fields(h: Headers, keys: set<string>): string
    requires keys <= h.Keys
    decreases |keys|
  {
    if keys == {} then "" else
    var k := SmallestID(keys);
    FieldLines(k, h[k]) + Fields(h, keys - {k})
  }

  function Flushed(h: Headers, bodyLength: nat): Headers {
    (h - {"Transfer-Encoding"})["Content-Length" := [Decimal(bodyLength)]]["Connection" := ["close"]]
  }

  /** The header block: the fields and the blank line that ends them. */
  function Block(h: Headers): string { Fields(h, h.Keys) + "\r\n" }

  lemma {:induction false} FieldLinesLength(key: string, values: seq<string>)
    ensures |FieldLines(key, values)| == ValuesCost(key, values)
  {
    if values != [] { FieldLinesLength(key, values[..|values| - 1]); }
  }

  lemma {:induction false} FieldsLength(h: Headers, keys: set<string>)
    requires keys <= h.Keys
    ensures |Fields(h, keys)| <= Sum(h, keys)
    decreases |keys|
  {
    if keys != {} {
      var k := SmallestID(keys);
      FieldLinesLength(k, h[k]);
      FieldsLength(h, keys - {k});
    }
  }

  lemma {:induction false} SumSame(h: Headers, g: Headers, keys: set<string>)
    requires keys <= h.Keys && keys <= g.Keys && forall k :: k in keys ==> g[k] == h[k]
    ensures Sum(g, keys) == Sum(h, keys)
    decreases |keys|
  {
    hide KeyCost;
    if keys != {} {
      var k := SmallestID(keys);
      SumSame(h, g, keys - {k});
    }
  }

  lemma {:induction false} SumShrinks(h: Headers, keys: set<string>, more: set<string>)
    requires keys <= more <= h.Keys
    ensures Sum(h, keys) <= Sum(h, more)
    decreases |more|
  {
    hide KeyCost;
    if keys != more {
      var k :| k in more && k !in keys;
      SumWithout(h, more, k);
      SumShrinks(h, keys, more - {k});
    }
  }

  /** Setting a field costs no more than adding it. */
  lemma SetCosts(h: Headers, key: string, value: string)
    ensures var g := h[key := [value]]; Sum(g, g.Keys) <= Sum(h, h.Keys) + Cost(key, value)
  {
    var g := h[key := [value]];
    SumWithout(g, g.Keys, key);
    assert g.Keys - {key} <= h.Keys;
    SumSame(h, g, g.Keys - {key});
    SumShrinks(h, g.Keys - {key}, h.Keys);
    assert [value][..0] == [];
    assert ValuesCost(key, [value]) == Cost(key, value);
  }

  lemma RemovalCosts(h: Headers, key: string)
    ensures var g := h - {key}; Sum(g, g.Keys) <= Sum(h, h.Keys)
  {
    var g := h - {key};
    SumSame(h, g, g.Keys);
    SumShrinks(h, g.Keys, h.Keys);
  }

  /** Every header block that is flushed, fields and blank line, fits in 16 KiB. */
  lemma BlockFits(h: Headers, bodyLength: nat)
    requires ValidHeaders(h, bodyLength)
    ensures |Block(Flushed(h, bodyLength))| <= MAX_HEADER
  {
    hide NamesAndValuesValid, Sum, Fields, Cost;
    var one := h - {"Transfer-Encoding"};
    var two := one["Content-Length" := [Decimal(bodyLength)]];
    RemovalCosts(h, "Transfer-Encoding");
    SetCosts(one, "Content-Length", Decimal(bodyLength));
    SetCosts(two, "Connection", "close");
    var g := Flushed(h, bodyLength);
    FieldsLength(g, g.Keys);
  }

  /** The budget is exact for headers that name every field once with one value and none of the three
      fields the flush rewrites: such headers are refused only when their block would not fit. */
  lemma RefusalIsNeeded(h: Headers, bodyLength: nat)
    requires NamesAndValuesValid(h) && (forall k :: k in h ==> h[k] != [])
    requires "Transfer-Encoding" !in h && "Content-Length" !in h && "Connection" !in h
    ensures ValidHeaders(h, bodyLength) <==> |Block(Flushed(h, bodyLength))| <= MAX_HEADER
  {
    hide NamesAndValuesValid, Fields, Cost, ValuesCost;
    var one := h["Content-Length" := [Decimal(bodyLength)]];
    NamesDiffer();
    assert h - {"Transfer-Encoding"} == h;
    AddCosts(h, "Content-Length", Decimal(bodyLength));
    AddCosts(one, "Connection", "close");
    var g := Flushed(h, bodyLength);
    ExactFieldsLength(g, g.Keys);
  }

  lemma NamesDiffer()
    ensures "Content-Length" != "Connection"
  {
    assert |"Content-Length"| == 14 && |"Connection"| == 10;
  }

  lemma AddCosts(h: Headers, key: string, value: string)
    requires key !in h
    ensures var g := h[key := [value]]; Sum(g, g.Keys) == Sum(h, h.Keys) + Cost(key, value)
  {
    var g := h[key := [value]];
    SumWithout(g, g.Keys, key);
    assert g.Keys - {key} == h.Keys;
    SumSame(h, g, h.Keys);
    assert [value][..0] == [];
    assert ValuesCost(key, [value]) == Cost(key, value);
  }

  lemma {:induction false} ExactFieldsLength(h: Headers, keys: set<string>)
    requires keys <= h.Keys && forall k :: k in keys ==> h[k] != []
    ensures |Fields(h, keys)| == Sum(h, keys)
    decreases |keys|
  {
    if keys != {} {
      var k := SmallestID(keys);
      FieldLinesLength(k, h[k]);
      ExactFieldsLength(h, keys - {k});
    }
  }

  // ---- the buffer ------------------------------------------------------------------------------------------------

  class ResponseBuffer {
    var header: Headers
    var status: int
    var wrote: bool
    var failed: bool
    var body: string

    predicate Valid()
      reads this
    {
      |body| <= MAX_BODY && (wrote ==> 100 <= status <= 999) && (body != "" ==> wrote)
    }

    constructor ()
      ensures Valid() && header == map[] && !wrote && !failed && body == ""
    {
      header, status, wrote, failed, body := map[], 0, false, false, "";
    }

    method WriteHeader(code: int)
      requires Valid()
      modifies this`status, this`wrote
      ensures Valid() && wrote
        && status == (if old(wrote) then old(status) else if 100 <= code <= 999 then code else 500)
    {
      if wrote { return; }
      status, wrote := if code < 100 || code > 999 then 500 else code, true;
    }

    /** All of the data or none of it. */
    method Write(data: string) returns (ok: bool)
      requires Valid()
      modifies this`status, this`wrote, this`failed, this`body
      ensures Valid() && ok == (!old(failed) && |old(body)| + |data| <= MAX_BODY) && failed == !ok
      ensures body == (if ok then old(body) + data else old(body))
      ensures !old(failed) ==> wrote && status == (if old(wrote) then old(status) else 200)
    {
      if failed { return false; }
      if !wrote { WriteHeader(200); }
      if |data| > MAX_BODY - |body| {
        failed := true;
        return false;
      }
      body := body + data;
      ok := true;
    }

    /** The bytes for the connection, given the text of the status; None when the response is refused. */
    method Flush(reason: string) returns (output: Option<string>)
      requires Valid()
      modifies this`status, this`wrote
      ensures Valid() && (output.Some? <==> !failed && ValidHeaders(header, |body|))
      ensures output.Some? ==>
        wrote
        && output.value == "HTTP/1.1 " + Decimal(status) + " " + reason + "\r\n"
           + Block(Flushed(header, |body|)) + body
                               && |Block(Flushed(header, |body|))| <= MAX_HEADER
    {
      hide ValidHeaders, Block, Flushed;
      if failed { return None; }
      if !wrote { WriteHeader(200); }
      var ok := CheckHeaders(header, |body|);
      if !ok { return None; }
      BlockFits(header, |body|);
      output := Some("HTTP/1.1 " + Decimal(status) + " " + reason + "\r\n" + Block(Flushed(header, |body|)) + body);
    }
  }
}
