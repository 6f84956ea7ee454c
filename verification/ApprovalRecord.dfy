/** Durable approval records and the snapshot document that holds them: what is written,
    what the strict loader reads back, and when it refuses what was written. */
module ApprovalRecord {
  import opened Text
  import opened CivilTime
  import opened Json
  import Manifest
  import Scanner

  type Hasher = Manifest.Hasher

  datatype State = Pending | Approved | Denied | Cancelled | Expired | Stale

  /** Durations are whole seconds. */
  datatype Rules = Rules(policyVersion: string, revocationEpoch: nat, maxTTL: nat, maxRecords: nat)

  predicate ValidRules(r: Rules) {
    ValidScalar(r.policyVersion, 128) && 0 < r.maxTTL <= 9_223_372_036 && 0 < r.maxRecords <= 10_000
    && r.revocationEpoch < 0x1_0000_0000_0000_0000
  }

  /** decidedAt is ZERO_TIME while nothing is decided. */
  datatype Record = Record(
    requestID: string, manifest: string, digest: string, state: State,
    createdAt: int, expiresAt: int, decidedAt: int, actorID: string)

  predicate Active(s: State) { s.Pending? || s.Approved? }

  predicate Due(r: Record, now: int) { Active(r.state) && now >= r.expiresAt }

  function StateName(s: State): string {
    match s
    case Pending => "pending"
    case Approved => "approved"
    case Denied => "denied"
    case Cancelled => "cancelled"
    case Expired => "expired"
    case Stale => "stale"
  }

  function NamedState(name: string): Option<State> {
    if name == "pending" then Some(Pending)
    else if name == "approved" then Some(Approved)
    else if name == "denied" then Some(Denied)
    else if name == "cancelled" then Some(Cancelled)
    else if name == "expired" then Some(Expired)
    else if name == "stale" then Some(Stale)
    else None
  }

  lemma NamedStateOfName(s: State)
    ensures NamedState(StateName(s)) == Some(s) && |StateName(s)| <= 9
  {
    assert "pending"[0] == 'p' && "approved"[0] == 'a' && "denied"[0] == 'd' && "cancelled"[0] == 'c'
      && "expired"[0] == 'e' && "stale"[0] == 's';
  }

  // ---- the invariant of a record -----------------------------------------------------

  predicate DecidedShape(r: Record) {
    match r.state
    case Pending => true
    case Approved => ValidScalar(r.actorID, 128) && r.decidedAt < r.expiresAt
    case Denied => ValidScalar(r.actorID, 128) && r.decidedAt < r.expiresAt
    case Stale => ValidScalar(r.actorID, 128) && r.decidedAt < r.expiresAt
    case Cancelled => r.actorID == "" && r.decidedAt < r.expiresAt
    case Expired => (r.actorID == "" || ValidScalar(r.actorID, 128)) && r.decidedAt >= r.expiresAt
  }

  /** Everything the store keeps true of a record, judged at time t. */
  ghost predicate GoodRecord(hash: Hasher, rules: Rules, id: string, r: Record, t: int) {
    id == r.requestID
    && Manifest.Parse(hash, r.manifest).Ok?
    && (var m := Manifest.Parse(hash, r.manifest).value;
        m.proposal.requestID == id && m.requestDigest == r.digest
        && m.proposal.policyVersion == rules.policyVersion && m.proposal.revocationEpoch == rules.revocationEpoch
        && m.proposal.createdAt.seconds == r.createdAt && m.proposal.expiresAt.seconds == r.expiresAt)
    && r.expiresAt - r.createdAt <= rules.maxTTL && r.createdAt <= t
    && (r.state.Pending? ==> r.decidedAt == ZERO_TIME && r.actorID == "")
    && (!r.state.Pending? ==>
      r.createdAt <= r.decidedAt <= t && ZERO_TIME <= r.decidedAt && FourDigitYear(r.decidedAt) && DecidedShape(r))
  }

  ghost predicate GoodRecords(hash: Hasher, rules: Rules, records: map<string, Record>, t: int) {
    |records| <= rules.maxRecords && forall id :: id in records ==> GoodRecord(hash, rules, id, records[id], t)
  }

  // ---- the wire form ---------------------------------------------------------------------

  /** The state is kept by name on the wire; any other name is refused when it is decoded, as it is
      when it is validated. */
  datatype RecordWire = RecordWire(
    requestID: string, manifest: string, digest: string, state: State,
    createdAt: string, expiresAt: string, decidedAt: string, actorID: string)

  datatype SnapshotWire = SnapshotWire(
    formatVersion: nat, generation: nat, observedAt: string, records: Option<seq<RecordWire>>)

  /** formatTime; every instant the store writes has a four-digit year. */
  function Spell(t: int): string {
    if FourDigitYear(t) then FormatTime(t) else ""
  }

  function ToWire(r: Record): RecordWire {
    RecordWire(r.requestID, r.manifest, r.digest, r.state, Spell(r.createdAt), Spell(r.expiresAt),
               if r.decidedAt == ZERO_TIME then "" else Spell(r.decidedAt), r.actorID)
  }

  /** A raw JSON member keeps its own text; "null" stands for absent text. */
  function RawValue(text: string): Json {
    match Decode(text)
    case Some(v) => v
    case None => Null
  }

  function RecordNames(): (ns: seq<string>)
    ensures |ns| == 6
  {
    ["request_id", "manifest", "digest", "state", "created_at", "expires_at"]
  }

  function RecordPairs(w: RecordWire): seq<Pair> {
    Manifest.Zip(RecordNames(),
      [Str(w.requestID), RawValue(w.manifest), Str(w.digest), Str(StateName(w.state)), Str(w.createdAt),
        Str(w.expiresAt)])
    + (if w.decidedAt == "" then [] else [("decided_at", Str(w.decidedAt))])
    + (if w.actorID == "" then [] else [("actor_id", Str(w.actorID))])
  }

  function RecordValue(w: RecordWire): Json { Obj(FromPairs(RecordPairs(w))) }

  function SnapshotNames(): (ns: seq<string>)
    ensures |ns| == 4
  {
    ["format_version", "generation", "observed_at", "records"]
  }

  function RecordValues(ws: seq<RecordWire>): seq<Json> { seq(|ws|, i requires 0 <= i < |ws| => RecordValue(ws[i])) }

  function SnapshotPairs(w: SnapshotWire): seq<Pair> {
    Manifest.Zip(SnapshotNames(), [Num(Decimal(w.formatVersion)), Num(Decimal(w.generation)), Str(w.observedAt),
                                   if w.records.None? then Null else Arr(FromSeq(RecordValues(w.records.value)))])
  }

  function SnapshotValue(w: SnapshotWire): Json { Obj(FromPairs(SnapshotPairs(w))) }

  /** The records of a map in the order of their identifiers. */
  function SortedWires(records: map<string, Record>): seq<RecordWire> {
    var ids := SortedIDs(records.Keys);
    seq(|ids|, i requires 0 <= i < |ids| => ToWire(records[ids[i]]))
  }

  /** What `commit` writes; an empty record list is Go's nil slice. */
  function SnapshotOf(records: map<string, Record>, generation: nat, observed: int): SnapshotWire {
    SnapshotWire(1, generation, Spell(observed), if |records| == 0 then None else Some(SortedWires(records)))
  }

  function EncodeSnapshot(records: map<string, Record>, generation: nat, observed: int): string {
    Encode(SnapshotValue(SnapshotOf(records, generation, observed)))
  }

  // ---- the loader ----------------------------------------------------------------------------

  /** With the two that a record may lack. */
  function RecordFieldNames(): seq<string> { RecordNames() + ["decided_at", "actor_id"] }

  /** The text a raw member had, in compact form; "" when absent. */
  function RawField(fields: Fields, name: string): string {
    match Lookup(fields, name)
    case None => ""
    case Some(v) => Encode(v)
  }

  function DecodeRecord(v: Json): Option<RecordWire> {
    if !v.Obj? || !Manifest.OnlyNames(v.fields, RecordFieldNames()) then None
    else
      var requestID :- Manifest.TextField(v.fields, "request_id");
      var digest :- Manifest.TextField(v.fields, "digest");
      var name :- Manifest.TextField(v.fields, "state");
      var state :- NamedState(name);
      var created :- Manifest.TextField(v.fields, "created_at");
      var expires :- Manifest.TextField(v.fields, "expires_at");
      var decided :- Manifest.TextField(v.fields, "decided_at");
      var actor :- Manifest.TextField(v.fields, "actor_id");
      Some(RecordWire(requestID, RawField(v.fields, "manifest"), digest, state, created, expires, decided, actor))
  }

  function DecodeRecords(vs: seq<Json>): Option<seq<RecordWire>> {
    if vs == [] then Some([]) else
    var first :- DecodeRecord(vs[0]);
    var others :- DecodeRecords(vs[1..]);
    Some([first] + others)
  }

  function RecordsField(fields: Fields): Option<Option<seq<RecordWire>>> {
    match Lookup(fields, "records")
    case None => Some(None)
    case Some(Null) => Some(None)
    case Some(Arr(items)) => var ws :- DecodeRecords(ToSeq(items)); Some(Some(ws))
    case _ => None
  }

  function DecodeWire(v: Json): Option<SnapshotWire> {
    if !v.Obj? || !Manifest.OnlyNames(v.fields, SnapshotNames()) then None else
    var version :- Manifest.UintField(v.fields, "format_version");
    var generation :- Manifest.UintField(v.fields, "generation");
    var observed :- Manifest.TextField(v.fields, "observed_at");
    var records :- RecordsField(v.fields);
    Some(SnapshotWire(version, generation, observed, records))
  }

  /** validateWireState: the decision instant, or None for a refused shape. */
  function ValidateWireState(w: RecordWire, created: int, expires: int, observed: int): Option<int> {
    if w.state.Pending? then
      if w.decidedAt == "" && w.actorID == "" && observed < expires then Some(ZERO_TIME) else None
    else
      var decided :- ParseTime(w.decidedAt);
      if decided > observed || decided < created then None
      else if match w.state
              case Cancelled => w.actorID == "" && decided < expires
              case Expired => (w.actorID == "" || ValidScalar(w.actorID, 128)) && decided >= expires
              case Approved => ValidScalar(w.actorID, 128) && decided < expires
              case Denied => ValidScalar(w.actorID, 128) && decided < expires
              case Stale => ValidScalar(w.actorID, 128) && decided < expires
      then Some(decided) else None
  }

  function LoadRecord(hash: Hasher, rules: Rules, observed: int, w: RecordWire): Option<Record> {
    match Manifest.Parse(hash, w.manifest)
    case Err(_) => None
    case Ok(m) =>
      if m.encoding != w.manifest || m.proposal.requestID != w.requestID || m.requestDigest != w.digest
         || m.proposal.policyVersion != rules.policyVersion || m.proposal.revocationEpoch != rules.revocationEpoch then
           None
      else
        var created :- ParseTime(w.createdAt);
        var expires :- ParseTime(w.expiresAt);
        if created != m.proposal.createdAt.seconds || expires != m.proposal.expiresAt.seconds
           || expires - created > rules.maxTTL || observed < created then None
        else
          var decided :- ValidateWireState(w, created, expires, observed);
          Some(Record(w.requestID, w.manifest, w.digest, w.state, created, expires, decided, w.actorID))
  }

  predicate OrderedAt(ws: seq<RecordWire>, i: nat)
    requires i < |ws|
  {
    ws[i].requestID != "" && (i > 0 ==> Before(ws[i - 1].requestID, ws[i].requestID))
  }

  /** The first n records, each in order and loadable, keyed by its identifier. */
  function LoadRecords(hash: Hasher, rules: Rules, observed: int, ws: seq<RecordWire>,
                       n: nat): Option<map<string, Record>>
    requires n <= |ws|
  {
    if n == 0 then Some(map[]) else
    var records :- LoadRecords(hash, rules, observed, ws, n - 1);
    if !OrderedAt(ws, n - 1) then None else
    var loaded :- LoadRecord(hash, rules, observed, ws[n - 1]);
    Some(records[ws[n - 1].requestID := loaded])
  }

  lemma RefusedStep(hash: Hasher, rules: Rules, observed: int, ws: seq<RecordWire>, n: nat)
    requires n < |ws| && LoadRecords(hash, rules, observed, ws, n).None?
    ensures LoadRecords(hash, rules, observed, ws, n + 1).None?
  {
    hide LoadRecord, OrderedAt;
  }

  lemma {:induction false} RefusedStaysRefused(hash: Hasher, rules: Rules, observed: int, ws: seq<RecordWire>, n: nat)
    requires n <= |ws| && LoadRecords(hash, rules, observed, ws, n).None?
    ensures LoadRecords(hash, rules, observed, ws, |ws|).None?
    decreases |ws| - n
  {
    hide *;
    if n < |ws| {
      RefusedStep(hash, rules, observed, ws, n);
      RefusedStaysRefused(hash, rules, observed, ws, n + 1);
    }
  }

  datatype Loaded = Loaded(records: map<string, Record>, generation: nat, observed: int)

  /** decodeSnapshot: every refusal is the one class "corrupt". */
  function DecodeSnapshot(hash: Hasher, rules: Rules, raw: string): Option<Loaded> {
    var v :- Decode(raw);
    var w :- DecodeWire(v);
    if Encode(SnapshotValue(w)) != raw || w.formatVersion != 1 || w.generation == 0 || w.records.None?
       || |w.records.value| > rules.maxRecords then None
    else
      var observed :- ParseTime(w.observedAt);
      var records :- LoadRecords(hash, rules, observed, w.records.value, |w.records.value|);
      Some(Loaded(records, w.generation, observed))
  }

  /** The loop of decodeSnapshot over the wire records. */
  method LoadLoop(hash: Hasher, rules: Rules, observed: int, ws: seq<RecordWire>)
    returns (r: Option<map<string, Record>>)
    ensures r == LoadRecords(hash, rules, observed, ws, |ws|)
  {
    hide LoadRecord, Before;
    var records: map<string, Record> := map[];
    var previous := "";
    for i := 0 to |ws|
      invariant LoadRecords(hash, rules, observed, ws, i) == Some(records)
      invariant i > 0 ==> previous == ws[i - 1].requestID
    {
      var w := ws[i];
      if (i > 0 && !Before(previous, w.requestID)) || w.requestID == "" {
        RefusedStaysRefused(hash, rules, observed, ws, i + 1);
        return None;
      }
      previous := w.requestID;
      var loaded := LoadRecord(hash, rules, observed, w);
      if loaded == None {
        RefusedStaysRefused(hash, rules, observed, ws, i + 1);
        return None;
      }
      records := records[w.requestID := loaded.value];
    }
    r := Some(records);
  }

  // ---- the wire form is read back ----------------------------------------------------------

  /** The text of a parsed manifest is the encoding of its own JSON value. */
  lemma ManifestValue(hash: Hasher, text: string)
    requires Manifest.Parse(hash, text).Ok?
    ensures WellFormed(RawValue(text)) && Encode(RawValue(text)) == text
    ensures 0 < |text| <= Manifest.MANIFEST_BOUND
  {
    Manifest.ParseAcceptsExactly(hash, text);
    var p := Manifest.Parse(hash, text).value.proposal;
    Manifest.BuildNeverFails(hash, p);
    Manifest.PublicValue(p, Manifest.RequestDigest(hash, p));
    DecodeOfEncode(Obj(FromPairs(Manifest.PublicPairs(p, Manifest.RequestDigest(hash, p)))));
  }

  /** A wire record whose manifest is JSON text in canonical form. */
  predicate RawCanonical(w: RecordWire) {
    WellFormed(RawValue(w.manifest)) && Encode(RawValue(w.manifest)) == w.manifest
  }

  lemma RecordNamesDistinct()
    ensures "request_id" != "manifest" && "request_id" != "digest" && "request_id" != "state"
      && "request_id" != "created_at" && "request_id" != "expires_at"
    ensures "manifest" != "digest" && "manifest" != "state" && "manifest" != "created_at" && "manifest" != "expires_at"
    ensures "digest" != "state" && "digest" != "created_at" && "digest" != "expires_at" && "state" != "created_at"
      && "state" != "expires_at"
    ensures "created_at" != "expires_at" && "decided_at" != "actor_id"
    ensures "decided_at" !in ["request_id", "manifest", "digest", "state", "created_at", "expires_at"]
    ensures "actor_id" !in ["request_id", "manifest", "digest", "state", "created_at", "expires_at"]
  {
    assert "request_id"[0] == 'r' && "manifest"[0] == 'm' && "digest"[1] == 'i' && "state"[0] == 's'
      && "created_at"[0] == 'c' && "expires_at"[0] == 'e' && "decided_at"[1] == 'e' && "decided_at"[0] == 'd'
      && "actor_id"[0] == 'a' && "digest"[0] == 'd';
  }

  lemma RecordPairNames(w: RecordWire)
    ensures var ps := RecordPairs(w);
      NamesDistinct(ps) && |ps| >= 6
      && ps[0] == ("request_id", Str(w.requestID)) && ps[1] == ("manifest", RawValue(w.manifest))
      && ps[2] == ("digest", Str(w.digest))
      && ps[3] == ("state", Str(StateName(w.state))) && ps[4] == ("created_at", Str(w.createdAt))
      && ps[5] == ("expires_at", Str(w.expiresAt))
      && (w.decidedAt != "" ==> |ps| > 6 && ps[6] == ("decided_at", Str(w.decidedAt)))
      && (w.actorID != "" ==> ps[|ps| - 1] == ("actor_id", Str(w.actorID)))
      && (forall i :: 6 <= i < |ps| ==>
        (ps[i].0 == "decided_at" && w.decidedAt != "") || (ps[i].0 == "actor_id" && w.actorID != ""))
  {
    hide RawValue, StateName;
    RecordNamesDistinct();
  }

  lemma WellFormedRecordValue(w: RecordWire)
    requires RawCanonical(w)
    ensures WellFormed(RecordValue(w))
  {
    var ps := RecordPairs(w);
    forall i | 0 <= i < |ps| ensures WellFormed(ps[i].1) {
      if i != 1 { assert ps[i].1.Str?; }
    }
    WellFormedPairs(ps);
  }

  lemma RequiredFields(w: RecordWire)
    ensures var fields := FromPairs(RecordPairs(w));
      Lookup(fields, "request_id") == Some(Str(w.requestID)) && Lookup(fields, "manifest") == Some(RawValue(w.manifest))
      && Lookup(fields, "digest") == Some(Str(w.digest)) && Lookup(fields, "state") == Some(Str(StateName(w.state)))
      && Lookup(fields, "created_at") == Some(Str(w.createdAt))
      && Lookup(fields, "expires_at") == Some(Str(w.expiresAt))
  {
    var ps := RecordPairs(w);
    RecordPairNames(w);
    hide RecordPairs, FromPairs, Lookup;
    LookupPair(ps, 0);
    LookupPair(ps, 1);
    LookupPair(ps, 2);
    LookupPair(ps, 3);
    LookupPair(ps, 4);
    LookupPair(ps, 5);
  }

  lemma OptionalFields(w: RecordWire)
    ensures var fields := FromPairs(RecordPairs(w));
      Lookup(fields, "decided_at") == (if w.decidedAt == "" then None else Some(Str(w.decidedAt)))
      && Lookup(fields, "actor_id") == (if w.actorID == "" then None else Some(Str(w.actorID)))
  {
    var ps := RecordPairs(w);
    RecordPairNames(w);
    var decided, actor := "decided_at", "actor_id";
    assert decided[1] == 'e' && "digest"[1] == 'i' && actor[0] == 'a' && decided[0] == 'd';
    if w.decidedAt == "" { LookupMissing(ps, decided); } else { LookupPair(ps, 6); }
    if w.actorID == "" { LookupMissing(ps, actor); } else { LookupPair(ps, |ps| - 1); }
  }

  lemma KnownRecordFields(w: RecordWire)
    ensures Manifest.OnlyNames(FromPairs(RecordPairs(w)), RecordFieldNames())
  {
    var ps := RecordPairs(w);
    RecordPairNames(w);
    Scanner.KeysOfPairs(ps);
    hide RecordPairs;
    forall k | k in Scanner.Keys(FromPairs(ps)) ensures k in RecordFieldNames() {
      var i :| 0 <= i < |ps| && ps[i].0 == k;
      assert i < 6 ==> k == RecordFieldNames()[i];
      assert k == RecordFieldNames()[6] || k == RecordFieldNames()[7] || i < 6;
    }
  }

  lemma DecodeRecordValue(w: RecordWire)
    requires RawCanonical(w)
    ensures DecodeRecord(RecordValue(w)) == Some(w)
  {
    RequiredFields(w);
    OptionalFields(w);
    KnownRecordFields(w);
    NamedStateOfName(w.state);
    hide RecordPairs, FromPairs, Lookup, Encode, Manifest.OnlyNames, RawValue, NamedState, StateName;
  }

  lemma {:induction false} DecodeRecordValues(ws: seq<RecordWire>)
    requires forall i :: 0 <= i < |ws| ==> RawCanonical(ws[i])
    ensures DecodeRecords(RecordValues(ws)) == Some(ws)
    ensures forall i :: 0 <= i < |ws| ==> WellFormed(RecordValues(ws)[i])
  {
    hide RecordValue, DecodeRecord, WellFormed, RawCanonical;
    if ws != [] {
      WellFormedRecordValue(ws[0]);
      DecodeRecordValue(ws[0]);
      DecodeRecordValues(ws[1..]);
      var vs, rest := RecordValues(ws), RecordValues(ws[1..]);
      assert vs[1..] == rest && vs[0] == RecordValue(ws[0]);
      forall i | 0 <= i < |ws| ensures WellFormed(vs[i]) {
        if i > 0 { assert vs[i] == rest[i - 1]; }
      }
      assert ws == [ws[0]] + ws[1..];
    }
  }

  predicate CanonicalWire(w: SnapshotWire) {
    w.formatVersion < 0x1_0000_0000_0000_0000 && w.generation < 0x1_0000_0000_0000_0000
    && (w.records.Some? ==> forall i :: 0 <= i < |w.records.value| ==> RawCanonical(w.records.value[i]))
  }

  lemma SnapshotFields(w: SnapshotWire)
    ensures var fields := FromPairs(SnapshotPairs(w));
      Lookup(fields, "format_version") == Some(Num(Decimal(w.formatVersion)))
        && Lookup(fields, "generation") == Some(Num(Decimal(w.generation)))
      && Lookup(fields, "observed_at") == Some(Str(w.observedAt))
      && Lookup(fields, "records")
        == Some(if w.records.None? then Null else Arr(FromSeq(RecordValues(w.records.value))))
      && Manifest.OnlyNames(fields, SnapshotNames())
  {
    var ps := SnapshotPairs(w);
    assert "format_version"[0] == 'f' && "generation"[0] == 'g' && "observed_at"[0] == 'o' && "records"[0] == 'r';
    assert ps[0].0 == "format_version" && ps[1].0 == "generation" && ps[2].0 == "observed_at" && ps[3].0 == "records";
    assert NamesDistinct(ps);
    hide RecordValues, FromPairs, Lookup;
    LookupPair(ps, 0);
    LookupPair(ps, 1);
    LookupPair(ps, 2);
    LookupPair(ps, 3);
    Scanner.KeysOfPairs(ps);
    forall k | k in Scanner.Keys(FromPairs(ps)) ensures k in SnapshotNames() {
      var i :| 0 <= i < |ps| && ps[i].0 == k;
      assert k == SnapshotNames()[i];
    }
  }

  lemma WellFormedSnapshotValue(w: SnapshotWire)
    requires CanonicalWire(w)
    ensures WellFormed(SnapshotValue(w))
    ensures w.records.Some? ==> DecodeRecords(ToSeq(FromSeq(RecordValues(w.records.value)))) == w.records
  {
    var ps := SnapshotPairs(w);
    DecimalIsNumber(w.formatVersion);
    DecimalIsNumber(w.generation);
    if w.records.Some? {
      DecodeRecordValues(w.records.value);
      WellFormedSeq(RecordValues(w.records.value));
      ToSeqOfFromSeq(RecordValues(w.records.value));
    }
    hide RecordValues, DecodeRecords, FromSeq, Decimal;
    forall i | 0 <= i < |ps| ensures WellFormed(ps[i].1) { }
    WellFormedPairs(ps);
  }

  /** The wire form survives the document: encode, then decode. */
  lemma DecodeSnapshotValue(w: SnapshotWire)
    requires CanonicalWire(w)
    ensures Decode(Encode(SnapshotValue(w))) == Some(SnapshotValue(w))
    ensures DecodeWire(SnapshotValue(w)) == Some(w)
  {
    hide RecordValues, DecodeRecords, FromSeq, ToSeq, FromPairs, SnapshotPairs, Encode, Decode, WellFormed, Decimal,
      Manifest.OnlyNames, Lookup, RawCanonical;
    WellFormedSnapshotValue(w);
    DecodeOfEncode(SnapshotValue(w));
    SnapshotFields(w);
    DecimalValueOfDecimal(w.formatVersion);
    DecimalValueOfDecimal(w.generation);
  }

  // ---- the reload theorem ----------------------------------------------------------------

  /** What the loader demands of a record beyond what the operations keep true of it: a pending
      record is not yet due, and a decision is not stamped with the instant that means "unset". */
  predicate Reloadable(r: Record, observed: int) {
    if r.state.Pending? then observed < r.expiresAt else r.decidedAt != ZERO_TIME
  }

  lemma GoodManifest(hash: Hasher, rules: Rules, id: string, r: Record, t: int)
    requires GoodRecord(hash, rules, id, r, t)
    ensures RawCanonical(ToWire(r)) && id != "" && |id| <= 128 && IsDigest(r.digest)
    ensures Manifest.Parse(hash, r.manifest).value.encoding == r.manifest
    ensures FourDigitYear(r.createdAt) && FourDigitYear(r.expiresAt) && r.createdAt < r.expiresAt
    ensures ParseTime(Spell(r.createdAt)) == Some(r.createdAt) && ParseTime(Spell(r.expiresAt)) == Some(r.expiresAt)
  {
    ManifestValue(hash, r.manifest);
    Manifest.ParseAcceptsExactly(hash, r.manifest);
    var p := Manifest.Parse(hash, r.manifest).value.proposal;
    Manifest.BuildNeverFails(hash, p);
    assert Manifest.ValidTime(p.createdAt) && Manifest.ValidTime(p.expiresAt);
    ParseFormatTime(r.createdAt);
    ParseFormatTime(r.expiresAt);
  }

  lemma SpelledDecision(r: Record)
    requires FourDigitYear(r.decidedAt)
    ensures Spell(r.decidedAt) != "" && ParseTime(Spell(r.decidedAt)) == Some(r.decidedAt)
    ensures ParseTime("") == None
  {
    ParseFormatTime(r.decidedAt);
  }

  lemma WireStateOfRecord(r: Record, observed: int)
    requires r.createdAt <= observed
    requires r.state.Pending? ==> r.decidedAt == ZERO_TIME && r.actorID == ""
    requires !r.state.Pending? ==>
      r.createdAt <= r.decidedAt <= observed && FourDigitYear(r.decidedAt) && DecidedShape(r)
    ensures ValidateWireState(ToWire(r), r.createdAt, r.expiresAt, observed)
         == if Reloadable(r, observed) then Some(r.decidedAt) else None
  {
    if !r.state.Pending? { SpelledDecision(r); }
    hide ParseTime, FourDigitYear, ValidScalar, FormatTime;
  }

  lemma LoadOfToWire(hash: Hasher, rules: Rules, id: string, r: Record, observed: int)
    requires GoodRecord(hash, rules, id, r, observed)
    ensures LoadRecord(hash, rules, observed, ToWire(r)) == if Reloadable(r, observed) then Some(r) else None
  {
    hide ParseTime, FourDigitYear, ValidScalar, FormatTime, ValidateWireState, Spell, RawCanonical, DecidedShape,
      Manifest.Parse, Reloadable, IsDigest;
    GoodManifest(hash, rules, id, r, observed);
    WireStateOfRecord(r, observed);
  }

  function Chosen(records: map<string, Record>, ids: seq<string>): map<string, Record>
    requires forall id :: id in ids ==> id in records
  {
    map id | id in ids :: records[id]
  }

  predicate AllReloadable(records: map<string, Record>, observed: int) {
    forall id :: id in records ==> Reloadable(records[id], observed)
  }

  lemma AllChosen(records: map<string, Record>, ids: seq<string>)
    requires forall id :: id in ids <==> id in records
    ensures Chosen(records, ids) == records
  {
  }

  lemma ChosenStep(records: map<string, Record>, ids: seq<string>, n: nat, observed: int)
    requires n < |ids| && forall id :: id in ids ==> id in records
    ensures Chosen(records, ids[..n + 1]) == Chosen(records, ids[..n])[ids[n] := records[ids[n]]]
    ensures AllReloadable(Chosen(records, ids[..n + 1]), observed)
       <==> AllReloadable(Chosen(records, ids[..n]), observed) && Reloadable(records[ids[n]], observed)
  {
    hide Reloadable;
    assert ids[..n + 1] == ids[..n] + [ids[n]];
    var all, some := Chosen(records, ids[..n + 1]), Chosen(records, ids[..n]);
    assert all == some[ids[n] := records[ids[n]]];
    if AllReloadable(all, observed) {
      assert ids[n] in all;
      forall id | id in some ensures Reloadable(some[id], observed) { assert id in all; }
    }
  }

  lemma WireAt(hash: Hasher, rules: Rules, records: map<string, Record>, observed: int, n: nat)
    requires GoodRecords(hash, rules, records, observed) && n < |records|
    ensures |SortedIDs(records.Keys)| == |SortedWires(records)| == |records|
    ensures var id := SortedIDs(records.Keys)[n];
      id in records && SortedWires(records)[n] == ToWire(records[id]) && ToWire(records[id]).requestID == id != ""
  {
    hide GoodRecord, SortedIDs, ToWire, Before, RawCanonical, StrictlySorted;
    var id := SortedIDs(records.Keys)[n];
    assert id in SortedIDs(records.Keys);
    assert GoodRecord(hash, rules, id, records[id], observed);
    WireIdentity(hash, rules, id, records[id], observed);
  }

  lemma OrderedWires(hash: Hasher, rules: Rules, records: map<string, Record>, observed: int, n: nat)
    requires GoodRecords(hash, rules, records, observed) && n < |records|
    ensures |SortedWires(records)| == |records| && OrderedAt(SortedWires(records), n)
  {
    hide GoodRecords, SortedIDs, SortedWires, ToWire, Before;
    WireAt(hash, rules, records, observed, n);
    if n > 0 {
      WireAt(hash, rules, records, observed, n - 1);
      var ids := SortedIDs(records.Keys);
      assert Before(ids[n - 1], ids[n]);
    }
  }

  lemma {:induction false} LoadOfSortedWires(hash: Hasher, rules: Rules, records: map<string, Record>, observed: int,
                                             n: nat)
    requires GoodRecords(hash, rules, records, observed) && n <= |records|
    ensures var ids := SortedIDs(records.Keys);
      LoadRecords(hash, rules, observed, SortedWires(records), n)
      == if AllReloadable(Chosen(records, ids[..n]), observed) then Some(Chosen(records, ids[..n])) else None
  {
    hide LoadRecord, GoodRecord, Reloadable, ToWire, OrderedAt, SortedIDs, SortedWires;
    var ids, ws := SortedIDs(records.Keys), SortedWires(records);
    if n > 0 {
      var k := n - 1;
      LoadOfSortedWires(hash, rules, records, observed, k);
      OrderedWires(hash, rules, records, observed, k);
      WireAt(hash, rules, records, observed, k);
      assert GoodRecord(hash, rules, ids[k], records[ids[k]], observed);
      LoadOfToWire(hash, rules, ids[k], records[ids[k]], observed);
      ChosenStep(records, ids, k, observed);
      hide Chosen, AllReloadable;
    } else {
      assert Chosen(records, ids[..0]) == map[];
    }
  }

  lemma WireIdentity(hash: Hasher, rules: Rules, id: string, r: Record, observed: int)
    requires GoodRecord(hash, rules, id, r, observed)
    ensures ToWire(r).requestID == id == r.requestID && id != ""
    ensures RawCanonical(ToWire(r))
  {
    GoodManifest(hash, rules, id, r, observed);
  }

  lemma SnapshotIsCanonical(hash: Hasher, rules: Rules, records: map<string, Record>, generation: nat, observed: int)
    requires GoodRecords(hash, rules, records, observed) && generation < 0x1_0000_0000_0000_0000
    ensures CanonicalWire(SnapshotOf(records, generation, observed))
  {
    var ids, ws := SortedIDs(records.Keys), SortedWires(records);
    hide GoodRecord, ToWire, RawCanonical;
    forall i | 0 <= i < |ws| ensures RawCanonical(ws[i]) {
      assert ids[i] in ids;
      assert GoodRecord(hash, rules, ids[i], records[ids[i]], observed);
      WireIdentity(hash, rules, ids[i], records[ids[i]], observed);
    }
  }

  lemma DecodeVia(hash: Hasher, rules: Rules, w: SnapshotWire, observed: int)
    requires CanonicalWire(w) && w.formatVersion == 1 && w.generation > 0
    requires w.records.Some? && |w.records.value| <= rules.maxRecords && ParseTime(w.observedAt) == Some(observed)
    ensures DecodeSnapshot(hash, rules, Encode(SnapshotValue(w)))
         == match LoadRecords(hash, rules, observed, w.records.value, |w.records.value|)
            case None => None
            case Some(records) => Some(Loaded(records, w.generation, observed))
  {
    hide LoadRecords, SnapshotValue, Decode, DecodeWire, Encode, CanonicalWire, ParseTime;
    DecodeSnapshotValue(w);
  }

  /** What a commit writes is read back as the same records, generation and observed time if and
      only if every record is reloadable at that time; otherwise the loader calls it corrupt. */
  lemma ReloadExactly(hash: Hasher, rules: Rules, records: map<string, Record>, generation: nat, observed: int)
    requires GoodRecords(hash, rules, records, observed) && records != map[]
    requires 0 < generation < 0x1_0000_0000_0000_0000 && FourDigitYear(observed)
    ensures DecodeSnapshot(hash, rules, EncodeSnapshot(records, generation, observed))
         == if AllReloadable(records, observed) then Some(Loaded(records, generation, observed)) else None
  {
    hide GoodRecord, Reloadable, LoadRecords, SnapshotValue, DecodeSnapshot, Encode, CanonicalWire, FourDigitYear,
      FormatTime, ParseTime, SortedWires, SortedIDs;
    var w := SnapshotOf(records, generation, observed);
    var ids := SortedIDs(records.Keys);
    assert |records.Keys| == |records|;
    SnapshotIsCanonical(hash, rules, records, generation, observed);
    SortedWiresLength(records);
    ParseFormatTime(observed);
    DecodeVia(hash, rules, w, observed);
    LoadOfSortedWires(hash, rules, records, observed, |records|);
    assert ids[..|records|] == ids;
    AllChosen(records, ids);
  }

  lemma SortedWiresLength(records: map<string, Record>)
    ensures |SortedWires(records)| == |records|
  {
  }

  // ---- the document determines the store ---------------------------------------------------

  lemma SpellIsInjective(a: int, b: int)
    requires FourDigitYear(a) && FourDigitYear(b)
    ensures Spell(a) != "" && (Spell(a) == Spell(b) ==> a == b)
  {
    ParseFormatTime(a);
    ParseFormatTime(b);
  }

  lemma WireDetermines(hash: Hasher, rules: Rules, id: string, r: Record, t: int, other: Record, u: int)
    requires GoodRecord(hash, rules, id, r, t) && GoodRecord(hash, rules, id, other, u) && ToWire(r) == ToWire(other)
    ensures r == other
  {
    hide Manifest.Parse, DecidedShape, RawCanonical, ParseTime, FormatTime, IsDigest, Spell, FourDigitYear;
    GoodManifest(hash, rules, id, r, t);
    GoodManifest(hash, rules, id, other, u);
    SpellIsInjective(r.createdAt, other.createdAt);
    SpellIsInjective(r.expiresAt, other.expiresAt);
    if r.state.Pending? {
      assert other.decidedAt == r.decidedAt;
    } else {
      SpellIsInjective(r.decidedAt, other.decidedAt);
      SpellIsInjective(other.decidedAt, r.decidedAt);
    }
  }

  lemma SnapshotParts(a: map<string, Record>, g: nat, t: int, b: map<string, Record>, h: nat, u: int)
    requires a != map[] && b != map[] && SnapshotOf(a, g, t) == SnapshotOf(b, h, u)
    ensures SortedWires(a) == SortedWires(b) && g == h && Spell(t) == Spell(u)
  {
    hide SortedWires, Spell;
  }

  /** Two good stores with the same snapshot text are the same store. */
  lemma SnapshotDetermines(hash: Hasher, rules: Rules, a: map<string, Record>, g: nat, t: int, b: map<string, Record>,
                           h: nat, u: int)
    requires GoodRecords(hash, rules, a, t) && GoodRecords(hash, rules, b, u) && a != map[] && b != map[]
    requires g < 0x1_0000_0000_0000_0000 && h < 0x1_0000_0000_0000_0000 && FourDigitYear(t) && FourDigitYear(u)
    requires EncodeSnapshot(a, g, t) == EncodeSnapshot(b, h, u)
    ensures a == b && g == h && t == u
  {
    hide GoodRecords, SnapshotOf, SnapshotValue, Decode, DecodeWire, Encode, CanonicalWire, FourDigitYear, Spell;
    SnapshotIsCanonical(hash, rules, a, g, t);
    SnapshotIsCanonical(hash, rules, b, h, u);
    DecodeSnapshotValue(SnapshotOf(a, g, t));
    DecodeSnapshotValue(SnapshotOf(b, h, u));
    SnapshotParts(a, g, t, b, h, u);
    SpellIsInjective(t, u);
    SameWires(hash, rules, a, t, b, u);
    SameWires(hash, rules, b, u, a, t);
    assert a.Keys == b.Keys;
  }

  lemma SameWires(hash: Hasher, rules: Rules, a: map<string, Record>, t: int, b: map<string, Record>, u: int)
    requires GoodRecords(hash, rules, a, t) && GoodRecords(hash, rules, b, u) && SortedWires(a) == SortedWires(b)
    ensures forall id :: id in a ==> id in b && a[id] == b[id]
  {
    hide GoodRecord, ToWire, SortedWires, SortedIDs;
    SortedWiresLength(a);
    SortedWiresLength(b);
    var ids := SortedIDs(a.Keys);
    forall id | id in a ensures id in b && a[id] == b[id] {
      assert id in ids;
      var i :| 0 <= i < |ids| && ids[i] == id;
      WireAt(hash, rules, a, t, i);
      WireAt(hash, rules, b, u, i);
      assert SortedIDs(b.Keys)[i] == id;
      assert GoodRecord(hash, rules, id, a[id], t) && GoodRecord(hash, rules, id, b[id], u);
      WireDetermines(hash, rules, id, a[id], t, b[id], u);
    }
  }

  // ---- how much a record needs beside its manifest --------------------------------------------------------

  lemma PlainToken(v: string, limit: nat)
    requires Manifest.ValidToken(v, limit)
    ensures Plain(v)
  {
  }

  lemma PlainDigest(digest: string)
    requires IsDigest(digest)
    ensures Plain(digest)
  {
    var head := "sha256:";
    assert digest == head + digest[7..];
    forall i | 0 <= i < |digest| ensures ' ' <= digest[i] && digest[i] !in {'"', '\\', '<', '>', '&'} {
      if i < 7 { assert digest[i] == head[i]; } else { assert digest[i] == digest[7..][i - 7]; }
    }
  }

  lemma PlainDigits(s: string)
    requires AllDigits(s)
    ensures Plain(s)
  {
  }

  lemma PlainJoined(a: string, b: string)
    requires Plain(a) && Plain(b)
    ensures Plain(a + b)
  {
  }

  lemma PlainTime(t: int)
    requires FourDigitYear(t)
    ensures Plain(FormatTime(t))
  {
    hide Plain, FourDigitYear, AllDigits, FormatTime, TimeShape;
    var s := FormatTime(t);
    Slices(t);
    PlainSlices(s);
  }

  lemma PlainSlices(s: string)
    requires TimeShape(s)
    ensures Plain(s)
  {
    hide Plain, AllDigits;
    PlainSeparators();
    PlainDigits(s[0..4]);
    PlainDigits(s[5..7]);
    PlainDigits(s[8..10]);
    PlainDigits(s[11..13]);
    PlainDigits(s[14..16]);
    PlainDigits(s[17..19]);
    JoinedSlices(s);
    PlainJoined(s[0..4], "-");
    PlainJoined(s[0..4] + "-", s[5..7]);
    PlainJoined(s[0..4] + "-" + s[5..7], "-");
    PlainJoined(s[0..4] + "-" + s[5..7] + "-", s[8..10]);
    var date := s[0..4] + "-" + s[5..7] + "-" + s[8..10];
    PlainJoined(date, "T");
    PlainJoined(date + "T", s[11..13]);
    PlainJoined(date + "T" + s[11..13], ":");
    PlainJoined(date + "T" + s[11..13] + ":", s[14..16]);
    PlainJoined(date + "T" + s[11..13] + ":" + s[14..16], ":");
    PlainJoined(date + "T" + s[11..13] + ":" + s[14..16] + ":", s[17..19]);
    PlainJoined(date + "T" + s[11..13] + ":" + s[14..16] + ":" + s[17..19], "Z");
  }

  lemma PlainSeparators()
    ensures Plain("-") && Plain("T") && Plain(":") && Plain("Z")
  {
  }

  lemma PlainNames()
    ensures Plain("request_id") && Plain("manifest") && Plain("digest") && Plain("state") && Plain("created_at")
    ensures Plain("expires_at") && Plain("decided_at") && Plain("actor_id")
    ensures |"request_id"| == 10 && |"manifest"| == 8 && |"digest"| == 6 && |"state"| == 5 && |"created_at"| == 10
    ensures |"expires_at"| == 10 && |"decided_at"| == 10 && |"actor_id"| == 8
  {
  }

  lemma PlainStates(s: State)
    ensures Plain(StateName(s))
    ensures |StateName(s)| <= (if s.Cancelled? then 9 else 8) && |StateName(Approved)| == 8
  {
  }

  lemma OnePair(name: string, value: Json)
    requires Plain(name)
    ensures PairBytes([(name, value)], 1) == |name| + |Encode(value)| + 4
  {
    EscapePlain(name);
    assert PairBytes([(name, value)], 0) == 0;
  }

  lemma TextPair(name: string, text: string)
    requires Plain(name) && Plain(text)
    ensures PairBytes([(name, Str(text))], 1) == |name| + |text| + 6
  {
    OnePair(name, Str(text));
    EscapePlain(text);
  }

  lemma PairsOneByOne(w: RecordWire)
    ensures RecordPairs(w)
         == [("request_id", Str(w.requestID))] + ([("manifest", RawValue(w.manifest))] + ([("digest", Str(w.digest))]
            + ([("state", Str(StateName(w.state)))]
              + ([("created_at", Str(w.createdAt))] + ([("expires_at", Str(w.expiresAt))]
            + (DecidedPair(w) + ActorPair(w)))))))
  {
    hide RawValue, StateName;
  }

  function DecidedPair(w: RecordWire): seq<Pair> {
    if w.decidedAt == "" then [] else [("decided_at", Str(w.decidedAt))]
  }

  function ActorPair(w: RecordWire): seq<Pair> { if w.actorID == "" then [] else [("actor_id", Str(w.actorID))] }

  lemma OptionalBytes(w: RecordWire)
    requires Plain(w.decidedAt)
    ensures PairBytes(DecidedPair(w) + ActorPair(w), |DecidedPair(w) + ActorPair(w)|)
         == (if w.decidedAt == "" then 0 else |w.decidedAt| + 16)
           + (if w.actorID == "" then 0 else |Escape(w.actorID)| + 14)
  {
    hide PairBytes, Plain;
    PlainNames();
    PairBytesJoined(DecidedPair(w), ActorPair(w));
    NoPairs();
    if w.decidedAt != "" { TextPair("decided_at", w.decidedAt); }
    if w.actorID != "" { OnePair("actor_id", Str(w.actorID)); }
  }

  lemma NoPairs()
    ensures PairBytes([], 0) == 0
  {
  }

  function OptionalLength(w: RecordWire): nat {
    (if w.decidedAt == "" then 0 else |w.decidedAt| + 16) + (if w.actorID == "" then 0 else |Escape(w.actorID)| + 14)
  }

  /** The bytes of a record, exactly. */
  lemma WireLength(w: RecordWire)
    requires Plain(w.requestID) && Plain(w.digest) && Plain(w.createdAt) && Plain(w.expiresAt) && Plain(w.decidedAt)
    ensures |Encode(RecordValue(w))|
         == |Encode(RawValue(w.manifest))| + |w.requestID| + |w.digest| + |StateName(w.state)| + |w.createdAt|
           + |w.expiresAt|
            + 84 + OptionalLength(w)
  {
    hide PairBytes, Plain, Encode, RawValue, StateName, RecordPairs, DecidedPair, ActorPair, Escape;
    PlainNames();
    PlainStates(w.state);
    var last := DecidedPair(w) + ActorPair(w);
    var e := [("expires_at", Str(w.expiresAt))];
    var c := [("created_at", Str(w.createdAt))];
    var s := [("state", Str(StateName(w.state)))];
    var d := [("digest", Str(w.digest))];
    var m := [("manifest", RawValue(w.manifest))];
    var i := [("request_id", Str(w.requestID))];
    OptionalBytes(w);
    PairBytesJoined(e, last);
    PairBytesJoined(c, e + last);
    PairBytesJoined(s, c + (e + last));
    PairBytesJoined(d, s + (c + (e + last)));
    PairBytesJoined(m, d + (s + (c + (e + last))));
    PairBytesJoined(i, m + (d + (s + (c + (e + last)))));
    TextPair("expires_at", w.expiresAt);
    TextPair("created_at", w.createdAt);
    TextPair("state", StateName(w.state));
    TextPair("digest", w.digest);
    OnePair("manifest", RawValue(w.manifest));
    TextPair("request_id", w.requestID);
    PairsOneByOne(w);
    FieldsLengthExactly(RecordPairs(w));
    Manifest.ObjectLength(RecordPairs(w));
    RecordIsObject(w);
  }

  /** The greatest number of bytes any record needs beside its manifest. */
  const GREATEST_OVERHEAD := 1149

  /** What a record needs beside its manifest, exactly; never more than GREATEST_OVERHEAD. */
  lemma OverheadExactly(hash: Hasher, rules: Rules, id: string, r: Record, t: int)
    requires GoodRecord(hash, rules, id, r, t)
    ensures |Encode(RecordValue(ToWire(r)))|
         == |r.manifest| + 195 + |id| + |StateName(r.state)| + (if r.decidedAt == ZERO_TIME then 0 else 36)
            + (if r.actorID == "" then 0 else |Escape(r.actorID)| + 14)
    ensures |Encode(RecordValue(ToWire(r)))| <= |r.manifest| + GREATEST_OVERHEAD
  {
    hide Plain, Encode, RawValue, StateName, Escape, RecordValue, IsDigest, ParseTime, FormatTime, FourDigitYear,
      Manifest.Parse,
      Manifest.ValidToken;
    RecordTexts(hash, rules, id, r, t);
    WireLength(ToWire(r));
    PlainStates(r.state);
    EscapeLength(r.actorID);
  }

  lemma RecordTexts(hash: Hasher, rules: Rules, id: string, r: Record, t: int)
    requires GoodRecord(hash, rules, id, r, t)
    ensures var w := ToWire(r);
      Plain(w.requestID) && Plain(w.digest) && Plain(w.createdAt) && Plain(w.expiresAt) && Plain(w.decidedAt)
      && w.requestID == id && |id| <= 128 && |w.digest| == 71 && |w.createdAt| == 20 && |w.expiresAt| == 20
      && |w.decidedAt| == (if r.decidedAt == ZERO_TIME then 0 else 20) && w.actorID == r.actorID && |r.actorID| <= 128
      && (r.state.Cancelled? ==> r.actorID == "") && Encode(RawValue(w.manifest)) == r.manifest
  {
    hide Plain, Encode, RawValue, FourDigitYear, Spell, IsDigest, Manifest.Parse, Manifest.ValidToken;
    GoodManifest(hash, rules, id, r, t);
    ManifestText(hash, rules, id, r, t);
    PlainToken(id, 128);
    DigestText(r.digest);
    SpelledText(r.createdAt);
    SpelledText(r.expiresAt);
    PlainNothing();
    if r.decidedAt != ZERO_TIME { SpelledText(r.decidedAt); }
  }

  lemma ManifestText(hash: Hasher, rules: Rules, id: string, r: Record, t: int)
    requires GoodRecord(hash, rules, id, r, t)
    ensures Encode(RawValue(r.manifest)) == r.manifest && Manifest.ValidToken(id, 128)
  {
    hide Encode, RawValue, FourDigitYear, Manifest.Parse, Manifest.ValidToken;
    GoodManifest(hash, rules, id, r, t);
    ManifestValue(hash, r.manifest);
    Manifest.ParseAcceptsExactly(hash, r.manifest);
  }

  lemma SpelledText(t: int)
    requires FourDigitYear(t)
    ensures Plain(Spell(t)) && |Spell(t)| == 20
  {
    hide Plain, FormatTime, ParseTime, FourDigitYear;
    PlainTime(t);
    ParseFormatTime(t);
  }

  lemma DigestText(digest: string)
    requires IsDigest(digest)
    ensures Plain(digest) && |digest| == 71
  {
    hide Plain;
    PlainDigest(digest);
  }

  lemma PlainNothing()
    ensures Plain("")
  {
  }

  // ---- size ------------------------------------------------------------------------------------

  /** The loader's limit: a base plus room for every record the rules admit. */
  function SizeLimit(maxRecords: nat): nat { 4096 + maxRecords * (Manifest.MAX_ENCODING_BYTES + 1024) }

  lemma RecordIsObject(w: RecordWire)
    ensures RecordValue(w) == Obj(FromPairs(RecordPairs(w)))
  {
    hide RecordPairs, FromPairs;
  }

  lemma RecordLength(hash: Hasher, rules: Rules, id: string, r: Record, t: int)
    requires GoodRecord(hash, rules, id, r, t)
    ensures |Encode(RecordValue(ToWire(r)))| <= 23_149
  {
    hide Encode, RecordValue, ToWire, RawValue, Manifest.Parse, FourDigitYear;
    OverheadExactly(hash, rules, id, r, t);
    ManifestValue(hash, r.manifest);
  }

  lemma RecordsLength(hash: Hasher, rules: Rules, records: map<string, Record>, t: int)
    requires GoodRecords(hash, rules, records, t)
    ensures |Encode(Arr(FromSeq(RecordValues(SortedWires(records)))))| <= |records| * 23_150 + 2
  {
    hide Encode, RecordValue, GoodRecord, ToWire, SortedWires, SortedIDs, Before, StrictlySorted;
    var ws := SortedWires(records);
    SortedWiresLength(records);
    forall i | 0 <= i < |ws| ensures |Encode(RecordValues(ws)[i])| <= 23_149 {
      WireAt(hash, rules, records, t, i);
      var id := SortedIDs(records.Keys)[i];
      assert GoodRecord(hash, rules, id, records[id], t);
      RecordLength(hash, rules, id, records[id], t);
    }
    ItemsLength(RecordValues(ws), 23_149);
    ArrayLength(FromSeq(RecordValues(ws)));
  }

  lemma ArrayLength(items: Items)
    ensures |Encode(Arr(items))| == |EncodeItems(items)| + 2
  {
  }

  lemma SnapshotPairsFit(w: SnapshotWire, list: nat)
    requires w.formatVersion == 1 && w.generation < 0x1_0000_0000_0000_0000 && |w.observedAt| == 20
    requires w.records.Some? && |Encode(Arr(FromSeq(RecordValues(w.records.value))))| <= list
    ensures var ps := SnapshotPairs(w);
      |ps| == 4 && Manifest.PairFits(ps[0], 108) && Manifest.PairFits(ps[1], 84) && Manifest.PairFits(ps[2], 192)
        && Manifest.PairFits(ps[3], list + 46)
  {
    hide Encode, RecordValues, FromSeq, Decimal;
    Manifest.EpochLength(w.generation);
    Manifest.EpochLength(1);
    Manifest.AnyText(w.observedAt, 20);
    var names := SnapshotNames();
    assert |names[0]| == 14 && |names[1]| == 10 && |names[2]| == 11 && |names[3]| == 7;
  }

  lemma SnapshotTotal(list: nat, bounds: seq<nat>)
    requires bounds == [108, 84, 192, list + 46]
    ensures Manifest.Total(bounds, 4) == list + 430
  {
    assert Manifest.Total(bounds, 1) == 108;
    assert Manifest.Total(bounds, 2) == 192;
  }

  lemma SnapshotValueLength(w: SnapshotWire, list: nat)
    requires w.formatVersion == 1 && w.generation < 0x1_0000_0000_0000_0000 && |w.observedAt| == 20
    requires w.records.Some? && |Encode(Arr(FromSeq(RecordValues(w.records.value))))| <= list
    ensures 0 < |Encode(Obj(FromPairs(SnapshotPairs(w))))| <= list + 432
  {
    hide *;
    var ps, bounds := SnapshotPairs(w), [108, 84, 192, list + 46];
    SnapshotPairsFit(w, list);
    SnapshotTotal(list, bounds);
    Manifest.PairsFit(ps, bounds, 4);
    FieldsLength(ps);
    Manifest.ObjectLength(ps);
  }

  lemma RoomForRecords(n: nat, max: nat)
    requires n <= max
    ensures n * 23_150 + 434 <= SizeLimit(max)
  {
    assert Manifest.MAX_ENCODING_BYTES + 1024 == 33_792;
  }

  /** Every committed snapshot is within the size the loader accepts. The limit sets aside 1024 bytes
      beside a manifest of the greatest size; a record can need GREATEST_OVERHEAD, but manifests stay
      far enough below their own limit. */
  lemma SnapshotFits(hash: Hasher, rules: Rules, records: map<string, Record>, generation: nat, t: int)
    requires GoodRecords(hash, rules, records, t) && records != map[] && generation < 0x1_0000_0000_0000_0000
      && FourDigitYear(t)
    ensures 0 < |EncodeSnapshot(records, generation, t)| <= SizeLimit(rules.maxRecords)
  {
    hide Encode, GoodRecord, SortedWires, FormatTime, FourDigitYear, RecordValues, FromSeq, SnapshotPairs;
    RecordsLength(hash, rules, records, t);
    ParseFormatTime(t);
    SnapshotValueLength(SnapshotOf(records, generation, t), |records| * 23_150 + 2);
    RoomForRecords(|records|, rules.maxRecords);
  }
}
