/** The capability registry: issue, consume, revoke and advance the revocation epoch. */
module Capability {
  import opened Text
  import Base64
  import Manifest

  type Hasher = Manifest.Hasher

  datatype Provider = GitHub | OpenAI | OtherProvider(name: string)

  datatype Operation = Unstated | RestRead | GitRead | ResponsesText | OtherOperation(name: string)

  datatype Host = ApiGitHub | PlainGitHub | ApiOpenAI | OtherHost(name: string)

  datatype Subject = Subject(agentInstanceID: string, uid: int, workspaceID: string)

  datatype Scope = Scope(subject: Subject, provider: Provider, repository: string, operation: Operation, host: Host)

  /** Durations and instants in nanoseconds. */
  datatype Rules = Rules(policyVersion: string, maxTTL: int, maxUses: int)

  datatype Spec = Spec(
    subject: Subject, provider: Provider, repository: string, operation: Operation, ttl: int, uses: int)

  datatype Reading = Reading(wall: int, elapsed: int)

  datatype Entry = Entry(
    scope: Scope, issuedWall: int, expiresWall: int, issuedElapsed: int, deadline: int,
    remaining: int, policyVersion: string, epoch: nat)

  datatype Grant = Grant(
    scope: Scope, issuedWall: int, expiresWall: int, remaining: int, policyVersion: string, epoch: nat)

  /** Entries are keyed by the digest of their handle. */
  datatype Registry = Registry(entries: map<Bytes32, Entry>, epoch: nat)

  const TRIES := 5

  // ---- input checks -----------------------------------------------------------------------------

  predicate ValidIdentifier(v: string, max: nat) {
    0 < |v| <= max && AlphaNumeric(v[0]) && forall i :: 1 <= i < |v| ==> AlphaNumeric(v[i]) || v[i] in {'.', '_', '-'}
  }

  predicate ValidSpec(rules: Rules, s: Spec) {
    ValidIdentifier(s.subject.agentInstanceID, 128) && s.subject.uid > 0 && ValidIdentifier(s.subject.workspaceID, 128)
    && 0 < s.ttl <= rules.maxTTL && 0 < s.uses <= rules.maxUses
    && match s.provider
       case GitHub =>
         RepositoryName(s.repository) && (s.operation.Unstated? || s.operation.RestRead? || s.operation.GitRead?)
       case OpenAI => s.repository == "" && (s.operation.Unstated? || s.operation.ResponsesText?)
       case OtherProvider(_) => false
  }

  /** The destination is always derived, never given. */
  function MakeScope(s: Spec): Scope {
    match s.provider
    case GitHub =>
      if s.operation.GitRead? then
        Scope(s.subject, GitHub, s.repository, GitRead, PlainGitHub)
      else Scope(s.subject, GitHub, s.repository, RestRead, ApiGitHub)
    case _ => Scope(s.subject, s.provider, s.repository, ResponsesText, ApiOpenAI)
  }

  // ---- operations ----------------------------------------------------------------------------------

  function DigestForHandle(hash: Hasher, handle: string): Option<Bytes32> {
    if Base64.SlicedHandleCheck(handle) then Some(hash.sum(handle)) else None
  }

  /** The first handle whose digest is not taken; None when the random source fails or every try collides. */
  function FreshHandle(hash: Hasher, entries: map<Bytes32, Entry>, draws: seq<Option<Bytes32>>,
                       tries: nat): Option<string> {
    if tries == 0 || draws == [] || draws[0].None? then None
    else
      var handle := Base64.HandleOf(draws[0].value);
      if hash.sum(handle) in entries then FreshHandle(hash, entries, draws[1..], tries - 1) else Some(handle)
  }

  function NewEntry(rules: Rules, r: Registry, s: Spec, now: Reading): Entry {
    Entry(MakeScope(s), now.wall, now.wall + s.ttl, now.elapsed, now.elapsed + s.ttl, s.uses, rules.policyVersion,
      r.epoch)
  }

  function Issue(hash: Hasher, rules: Rules, r: Registry, s: Spec, now: Reading,
                 draws: seq<Option<Bytes32>>): (Registry, Option<string>) {
    if !ValidSpec(rules, s) then (r, None)
    else match FreshHandle(hash, r.entries, draws, TRIES)
         case None => (r, None)
         case Some(handle) => (r.(entries := r.entries[hash.sum(handle) := NewEntry(rules, r, s, now)]), Some(handle))
  }

  predicate Expired(e: Entry, now: Reading) { now.elapsed >= e.deadline || now.wall >= e.expiresWall }

  /** An entry that can never be consumed again is dropped when it is met. */
  predicate Dead(rules: Rules, r: Registry, e: Entry, now: Reading) {
    e.epoch != r.epoch || e.policyVersion != rules.policyVersion || Expired(e, now) || e.remaining <= 0
  }

  function GrantOf(e: Entry): Grant {
    Grant(e.scope, e.issuedWall, e.expiresWall, e.remaining - 1, e.policyVersion, e.epoch)
  }

  function Consume(hash: Hasher, rules: Rules, r: Registry, handle: string, scope: Scope,
                   now: Reading): (Registry, Option<Grant>) {
    match DigestForHandle(hash, handle)
    case None => (r, None)
    case Some(d) =>
      if d !in r.entries then (r, None)
      else
        var e := r.entries[d];
        if Dead(rules, r, e, now) then (r.(entries := r.entries - {d}), None)
        else if e.scope != scope || now.elapsed < e.issuedElapsed then (r, None)
        else (r.(entries := if e.remaining == 1 then r.entries - {d}
          else r.entries[d := e.(remaining := e.remaining - 1)]), Some(GrantOf(e)))
  }

  function Revoke(hash: Hasher, r: Registry, handle: string): (Registry, bool) {
    match DigestForHandle(hash, handle)
    case None => (r, false)
    case Some(d) => if d in r.entries then (r.(entries := r.entries - {d}), true) else (r, false)
  }

  function RevokeForSubject(hash: Hasher, rules: Rules, r: Registry, handle: string, subject: Subject,
                            now: Reading): (Registry, bool) {
    if !ValidIdentifier(subject.agentInstanceID, 128) || subject.uid <= 0
       || !ValidIdentifier(subject.workspaceID, 128) then
      (r, false)
    else match DigestForHandle(hash, handle)
         case None => (r, false)
         case Some(d) =>
           if d !in r.entries then (r, false)
           else
             var e := r.entries[d];
             if e.epoch != r.epoch || e.policyVersion != rules.policyVersion || now.elapsed < e.issuedElapsed
               || Expired(e, now) then
               (r.(entries := r.entries - {d}), false)
             else if e.scope.subject != subject then (r, false)
             else (r.(entries := r.entries - {d}), true)
  }

  function Advance(r: Registry, epoch: nat): (Registry, bool) {
    if epoch <= r.epoch then (r, false) else (Registry(map[], epoch), true)
  }

  datatype Event =
    | IssueOne(s: Spec, now: Reading, draws: seq<Option<Bytes32>>)
    | ConsumeOne(handle: string, scope: Scope, now: Reading)
    | RevokeOne(handle: string)
    | RevokeMine(handle: string, subject: Subject, now: Reading)
    | AdvanceTo(epoch: nat)

  /** What one call does to the registry. */
  function Act(hash: Hasher, rules: Rules, r: Registry, e: Event): Registry {
    match e
    case IssueOne(spec, now, draws) => Issue(hash, rules, r, spec, now, draws).0
    case ConsumeOne(handle, scope, now) => Consume(hash, rules, r, handle, scope, now).0
    case RevokeOne(handle) => Revoke(hash, r, handle).0
    case RevokeMine(handle, subject, now) => RevokeForSubject(hash, rules, r, handle, subject, now).0
    case AdvanceTo(epoch) => Advance(r, epoch).0
  }

  function ActAll(hash: Hasher, rules: Rules, r: Registry, events: seq<Event>): Registry
    decreases |events|
  {
    if events == [] then r else ActAll(hash, rules, Act(hash, rules, r, events[0]), events[1..])
  }

  function FirstOf(others: seq<seq<Event>>): seq<Event> { if others == [] then [] else others[0] }

  function RestOf(others: seq<seq<Event>>): seq<seq<Event>> { if others == [] then [] else others[1..] }

  /** Issue holds the lock for one try at a time: before the k-th try the k-th list of other calls may
      have been served. The clock was read before the first. */
  function IssueAmong(hash: Hasher, rules: Rules, r: Registry, s: Spec, now: Reading,
                      draws: seq<Option<Bytes32>>, others: seq<seq<Event>>, tries: nat): (Registry, Option<string>)
    decreases tries
  {
    if tries == 0 || draws == [] || draws[0].None? then (r, None)
    else
      var r1 := ActAll(hash, rules, r, FirstOf(others));
      var handle := Base64.HandleOf(draws[0].value);
      if hash.sum(handle) in r1.entries then IssueAmong(hash, rules, r1, s, now, draws[1..], RestOf(others), tries - 1)
      else (r1.(entries := r1.entries[hash.sum(handle) := NewEntry(rules, r1, s, now)]), Some(handle))
  }

  // ---- what an issue promises ---------------------------------------------------------------------------

  /** The entry of a capability in the terms of its specification: as many uses, from this reading on and for
      as long as asked, and the one destination of its provider and operation. */
  predicate AsSpecified(rules: Rules, epoch: nat, s: Spec, now: Reading, e: Entry) {
    e.remaining == s.uses && e.issuedWall == now.wall && e.expiresWall == now.wall + s.ttl
    && e.issuedElapsed == now.elapsed && e.deadline == now.elapsed + s.ttl
    && e.policyVersion == rules.policyVersion && e.epoch == epoch
    && e.scope.subject == s.subject && e.scope.provider == s.provider && e.scope.repository == s.repository
    && (s.provider == GitHub && s.operation == GitRead ==> e.scope.operation == GitRead && e.scope.host == PlainGitHub)
    && (s.provider == GitHub && s.operation != GitRead ==> e.scope.operation == RestRead && e.scope.host == ApiGitHub)
    && (s.provider == OpenAI ==> e.scope.operation == ResponsesText && e.scope.host == ApiOpenAI)
  }

  predicate LetterOrDigit(c: char) { '0' <= c <= '9' || 'A' <= c <= 'Z' || 'a' <= c <= 'z' }

  /** One to 128 letters, digits, dots, hyphens and underscores, the first a letter or a digit. */
  predicate Identifies(v: string) {
    1 <= |v| <= 128 && LetterOrDigit(v[0])
    && forall i :: 0 <= i < |v| ==> LetterOrDigit(v[i]) || v[i] == '.' || v[i] == '-' || v[i] == '_'
  }

  /** What a capability may be asked for. */
  predicate Specifiable(rules: Rules, s: Spec) {
    Identifies(s.subject.agentInstanceID) && Identifies(s.subject.workspaceID) && 1 <= s.subject.uid
    && 1 <= s.ttl <= rules.maxTTL && 1 <= s.uses <= rules.maxUses
    && ((s.provider == GitHub && RepositoryName(s.repository) && s.operation in {Unstated, RestRead, GitRead})
        || (s.provider == OpenAI && s.repository == "" && s.operation in {Unstated, ResponsesText}))
  }

  lemma SpecifiedExactly(rules: Rules, s: Spec)
    ensures ValidSpec(rules, s) <==> Specifiable(rules, s)
  {
    hide RepositoryName, ValidIdentifier, Identifies;
    IdentifiedExactly(s.subject.agentInstanceID);
    IdentifiedExactly(s.subject.workspaceID);
  }

  lemma IdentifiedExactly(v: string)
    ensures ValidIdentifier(v, 128) <==> Identifies(v)
  {
  }

  lemma EntryAsSpecified(rules: Rules, r: Registry, s: Spec, now: Reading)
    requires ValidSpec(rules, s)
    ensures AsSpecified(rules, r.epoch, s, now, NewEntry(rules, r, s, now))
  {
    hide ValidIdentifier, RepositoryName;
  }

  /** Draw k is the first whose handle is not in use, and no draw up to it failed. */
  predicate FirstFree(hash: Hasher, entries: map<Bytes32, Entry>, draws: seq<Option<Bytes32>>, k: nat) {
    k < |draws| && (forall j :: 0 <= j <= k ==> draws[j].Some?)
    && (forall j :: 0 <= j < k ==> hash.sum(Base64.HandleOf(draws[j].value)) in entries)
    && hash.sum(Base64.HandleOf(draws[k].value)) !in entries
  }

  lemma {:induction false} FreshExactly(hash: Hasher, entries: map<Bytes32, Entry>, draws: seq<Option<Bytes32>>,
                                        tries: nat)
    returns (k: nat)
    ensures var h := FreshHandle(hash, entries, draws, tries);
      (h.Some? ==> k < tries && FirstFree(hash, entries, draws, k) && h.value == Base64.HandleOf(draws[k].value))
      && ((exists i :: 0 <= i < tries && FirstFree(hash, entries, draws, i)) ==> h.Some?)
    decreases tries
  {
    hide Base64.HandleOf;
    k := 0;
    if tries > 0 && draws != [] && draws[0].Some? && hash.sum(Base64.HandleOf(draws[0].value)) in entries {
      var i := FreshExactly(hash, entries, draws[1..], tries - 1);
      k := i + 1;
      FirstFreeBefore(hash, entries, draws, i);
      forall j | 0 < j < tries && FirstFree(hash, entries, draws, j)
        ensures FirstFree(hash, entries, draws[1..], j - 1)
      {
        FirstFreeBefore(hash, entries, draws, j - 1);
      }
    }
  }

  lemma FirstFreeBefore(hash: Hasher, entries: map<Bytes32, Entry>, draws: seq<Option<Bytes32>>, k: nat)
    requires draws != [] && draws[0].Some? && hash.sum(Base64.HandleOf(draws[0].value)) in entries
    ensures FirstFree(hash, entries, draws[1..], k) <==> FirstFree(hash, entries, draws, k + 1)
  {
    hide Base64.HandleOf;
    if FirstFree(hash, entries, draws[1..], k) {
      forall j | 0 <= j <= k + 1 ensures draws[j].Some? { if j > 0 { assert draws[1..][j - 1] == draws[j]; } }
      forall j | 0 <= j < k + 1 ensures hash.sum(Base64.HandleOf(draws[j].value)) in entries {
        if j > 0 { assert draws[1..][j - 1] == draws[j]; }
      }
    }
    if FirstFree(hash, entries, draws, k + 1) {
      forall j | 0 <= j <= k ensures draws[1..][j].Some? { assert draws[1..][j] == draws[j + 1]; }
    }
  }

  /** A handle is issued if and only if the specification is valid and one of five draws is fresh; it is that
      draw's handle, and the registry gains just its entry, as specified. */
  lemma IssuedExactly(hash: Hasher, rules: Rules, r: Registry, s: Spec, now: Reading, draws: seq<Option<Bytes32>>)
    ensures var (r', h) := Issue(hash, rules, r, s, now, draws);
      (h.Some? <==> Specifiable(rules, s) && exists k :: 0 <= k < 5 && FirstFree(hash, r.entries, draws, k))
      && (h.Some? ==>
            (exists k :: 0 <= k < 5 && FirstFree(hash, r.entries, draws, k)
                            && h.value == Base64.HandleOf(draws[k].value))
            && var d := hash.sum(h.value);
               d !in r.entries && r'.epoch == r.epoch && r'.entries.Keys == r.entries.Keys + {d}
               && AsSpecified(rules, r.epoch, s, now, r'.entries[d])
               && forall x :: x in r.entries ==> r'.entries[x] == r.entries[x])
      && (h.None? ==> r' == r)
  {
    hide ValidSpec, Specifiable, FreshHandle, Base64.HandleOf, FirstFree, NewEntry, AsSpecified;
    SpecifiedExactly(rules, s);
    var k := FreshExactly(hash, r.entries, draws, TRIES);
    if ValidSpec(rules, s) { EntryAsSpecified(rules, r, s, now); }
    FreshIsFree(hash, r.entries, draws, TRIES);
  }

  /** Among the calls of others too: the entry is in the registry they left, as specified, in its epoch. */
  lemma {:induction false} IssuedAmong(hash: Hasher, rules: Rules, r: Registry, s: Spec, now: Reading,
                                       draws: seq<Option<Bytes32>>, others: seq<seq<Event>>, tries: nat)
    requires ValidSpec(rules, s)
    ensures var (r', h) := IssueAmong(hash, rules, r, s, now, draws, others, tries);
      h.Some? ==> hash.sum(h.value) in r'.entries
                  && AsSpecified(rules, r'.epoch, s, now, r'.entries[hash.sum(h.value)])
                  && exists k :: 0 <= k < |draws| && draws[k].Some? && h.value == Base64.HandleOf(draws[k].value)
    decreases tries
  {
    hide ValidSpec, Base64.HandleOf, ActAll, NewEntry, AsSpecified;
    if tries > 0 && draws != [] && draws[0].Some? {
      var r1 := ActAll(hash, rules, r, FirstOf(others));
      if hash.sum(Base64.HandleOf(draws[0].value)) in r1.entries {
        IssuedAmong(hash, rules, r1, s, now, draws[1..], RestOf(others), tries - 1);
        var h := IssueAmong(hash, rules, r1, s, now, draws[1..], RestOf(others), tries - 1).1;
        if h.Some? {
          var k :| 0 <= k < |draws[1..]| && draws[1..][k].Some? && h.value == Base64.HandleOf(draws[1..][k].value);
          assert draws[k + 1] == draws[1..][k];
        }
      } else {
        EntryAsSpecified(rules, r1, s, now);
      }
    }
  }

  // ---- the registry as a class -----------------------------------------------------------------------

  class CapabilityRegistry {
    const hash: Hasher
    const rules: Rules
    var entries: map<Bytes32, Entry>
    var epoch: nat

    function Value(): Registry
      reads this
    {
      Registry(entries, epoch)
    }

    constructor (hash: Hasher, rules: Rules, epoch: nat)
      ensures Value() == Registry(map[], epoch) && this.hash == hash && this.rules == rules
    {
      this.hash, this.rules, entries, this.epoch := hash, rules, map[], epoch;
    }

    /** The tries of Issue, with the calls of others that were served before each. */
    method IssueHandle(s: Spec, now: Reading, draws: seq<Option<Bytes32>>, others: seq<seq<Event>>)
      returns (r: Option<string>)
      modifies this
      ensures (Value(), r)
           == if ValidSpec(rules, s) then IssueAmong(hash, rules, old(Value()), s, now, draws, others, TRIES)
              else (old(Value()), None)
      ensures r.Some? ==>
        hash.sum(r.value) in entries && AsSpecified(rules, epoch, s, now, entries[hash.sum(r.value)])
    {
      hide ValidSpec, Base64.HandleOf, ActAll, AsSpecified;
      if !ValidSpec(rules, s) { return None; }
      IssuedAmong(hash, rules, Value(), s, now, draws, others, TRIES);
      var scope := MakeScope(s);
      var waiting := others;
      for attempt := 0 to TRIES
        invariant attempt <= |draws|
        invariant IssueAmong(hash, rules, old(Value()), s, now, draws, others, TRIES)
               == IssueAmong(hash, rules, Value(), s, now, draws[attempt..], waiting, TRIES - attempt)
      {
        if attempt == |draws| || draws[attempt].None? { return None; }
        var handle := Base64.HandleOf(draws[attempt].value);
        assert draws[attempt..][1..] == draws[attempt + 1..];
        Serve(FirstOf(waiting));
        waiting := RestOf(waiting);
        if hash.sum(handle) in entries { continue; }
        entries := entries[hash.sum(handle) := Entry(scope, now.wall, now.wall + s.ttl, now.elapsed,
                                                     now.elapsed + s.ttl,
                                                     s.uses, rules.policyVersion, epoch)];
        return Some(handle);
      }
      r := None;
    }

    /** Calls of others, one after the other. */
    method Serve(events: seq<Event>)
      modifies this
      ensures Value() == ActAll(hash, rules, old(Value()), events)
    {
      hide Act;
      for i := 0 to |events|
        invariant ActAll(hash, rules, old(Value()), events) == ActAll(hash, rules, Value(), events[i..])
      {
        assert events[i..][1..] == events[i + 1..];
        var after := Act(hash, rules, Value(), events[i]);
        entries, epoch := after.entries, after.epoch;
      }
    }

    method ConsumeHandle(handle: string, scope: Scope, now: Reading) returns (r: Option<Grant>)
      modifies this`entries
      ensures (Value(), r) == Consume(hash, rules, old(Value()), handle, scope, now)
    {
      hide DigestForHandle;
      var digest := DigestForHandle(hash, handle);
      if digest.None? { return None; }
      if digest.value !in entries { return None; }
      var e := entries[digest.value];
      var expired := now.elapsed >= e.deadline || now.wall >= e.expiresWall;
      if e.epoch != epoch || e.policyVersion != rules.policyVersion || e.scope != scope || now.elapsed < e.issuedElapsed
        || expired || e.remaining <= 0 {
        if e.epoch != epoch || e.policyVersion != rules.policyVersion || expired || e.remaining <= 0 {
          entries := entries - {digest.value};
        }
        return None;
      }
      e := e.(remaining := e.remaining - 1);
      r := Some(Grant(e.scope, e.issuedWall, e.expiresWall, e.remaining, e.policyVersion, e.epoch));
      if e.remaining == 0 { entries := entries - {digest.value}; } else { entries := entries[digest.value := e]; }
    }

    method RevokeHandle(handle: string) returns (ok: bool)
      modifies this`entries
      ensures (Value(), ok) == Revoke(hash, old(Value()), handle)
    {
      hide DigestForHandle;
      var digest := DigestForHandle(hash, handle);
      if digest.None? { return false; }
      if digest.value !in entries { return false; }
      entries := entries - {digest.value};
      ok := true;
    }

    method RevokeHandleForSubject(handle: string, subject: Subject, now: Reading) returns (ok: bool)
      modifies this`entries
      ensures (Value(), ok) == RevokeForSubject(hash, rules, old(Value()), handle, subject, now)
    {
      hide DigestForHandle, ValidIdentifier;
      if !ValidIdentifier(subject.agentInstanceID, 128) || subject.uid <= 0
        || !ValidIdentifier(subject.workspaceID, 128) {
        return false;
      }
      var digest := DigestForHandle(hash, handle);
      if digest.None? { return false; }
      if digest.value !in entries { return false; }
      var e := entries[digest.value];
      if e.epoch != epoch || e.policyVersion != rules.policyVersion || now.elapsed < e.issuedElapsed
        || Expired(e, now) {
        entries := entries - {digest.value};
        return false;
      }
      if e.scope.subject != subject { return false; }
      entries := entries - {digest.value};
      ok := true;
    }

    method AdvanceRevocationEpoch(next: nat) returns (ok: bool)
      modifies this
      ensures (Value(), ok) == Advance(old(Value()), next)
    {
      if next <= epoch { return false; }
      epoch, entries := next, map[];
      ok := true;
    }
  }

  // ---- every run --------------------------------------------------------------------------------------

  /** One issuance and the entry it started with. */
  datatype Issuance = Issuance(digest: Bytes32, entry: Entry)

  datatype Spent = Spent(serial: nat, grant: Grant, at: Reading)

  /** The registry and its history: which issuance each live entry comes from, and every grant. */
  datatype System = System(r: Registry, serials: map<Bytes32, nat>, issued: seq<Issuance>, grants: seq<Spent>)

  function KeptSerials(serials: map<Bytes32, nat>, entries: map<Bytes32, Entry>): map<Bytes32, nat> {
    map d | d in serials && d in entries :: serials[d]
  }

  function Step(hash: Hasher, rules: Rules, s: System, e: Event): System {
    match e
    case IssueOne(spec, now, draws) =>
      var (r, handle) := Issue(hash, rules, s.r, spec, now, draws);
      if handle.None? then s
      else
        var d := hash.sum(handle.value);
        System(r, s.serials[d := |s.issued|], s.issued + [Issuance(d, NewEntry(rules, s.r, spec, now))], s.grants)
    case ConsumeOne(handle, scope, now) =>
      var (r, grant) := Consume(hash, rules, s.r, handle, scope, now);
      var d := hash.sum(handle);
      System(r, KeptSerials(s.serials, r.entries), s.issued,
             if grant.Some? && d in s.serials then s.grants + [Spent(s.serials[d], grant.value, now)] else s.grants)
    case RevokeOne(handle) =>
      var r := Revoke(hash, s.r, handle).0; s.(r := r, serials := KeptSerials(s.serials, r.entries))
    case RevokeMine(handle, subject, now) =>
      var r := RevokeForSubject(hash, rules, s.r, handle, subject, now).0;
      s.(r := r, serials := KeptSerials(s.serials, r.entries))
    case AdvanceTo(epoch) => var r := Advance(s.r, epoch).0; s.(r := r, serials := KeptSerials(s.serials, r.entries))
  }

  /** How many grants an issuance has had. */
  function Uses(grants: seq<Spent>, serial: nat): nat {
    if grants == [] then
      0
    else Uses(grants[..|grants| - 1], serial) + (if grants[|grants| - 1].serial == serial then 1 else 0)
  }

  /** A live entry is its issuance with as many uses fewer as were granted. */
  predicate LiveKept(s: System) {
    s.serials.Keys == s.r.entries.Keys
    && forall d :: d in s.serials ==>
         s.serials[d] < |s.issued| && s.issued[s.serials[d]].digest == d
         && Uses(s.grants, s.serials[d]) + s.r.entries[d].remaining == s.issued[s.serials[d]].entry.remaining
         && s.r.entries[d] == s.issued[s.serials[d]].entry.(remaining := s.r.entries[d].remaining)
         && s.r.entries[d].remaining > 0
         && s.r.entries[d].epoch == s.r.epoch
  }

  /** The k-th grant of an issuance leaves k uses fewer than it had; it was given for its scope, not
      before it was issued and before its deadline on both clocks. */
  predicate GrantFits(issued: seq<Issuance>, grants: seq<Spent>, k: nat)
    requires k < |grants|
  {
    var g := grants[k];
    g.serial < |issued| && g.grant.remaining + Uses(grants[..k + 1], g.serial) == issued[g.serial].entry.remaining
      && g.grant.remaining >= 0
    && g.grant.scope == issued[g.serial].entry.scope
    && issued[g.serial].entry.issuedElapsed <= g.at.elapsed < issued[g.serial].entry.deadline
    && g.at.wall < issued[g.serial].entry.expiresWall
    && g.grant.issuedWall == issued[g.serial].entry.issuedWall
    && g.grant.expiresWall == issued[g.serial].entry.expiresWall
    && g.grant.policyVersion == issued[g.serial].entry.policyVersion
    && g.grant.epoch == issued[g.serial].entry.epoch
  }

  predicate Kept(s: System) {
    LiveKept(s) && (forall k :: 0 <= k < |s.grants| ==> GrantFits(s.issued, s.grants, k))
    && forall i :: 0 <= i < |s.issued| ==> Uses(s.grants, i) <= s.issued[i].entry.remaining
  }

  predicate Alive(s: System, serial: nat) {
    serial < |s.issued| && s.issued[serial].digest in s.serials && s.serials[s.issued[serial].digest] == serial
  }

  lemma UsesGrow(grants: seq<Spent>, g: Spent, serial: nat)
    ensures Uses(grants + [g], serial) == Uses(grants, serial) + (if g.serial == serial then 1 else 0)
  {
    assert (grants + [g])[..|grants|] == grants;
  }

  lemma {:induction false} UsesOfNone(grants: seq<Spent>, serial: nat)
    requires forall k :: 0 <= k < |grants| ==> grants[k].serial != serial
    ensures Uses(grants, serial) == 0
  {
    if grants != [] { UsesOfNone(grants[..|grants| - 1], serial); }
  }

  lemma FreshIsFree(hash: Hasher, entries: map<Bytes32, Entry>, draws: seq<Option<Bytes32>>, tries: nat)
    ensures var h := FreshHandle(hash, entries, draws, tries); h.Some? ==> hash.sum(h.value) !in entries
  {
    hide Base64.HandleOf;
    if tries > 0 && draws != [] { FreshIsFree(hash, entries, draws[1..], tries - 1); }
  }

  lemma FitsWithMore(issued: seq<Issuance>, grants: seq<Spent>, more: seq<Issuance>, k: nat)
    requires k < |grants| && GrantFits(issued, grants, k) && issued <= more
    ensures GrantFits(more, grants, k)
  {
  }

  lemma OfAnIssuance(issued: seq<Issuance>, grants: seq<Spent>, k: nat)
    requires k < |grants| && GrantFits(issued, grants, k)
    ensures grants[k].serial < |issued|
  {
  }

  /** The system with one more issuance, live under digest `d`. */
  function Issued(s: System, d: Bytes32, e: Entry): System {
    System(s.r.(entries := s.r.entries[d := e]), s.serials[d := |s.issued|], s.issued + [Issuance(d, e)], s.grants)
  }

  lemma NoneGrantedYet(s: System)
    requires Kept(s)
    ensures Uses(s.grants, |s.issued|) == 0
  {
    forall k | 0 <= k < |s.grants| ensures s.grants[k].serial != |s.issued| { OfAnIssuance(s.issued, s.grants, k); }
    UsesOfNone(s.grants, |s.issued|);
  }

  lemma IssuedKept(s: System, d: Bytes32, e: Entry)
    requires Kept(s) && d !in s.r.entries && e.remaining > 0 && e.epoch == s.r.epoch
    ensures Kept(Issued(s, d, e))
  {
    NoneGrantedYet(s);
    hide GrantFits;
    var t := Issued(s, d, e);
    forall k | 0 <= k < |t.grants| ensures GrantFits(t.issued, t.grants, k) {
      FitsWithMore(s.issued, s.grants, t.issued, k);
    }
  }

  lemma IssueKeeps(hash: Hasher, rules: Rules, s: System, spec: Spec, now: Reading, draws: seq<Option<Bytes32>>)
    requires Kept(s)
    ensures Kept(Step(hash, rules, s, IssueOne(spec, now, draws)))
  {
    hide ValidIdentifier, RepositoryName, Base64.HandleOf, FreshHandle, MakeScope, Kept;
    FreshIsFree(hash, s.r.entries, draws, TRIES);
    var handle := Issue(hash, rules, s.r, spec, now, draws).1;
    if handle.Some? { IssuedKept(s, hash.sum(handle.value), NewEntry(rules, s.r, spec, now)); }
  }

  lemma RemovalKeeps(s: System, r: Registry)
    requires Kept(s) && (r.epoch == s.r.epoch || r.entries == map[])
    requires r.entries.Keys <= s.r.entries.Keys && forall d :: d in r.entries ==> r.entries[d] == s.r.entries[d]
    ensures Kept(s.(r := r, serials := KeptSerials(s.serials, r.entries)))
  {
    hide GrantFits;
  }

  /** One successful consume: one use fewer, and the entry is gone with the last one. */
  lemma GrantKeeps(s: System, d: Bytes32, now: Reading, t: System)
    requires Kept(s) && d in s.r.entries && s.r.entries[d].issuedElapsed <= now.elapsed && !Expired(s.r.entries[d], now)
    requires var e := s.r.entries[d];
      t.r.epoch == s.r.epoch
        && t.r.entries == (if e.remaining == 1 then s.r.entries - {d}
                           else s.r.entries[d := e.(remaining := e.remaining - 1)])
      && t.serials == KeptSerials(s.serials, t.r.entries) && t.issued == s.issued
      && t.grants == s.grants + [Spent(s.serials[d], GrantOf(e), now)]
    ensures Kept(t)
  {
    hide GrantFits;
    var i, e, g := s.serials[d], s.r.entries[d], Spent(s.serials[d], GrantOf(s.r.entries[d]), now);
    forall x: nat
      ensures Uses(t.grants, x) == Uses(s.grants, x) + (if x == i then 1 else 0)
    {
      UsesGrow(s.grants, g, x);
    }
    assert LiveKept(t) by {
      forall x | x in t.serials && x != d
        ensures s.serials[x] != i
      {
        assert s.issued[s.serials[x]].digest == x && s.issued[i].digest == d;
      }
    }
    forall k | 0 <= k < |t.grants| ensures GrantFits(t.issued, t.grants, k) {
      if k < |s.grants| { FitsWithOneMore(s.issued, s.grants, g, k); } else { LastFits(s, d, now); }
    }
  }

  lemma FitsWithOneMore(issued: seq<Issuance>, grants: seq<Spent>, g: Spent, k: nat)
    requires k < |grants| && GrantFits(issued, grants, k)
    ensures GrantFits(issued, grants + [g], k)
  {
    assert (grants + [g])[..k + 1] == grants[..k + 1];
  }

  lemma LastFits(s: System, d: Bytes32, now: Reading)
    requires LiveKept(s) && d in s.r.entries && s.r.entries[d].issuedElapsed <= now.elapsed
      && !Expired(s.r.entries[d], now)
    ensures var g := Spent(s.serials[d], GrantOf(s.r.entries[d]), now);
      GrantFits(s.issued, s.grants + [g], |s.grants|)
  {
    var g := Spent(s.serials[d], GrantOf(s.r.entries[d]), now);
    UsesGrow(s.grants, g, g.serial);
    assert (s.grants + [g])[..|s.grants| + 1] == s.grants + [g];
  }

  lemma ConsumeKeeps(hash: Hasher, rules: Rules, s: System, handle: string, scope: Scope, now: Reading)
    requires Kept(s)
    ensures Kept(Step(hash, rules, s, ConsumeOne(handle, scope, now)))
  {
    hide Kept, GrantFits, Base64.SlicedHandleCheck;
    var (r, grant) := Consume(hash, rules, s.r, handle, scope, now);
    SerialsAreKeys(s);
    if grant.Some? {
      GrantKeeps(s, hash.sum(handle), now, Step(hash, rules, s, ConsumeOne(handle, scope, now)));
    } else {
      RemovalKeeps(s, r);
    }
  }

  lemma SerialsAreKeys(s: System)
    requires Kept(s)
    ensures s.serials.Keys == s.r.entries.Keys
  {
  }

  /** A live issuance is granted whenever it is presented for its own scope in its own time, and
      nothing else is ever granted. */
  lemma GrantedExactly(hash: Hasher, rules: Rules, s: System, handle: string, scope: Scope, now: Reading)
    requires Kept(s)
    ensures var d := hash.sum(handle);
      Consume(hash, rules, s.r, handle, scope, now).1
      == if !Base64.CanonicalHandle(handle) || d !in s.serials then None
         else
           var e := s.issued[s.serials[d]].entry;
           if e.scope == scope && e.policyVersion == rules.policyVersion && e.issuedElapsed <= now.elapsed < e.deadline
             && now.wall < e.expiresWall
           then Some(Grant(e.scope, e.issuedWall, e.expiresWall, e.remaining - Uses(s.grants, s.serials[d]) - 1,
                           e.policyVersion, e.epoch))
           else None
  {
    hide Uses, GrantFits, Base64.SlicedHandleCheck, Base64.CanonicalHandle;
    Base64.ChecksAgree(handle);
  }

  /** Conservation: whatever is issued, consumed, revoked or expired in whatever order, each live
      entry's remaining uses and its grants add up to the uses it was issued with, and its grants
      counted down one by one. */
  lemma StepKeeps(hash: Hasher, rules: Rules, s: System, e: Event)
    requires Kept(s)
    ensures Kept(Step(hash, rules, s, e))
  {
    hide Kept, DigestForHandle, ValidIdentifier;
    match e
    case IssueOne(spec, now, draws) => IssueKeeps(hash, rules, s, spec, now, draws);
    case ConsumeOne(handle, scope, now) => ConsumeKeeps(hash, rules, s, handle, scope, now);
    case RevokeOne(handle) => RemovalKeeps(s, Revoke(hash, s.r, handle).0);
    case RevokeMine(handle, subject, now) =>
      RemovalKeeps(s, RevokeForSubject(hash, rules, s.r, handle, subject, now).0);
    case AdvanceTo(epoch) => RemovalKeeps(s, Advance(s.r, epoch).0);
  }

  function Run(hash: Hasher, rules: Rules, s: System, events: seq<Event>): System
    decreases |events|
  {
    if events == [] then s else Run(hash, rules, Step(hash, rules, s, events[0]), events[1..])
  }

  lemma {:induction false} RunKeeps(hash: Hasher, rules: Rules, s: System, events: seq<Event>)
    requires Kept(s)
    ensures Kept(Run(hash, rules, s, events))
    decreases |events|
  {
    hide Kept, Step;
    if events != [] {
      StepKeeps(hash, rules, s, events[0]);
      RunKeeps(hash, rules, Step(hash, rules, s, events[0]), events[1..]);
    }
  }

  /** An issuance without a live entry. */
  predicate Gone(s: System, serial: nat) {
    serial < |s.issued| && forall d :: d in s.serials ==> s.serials[d] != serial
  }

  lemma GoneStays(hash: Hasher, rules: Rules, s: System, e: Event, serial: nat)
    requires Kept(s) && Gone(s, serial)
    ensures var t := Step(hash, rules, s, e); Gone(t, serial) && Uses(t.grants, serial) == Uses(s.grants, serial)
  {
    hide ValidSpec, FreshHandle, GrantFits, DigestForHandle, ValidIdentifier;
    if e.ConsumeOne? {
      var d := hash.sum(e.handle);
      if d in s.serials && Consume(hash, rules, s.r, e.handle, e.scope, e.now).1.Some? {
        UsesGrow(s.grants, Spent(s.serials[d], Consume(hash, rules, s.r, e.handle, e.scope, e.now).1.value, e.now),
          serial);
      }
    }
  }

  /** Once an issuance is gone it is never granted again, whatever happens later. */
  lemma {:induction false} GoneForEver(hash: Hasher, rules: Rules, s: System, events: seq<Event>, serial: nat)
    requires Kept(s) && Gone(s, serial)
    ensures Uses(Run(hash, rules, s, events).grants, serial) == Uses(s.grants, serial)
    decreases |events|
  {
    hide Kept, Step, Gone;
    if events != [] {
      StepKeeps(hash, rules, s, events[0]);
      GoneStays(hash, rules, s, events[0], serial);
      GoneForEver(hash, rules, Step(hash, rules, s, events[0]), events[1..], serial);
    }
  }

  lemma AliveEntry(s: System, serial: nat)
    requires Kept(s) && Alive(s, serial)
    ensures var d := s.issued[serial].digest;
      d in s.r.entries
      && s.r.entries[d] == s.issued[serial].entry.(
           remaining := s.issued[serial].entry.remaining - Uses(s.grants, serial))
  {
    hide GrantFits;
  }

  lemma DroppedIsGone(s: System, r: Registry, serial: nat)
    requires Kept(s) && Alive(s, serial) && s.issued[serial].digest !in r.entries
    ensures forall d :: d in KeptSerials(s.serials, r.entries) ==> KeptSerials(s.serials, r.entries)[d] != serial
  {
    hide GrantFits;
    forall d | d in KeptSerials(s.serials, r.entries)
      ensures s.serials[d] != serial
    {
      assert s.issued[s.serials[d]].digest == d;
    }
  }

  predicate Named(hash: Hasher, s: System, handle: string, serial: nat)
    requires serial < |s.issued|
  {
    hash.sum(handle) == s.issued[serial].digest && DigestForHandle(hash, handle).Some?
  }

  /** The events that end an issuance: its revocation, of either kind; a new epoch; its last use; and
      a consume or a well-formed subject revocation that meets it after its deadline. */
  predicate Ends(hash: Hasher, rules: Rules, s: System, e: Event, serial: nat)
    requires serial < |s.issued|
  {
    var issued := s.issued[serial].entry;
    match e
    case RevokeOne(handle) => Named(hash, s, handle, serial) && Revoke(hash, s.r, handle).1
    case RevokeMine(handle, subject, now) =>
      Named(hash, s, handle, serial)
      && (RevokeForSubject(hash, rules, s.r, handle, subject, now).1
          || (ValidIdentifier(subject.agentInstanceID, 128) && subject.uid > 0
              && ValidIdentifier(subject.workspaceID, 128) && now.elapsed >= issued.deadline))
    case ConsumeOne(handle, scope, now) =>
      Named(hash, s, handle, serial)
      && (now.elapsed >= issued.deadline
          || (Uses(s.grants, serial) + 1 == issued.remaining && Consume(hash, rules, s.r, handle, scope, now).1.Some?))
    case AdvanceTo(epoch) => epoch > s.r.epoch
    case IssueOne(_, _, _) => false
  }

  /** A successful revocation, either kind, and a consume or subject revocation met after the deadline
      make the issuance gone; a new epoch makes every one gone. */
  lemma WhatEnds(hash: Hasher, rules: Rules, s: System, e: Event, serial: nat)
    requires Kept(s) && Alive(s, serial)
    requires Ends(hash, rules, s, e, serial)
    ensures Gone(Step(hash, rules, s, e), serial)
  {
    hide ValidIdentifier, Base64.SlicedHandleCheck, Uses, Issue, GrantOf, Kept, KeptSerials;
    AliveEntry(s, serial);
    DroppedIsGone(s, Step(hash, rules, s, e).r, serial);
  }

  // ---- from the start -------------------------------------------------------------------------------------------

  /** A registry that has issued nothing. */
  function Start(epoch: nat): System { System(Registry(map[], epoch), map[], [], []) }

  lemma StartKept(epoch: nat)
    ensures Kept(Start(epoch))
  {
  }

  predicate AliveAndEnded(hash: Hasher, rules: Rules, s: System, e: Event, serial: nat) {
    Alive(s, serial) && Ends(hash, rules, s, e, serial)
  }

  lemma {:induction false} RunJoined(hash: Hasher, rules: Rules, s: System, a: seq<Event>, b: seq<Event>)
    ensures Run(hash, rules, s, a + b) == Run(hash, rules, Run(hash, rules, s, a), b)
    decreases |a|
  {
    hide Step;
    if a == [] {
      assert a + b == b;
    } else {
      assert (a + b)[0] == a[0] && (a + b)[1..] == a[1..] + b;
      RunJoined(hash, rules, Step(hash, rules, s, a[0]), a[1..], b);
    }
  }

  /** Over every run from the start: once an issuance was revoked, spent, met after its deadline or
      overtaken by a new epoch, it is never granted again, and every grant ever made fits its
      issuance, scope and deadline included. */
  lemma EndedIsNeverGranted(hash: Hasher, rules: Rules, epoch: nat, before: seq<Event>, e: Event, after: seq<Event>,
                            serial: nat)
    ensures var s := Run(hash, rules, Start(epoch), before);
      var t := Run(hash, rules, Start(epoch), before + ([e] + after));
      Kept(t)
      && (AliveAndEnded(hash, rules, s, e, serial) ==>
        Uses(t.grants, serial) == Uses(Step(hash, rules, s, e).grants, serial))
  {
    hide Kept, Step, Run, Ends, Alive, Gone, Uses;
    var s := Run(hash, rules, Start(epoch), before);
    StartKept(epoch);
    RunKeeps(hash, rules, Start(epoch), before);
    RunKeeps(hash, rules, Start(epoch), before + ([e] + after));
    RunJoined(hash, rules, Start(epoch), before, [e] + after);
    OneStep(hash, rules, s, e, after);
    StepKeeps(hash, rules, s, e);
    if AliveAndEnded(hash, rules, s, e, serial) {
      WhatEnds(hash, rules, s, e, serial);
      GoneForEver(hash, rules, Step(hash, rules, s, e), after, serial);
    }
  }

  lemma OneStep(hash: Hasher, rules: Rules, s: System, e: Event, after: seq<Event>)
    ensures Run(hash, rules, s, [e] + after) == Run(hash, rules, Step(hash, rules, s, e), after)
  {
    hide Step;
    assert ([e] + after)[0] == e && ([e] + after)[1..] == after;
  }

  // ---- issuing among others ---------------------------------------------------------------------------------------

  /** The registry inside the history moves as the calls do. */
  lemma StepIsAct(hash: Hasher, rules: Rules, s: System, e: Event)
    ensures Step(hash, rules, s, e).r == Act(hash, rules, s.r, e)
  {
    hide ValidSpec, DigestForHandle, ValidIdentifier, FreshHandle, NewEntry;
  }

  lemma {:induction false} RunIsActAll(hash: Hasher, rules: Rules, s: System, events: seq<Event>)
    ensures Run(hash, rules, s, events).r == ActAll(hash, rules, s.r, events)
    decreases |events|
  {
    hide Step, Act;
    if events != [] {
      StepIsAct(hash, rules, s, events[0]);
      RunIsActAll(hash, rules, Step(hash, rules, s, events[0]), events[1..]);
    }
  }

  lemma {:induction false} ActAllJoined(hash: Hasher, rules: Rules, r: Registry, a: seq<Event>, b: seq<Event>)
    ensures ActAll(hash, rules, r, a + b) == ActAll(hash, rules, ActAll(hash, rules, r, a), b)
    decreases |a|
  {
    hide Act;
    if a == [] {
      assert a + b == b;
    } else {
      assert (a + b)[0] == a[0] && (a + b)[1..] == a[1..] + b;
      ActAllJoined(hash, rules, Act(hash, rules, r, a[0]), a[1..], b);
    }
  }

  lemma OneTry(hash: Hasher, rules: Rules, r: Registry, s: Spec, now: Reading, raw: Bytes32)
    requires ValidSpec(rules, s)
    ensures var handle := Base64.HandleOf(raw); var e := IssueOne(s, now, [Some(raw)]);
      ActAll(hash, rules, r, [e])
      == if hash.sum(handle) in r.entries then r
         else r.(entries := r.entries[hash.sum(handle) := NewEntry(rules, r, s, now)])
  {
    hide ValidSpec, Base64.HandleOf, NewEntry;
    var e := IssueOne(s, now, [Some(raw)]);
    assert [e][1..] == [] && [Some(raw)][1..] == [];
    assert FreshHandle(hash, r.entries, [], TRIES - 1) == None;
    assert ActAll(hash, rules, Act(hash, rules, r, e), []) == Act(hash, rules, r, e);
  }

  /** An issue with the calls of others between its tries is a run of single tries and those calls; so
      whatever is kept over every run is kept by it. */
  lemma {:induction false} IssueIsARun(hash: Hasher, rules: Rules, r: Registry, s: Spec, now: Reading,
                                       draws: seq<Option<Bytes32>>, others: seq<seq<Event>>, tries: nat)
    returns (events: seq<Event>)
    requires ValidSpec(rules, s)
    ensures IssueAmong(hash, rules, r, s, now, draws, others, tries).0 == ActAll(hash, rules, r, events)
    decreases tries
  {
    hide ValidSpec, Base64.HandleOf, NewEntry, ActAll;
    if tries == 0 || draws == [] || draws[0].None? {
      events := [];
      NoCalls(hash, rules, r);
    } else {
      var first, raw := FirstOf(others), draws[0].value;
      var r1, e := ActAll(hash, rules, r, first), IssueOne(s, now, [Some(raw)]);
      OneTry(hash, rules, r1, s, now, raw);
      ActAllJoined(hash, rules, r, first, [e]);
      events := first + [e];
      if hash.sum(Base64.HandleOf(raw)) in r1.entries {
        var more := IssueIsARun(hash, rules, r1, s, now, draws[1..], RestOf(others), tries - 1);
        ActAllJoined(hash, rules, r, first + [e], more);
        events := events + more;
      }
    }
  }

  lemma NoCalls(hash: Hasher, rules: Rules, r: Registry)
    ensures ActAll(hash, rules, r, []) == r
  {
  }

  /** With nobody else calling, it is the one step of the runs. */
  lemma {:induction false} AloneIsIssue(hash: Hasher, rules: Rules, r: Registry, s: Spec, now: Reading,
                                        draws: seq<Option<Bytes32>>, tries: nat)
    ensures IssueAmong(hash, rules, r, s, now, draws, [], tries)
         == match FreshHandle(hash, r.entries, draws, tries)
            case None => (r, None)
            case Some(handle) =>
              (r.(entries := r.entries[hash.sum(handle) := NewEntry(rules, r, s, now)]), Some(handle))
    decreases tries
  {
    hide Base64.HandleOf, NewEntry, ActAll;
    NoCalls(hash, rules, r);
    if tries > 0 && draws != [] && draws[0].Some? { AloneIsIssue(hash, rules, r, s, now, draws[1..], tries - 1); }
  }
}
