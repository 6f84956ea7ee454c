/** What a capability is worth: exactly as many timely uses as it was issued with, unless it is ended; and what
    the calls that end one do to it and to all others. */
module CapabilityUses {
  import opened Text
  import opened Capability
  import Base64

  /** A consume of the handle of digest `d` for its own scope in its own time. */
  predicate Timely(hash: Hasher, d: Bytes32, e: Entry, event: Event) {
    event.ConsumeOne? && Base64.CanonicalHandle(event.handle) && hash.sum(event.handle) == d && event.scope == e.scope
    && e.issuedElapsed <= event.now.elapsed < e.deadline && event.now.wall < e.expiresWall
  }

  predicate OutOfTime(e: Entry, now: Reading) { e.deadline <= now.elapsed || e.expiresWall <= now.wall }

  /** What ends it before its last use: being met out of time, revocation by anyone who holds the handle or by
      its own subject, or a new epoch. */
  predicate Harms(hash: Hasher, d: Bytes32, e: Entry, event: Event) {
    match event
    case IssueOne(_, _, _) => false
    case ConsumeOne(handle, _, now) => hash.sum(handle) == d && OutOfTime(e, now)
    case RevokeOne(handle) => hash.sum(handle) == d
    case RevokeMine(handle, subject, now) =>
      hash.sum(handle) == d && (subject == e.scope.subject || now.elapsed < e.issuedElapsed || OutOfTime(e, now))
    case AdvanceTo(epoch) => epoch > e.epoch
  }

  function TimelyUses(hash: Hasher, d: Bytes32, e: Entry, events: seq<Event>): nat {
    if events == [] then 0
    else (if Timely(hash, d, e, events[0]) then 1 else 0) + TimelyUses(hash, d, e, events[1..])
  }

  function Least(a: nat, b: int): int { if a <= b then a else b }

  /** The entry of a live issuance under the registry's own policy. */
  predicate Usable(rules: Rules, s: System, serial: nat) {
    Alive(s, serial) && s.issued[serial].entry.policyVersion == rules.policyVersion
    && s.issued[serial].entry.epoch == s.r.epoch && Uses(s.grants, serial) < s.issued[serial].entry.remaining
  }

  lemma OtherSerial(s: System, serial: nat, d: Bytes32)
    requires Kept(s) && Alive(s, serial) && d in s.serials && d != s.issued[serial].digest
    ensures s.serials[d] != serial
  {
    hide GrantFits, Uses;
  }

  lemma LiveEntry(s: System, serial: nat)
    requires Kept(s) && Alive(s, serial)
    ensures var d, e := s.issued[serial].digest, s.issued[serial].entry;
      d in s.r.entries && s.r.entries[d] == e.(remaining := e.remaining - Uses(s.grants, serial))
      && e.remaining - Uses(s.grants, serial) > 0 && e.epoch == s.r.epoch && s.serials.Keys == s.r.entries.Keys
  {
    hide GrantFits, Uses;
  }

  /** One event that does no harm: a timely use is granted, the last one ends it, and anything else leaves it. */
  lemma OneEvent(hash: Hasher, rules: Rules, s: System, serial: nat, event: Event)
    requires Kept(s) && Usable(rules, s, serial)
      && !Harms(hash, s.issued[serial].digest, s.issued[serial].entry, event)
    ensures var t, d, e := Step(hash, rules, s, event), s.issued[serial].digest, s.issued[serial].entry;
      |t.issued| >= |s.issued| && t.issued[serial] == s.issued[serial]
      && Uses(t.grants, serial) == Uses(s.grants, serial) + (if Timely(hash, d, e, event) then 1 else 0)
      && if Uses(t.grants, serial) < e.remaining then Usable(rules, t, serial) else Gone(t, serial)
  {
    hide Kept, Base64.SlicedHandleCheck, Base64.CanonicalHandle, ValidIdentifier, ValidSpec, FreshHandle, NewEntry,
      Uses;
    var d, e := s.issued[serial].digest, s.issued[serial].entry;
    LiveEntry(s, serial);
    forall x | x in s.serials && x != d ensures s.serials[x] != serial { OtherSerial(s, serial, x); }
    match event
    case IssueOne(spec, now, draws) => FreshIsFree(hash, s.r.entries, draws, TRIES);
    case ConsumeOne(handle, scope, now) =>
      Base64.ChecksAgree(handle);
      var x, grant := hash.sum(handle), Consume(hash, rules, s.r, handle, scope, now).1;
      if grant.Some? && x in s.serials { UsesGrow(s.grants, Spent(s.serials[x], grant.value, now), serial); }
    case _ =>
  }

  /** From any reachable state: over every run that does it no harm, the grants of a live issuance are its
      timely uses, up to the uses it has left; and this after each event, so they are the first ones. */
  lemma {:induction false} UsableUses(hash: Hasher, rules: Rules, s: System, serial: nat, events: seq<Event>)
    requires Kept(s) && Usable(rules, s, serial)
    requires forall k :: 0 <= k < |events| ==>
               !Harms(hash, s.issued[serial].digest, s.issued[serial].entry, events[k])
    ensures var d, e := s.issued[serial].digest, s.issued[serial].entry;
      Uses(Run(hash, rules, s, events).grants, serial)
      == Least(Uses(s.grants, serial) + TimelyUses(hash, d, e, events), e.remaining)
    decreases |events|
  {
    hide Kept, Usable, Step, Uses, Gone, Harms, Timely;
    if events == [] {
      UsableLeft(rules, s, serial);
    } else {
      UsableLeft(rules, s, serial);
      OneEvent(hash, rules, s, serial, events[0]);
      StepKeeps(hash, rules, s, events[0]);
      var t := Step(hash, rules, s, events[0]);
      if Usable(rules, t, serial) {
        UsableUses(hash, rules, t, serial, events[1..]);
      } else {
        GoneForEver(hash, rules, t, events[1..], serial);
      }
    }
  }

  lemma UsableLeft(rules: Rules, s: System, serial: nat)
    requires Usable(rules, s, serial)
    ensures serial < |s.issued| && Uses(s.grants, serial) < s.issued[serial].entry.remaining
  {
  }

  /** So for a new capability: exactly the first `uses` timely uses are granted, each of them whatever else
      happens in between, as long as nothing ends it. */
  lemma ExactlyTheFirstUses(hash: Hasher, rules: Rules, s: System, spec: Spec, now: Reading,
                            draws: seq<Option<Bytes32>>, events: seq<Event>)
    requires Kept(s) && Issue(hash, rules, s.r, spec, now, draws).1.Some?
    requires var t := Step(hash, rules, s, IssueOne(spec, now, draws));
      forall k :: 0 <= k < |events| && |s.issued| < |t.issued| ==>
        !Harms(hash, t.issued[|s.issued|].digest, t.issued[|s.issued|].entry, events[k])
    ensures var t := Step(hash, rules, s, IssueOne(spec, now, draws));
      |t.issued| == |s.issued| + 1
      && var i := t.issued[|s.issued|];
         i.digest == hash.sum(Issue(hash, rules, s.r, spec, now, draws).1.value)
         && AsSpecified(rules, s.r.epoch, spec, now, i.entry)
         && Uses(Run(hash, rules, t, events).grants, |s.issued|)
            == Least(TimelyUses(hash, i.digest, i.entry, events), spec.uses)
  {
    hide Kept, Run, Uses, Harms, Timely, Step, Issue, AsSpecified, Usable;
    var t := Step(hash, rules, s, IssueOne(spec, now, draws));
    IssuedUsable(hash, rules, s, spec, now, draws);
    StepKeeps(hash, rules, s, IssueOne(spec, now, draws));
    UsableUses(hash, rules, t, |s.issued|, events);
    assert t.issued[|s.issued|].entry.remaining == spec.uses by {
      UsesAsSpecified(rules, s.r.epoch, spec, now, t.issued[|s.issued|].entry);
    }
  }

  lemma UsesAsSpecified(rules: Rules, epoch: nat, spec: Spec, now: Reading, e: Entry)
    requires AsSpecified(rules, epoch, spec, now, e)
    ensures e.remaining == spec.uses
  {
  }

  /** A new capability is one more issuance, as specified and with nothing granted yet. */
  lemma IssuedUsable(hash: Hasher, rules: Rules, s: System, spec: Spec, now: Reading, draws: seq<Option<Bytes32>>)
    requires Kept(s) && Issue(hash, rules, s.r, spec, now, draws).1.Some?
    ensures var t := Step(hash, rules, s, IssueOne(spec, now, draws));
      |t.issued| == |s.issued| + 1 && Usable(rules, t, |s.issued|)
      && t.issued[|s.issued|].digest == hash.sum(Issue(hash, rules, s.r, spec, now, draws).1.value)
      && AsSpecified(rules, s.r.epoch, spec, now, t.issued[|s.issued|].entry)
      && Uses(t.grants, |s.issued|) == 0
  {
    hide Kept, Uses, ValidSpec, FreshHandle, MakeScope, AsSpecified;
    NoneGrantedYet(s);
    EntryAsSpecified(rules, s.r, spec, now);
    UsesPositive(rules, spec);
  }

  lemma UsesPositive(rules: Rules, spec: Spec)
    requires ValidSpec(rules, spec)
    ensures spec.uses > 0
  {
    hide ValidIdentifier, RepositoryName;
  }

  // ---- the calls that end one ---------------------------------------------------------------------------------

  /** Every other entry is as it was. */
  ghost predicate OthersSame(r: Registry, r': Registry, d: Bytes32) {
    r'.epoch == r.epoch && forall x :: x != d ==> (x in r'.entries <==> x in r.entries)
                                                  && (x in r.entries ==> r'.entries[x] == r.entries[x])
  }

  /** A revocation succeeds exactly for the canonical handle of an entry, and removes that entry alone. */
  lemma RevokedExactly(hash: Hasher, r: Registry, handle: string)
    ensures var (r', ok) := Revoke(hash, r, handle); var d := hash.sum(handle);
      (ok <==> Base64.CanonicalHandle(handle) && d in r.entries) && OthersSame(r, r', d)
      && (ok ==> d !in r'.entries) && (!ok ==> r' == r)
  {
    hide Base64.CanonicalHandle, Base64.SlicedHandleCheck;
    Base64.ChecksAgree(handle);
  }

  /** An entry of the present epoch and policy, met in its time. */
  predicate Answers(rules: Rules, r: Registry, e: Entry, now: Reading) {
    e.epoch == r.epoch && e.policyVersion == rules.policyVersion && e.issuedElapsed <= now.elapsed
    && !OutOfTime(e, now)
  }

  /** A subject's revocation succeeds exactly for its own entry in its time, under the present epoch and policy;
      it removes that entry, and any it meets that can no longer be used, and never another subject's. */
  lemma RevokedMineExactly(hash: Hasher, rules: Rules, r: Registry, handle: string, subject: Subject, now: Reading)
    ensures var (r', ok) := RevokeForSubject(hash, rules, r, handle, subject, now); var d := hash.sum(handle);
      (ok <==> Base64.CanonicalHandle(handle) && d in r.entries && Answers(rules, r, r.entries[d], now)
               && r.entries[d].scope.subject == subject && ValidIdentifier(subject.agentInstanceID, 128)
               && subject.uid > 0 && ValidIdentifier(subject.workspaceID, 128))
      && (ok ==> d !in r'.entries)
      && OthersSame(r, r', d)
      && (d in r.entries && d !in r'.entries && !ok ==> !Answers(rules, r, r.entries[d], now))
      && (d in r'.entries ==> d in r.entries && r'.entries[d] == r.entries[d])
  {
    hide Base64.CanonicalHandle, Base64.SlicedHandleCheck, ValidIdentifier;
    Base64.ChecksAgree(handle);
  }

  /** The epoch only moves forward, and then nothing is left of the one before. */
  lemma AdvancedExactly(r: Registry, epoch: nat)
    ensures var (r', ok) := Advance(r, epoch);
      (ok <==> r.epoch < epoch) && r'.epoch == (if ok then epoch else r.epoch)
      && r'.entries == if ok then map[] else r.entries
  {
  }

  /** A consume touches no entry but the one of its handle. */
  lemma ConsumeSparesOthers(hash: Hasher, rules: Rules, r: Registry, handle: string, scope: Scope, now: Reading)
    ensures OthersSame(r, Consume(hash, rules, r, handle, scope, now).0, hash.sum(handle))
  {
    hide Base64.SlicedHandleCheck;
  }

  /** Any registry grants a consume if and only if the handle is canonical, its entry of the present epoch and
      policy, met in its time with uses left and for its own scope; it then has one use fewer, or is gone with
      the last. Met when it can never be used again it is dropped, and met otherwise it stays. */
  lemma ConsumedExactly(hash: Hasher, rules: Rules, r: Registry, handle: string, scope: Scope, now: Reading)
    ensures var (r', g) := Consume(hash, rules, r, handle, scope, now); var d := hash.sum(handle);
      (g.Some? <==> Base64.CanonicalHandle(handle) && d in r.entries && Answers(rules, r, r.entries[d], now)
                    && r.entries[d].remaining > 0 && r.entries[d].scope == scope)
      && (g.Some? ==>
            var e := r.entries[d];
            g.value == Grant(e.scope, e.issuedWall, e.expiresWall, e.remaining - 1, e.policyVersion, e.epoch)
            && r'.entries == if e.remaining == 1 then r.entries - {d}
                             else r.entries[d := e.(remaining := e.remaining - 1)])
      && (g.None? ==>
            r'.entries == if Base64.CanonicalHandle(handle) && d in r.entries
                             && (r.entries[d].epoch != r.epoch || r.entries[d].policyVersion != rules.policyVersion
                                 || OutOfTime(r.entries[d], now) || r.entries[d].remaining <= 0)
                          then r.entries - {d} else r.entries)
      && r'.epoch == r.epoch
  {
    hide Base64.CanonicalHandle, Base64.SlicedHandleCheck;
    Base64.ChecksAgree(handle);
  }
}
