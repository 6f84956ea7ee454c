/** What every control-plane operation records, and exactly when it does, in the terms of its caller. */
module ControlAnswers {
  import opened Text
  import opened Json
  import opened ControlTasks

  // ---- the terms --------------------------------------------------------------------------------------

  /** The digest of all zeros. */
  function Zeros(): string { seq(71, i requires 0 <= i < 71 => if i < 7 then "sha256:"[i] else '0') }

  /** The schema of an event that names none. */
  function DefaultSchema(): Schema { Schema("urn:kakesu:control:task-event:legacy", "1", Zeros()) }

  predicate NamesSchema(s: Schema) {
    s.id != "" && s.revision != "" && |s.digest| == 71 && s.digest[..7] == "sha256:"
    && forall i :: 7 <= i < 71 ==> '0' <= s.digest[i] <= '9' || 'a' <= s.digest[i] <= 'f'
  }

  predicate ObjectText(payload: string) { Decode(payload).Some? && Decode(payload).value.Obj? }

  /** The object has that member, a text that is not empty. */
  predicate GivesText(payload: string, name: string) {
    ObjectText(payload)
    && match Lookup(Decode(payload).value.fields, name)
       case Some(Str(text)) => text != ""
       case _ => false
  }

  /** What a life-cycle event must carry. */
  predicate Carries(kind: Kind, payload: string) {
    match kind
    case TaskStarted => GivesText(payload, "run_id")
    case TaskResumed => GivesText(payload, "run_id")
    case TaskCompleted => GivesText(payload, "outcome_ref")
    case TaskCancelled => GivesText(payload, "reason")
    case _ => ObjectText(payload)
  }

  /** The payload is an object with that number under that name. */
  predicate GivesNumber(payload: string, name: string, n: int) {
    ObjectText(payload)
    && match Lookup(Decode(payload).value.fields, name)
       case Some(Num(lexeme)) => AllDigits(lexeme) && DecimalValue(lexeme) == n
       case _ => false
  }

  predicate GivesSchema(payload: string, s: Schema) {
    ObjectText(payload)
    && match Lookup(Decode(payload).value.fields, "schema")
       case Some(Obj(f)) =>
         Lookup(f, "schema_id") == Some(Str(s.id)) && Lookup(f, "schema_revision") == Some(Str(s.revision))
         && Lookup(f, "schema_digest") == Some(Str(s.digest))
       case _ => false
  }

  // ---- faults ------------------------------------------------------------------------------------------

  /** The statements an operation goes through. */
  predicate GoesThrough(q: Request, s: Stage) {
    match s
    case Beginning => true
    case Reading => !q.CreateTask?
    case Inserting(n) => q.CreateTask? && n < 8
    case Hook => q.CreateTask?
    case FirstWrite => !q.CreateTask?
    case SecondWrite => !q.CreateTask?
    case ThirdWrite =>
      q.UpdateContract? || q.UpdateProgress? || (q.TransitionTask? && q.target in {Completed, Cancelled})
    case ReadingBack => q.CreateTask? || q.TransitionTask?
    case Committing => true
  }

  /** An operation succeeds under a fault exactly if it would without, and never meets it; and then it does the
      same. */
  lemma FaultsExactly(v: Tasks, q: Request, fault: Fault)
    ensures Outcome(v, q, fault).Ok? <==>
            Outcome(v, q, NoFault).Ok? && (fault.FaultAt? ==> !GoesThrough(q, fault.stage))
    ensures Outcome(v, q, fault).Ok? ==> Outcome(v, q, fault) == Outcome(v, q, NoFault)
  {
    hide NewTask, Moved, WithContract, WithProgress, ValidEventPayload, ValidVersioned, Busy, AllowedTransition;
  }

  /** Where a lock is reported as a conflict: at the writes and the commit. */
  predicate Writes(s: Stage) {
    s.Inserting? || s == FirstWrite || s == SecondWrite || s == ThirdWrite || s == Committing
  }

  /** A fault that is met is reported as a conflict if a write or the commit found the database locked, and as a
      failure of storage otherwise. */
  lemma FaultsReported(v: Tasks, q: Request, s: Stage, busy: bool)
    requires Outcome(v, q, NoFault).Ok? && GoesThrough(q, s)
    ensures Outcome(v, q, FaultAt(s, busy)) == Err(if busy && Writes(s) then Conflict else Storage)
  {
    hide NewTask, Moved, WithContract, WithProgress, ValidEventPayload, ValidVersioned, Busy, AllowedTransition;
  }

  /** Success replaces the one task named, failure nothing. */
  lemma OneTaskChanges(v: Tasks, q: Request, fault: Fault)
    ensures var w := Perform(v, q, fault);
      (forall id :: id in v && id != q.id ==> id in w && w[id] == v[id]) && w.Keys <= v.Keys + {q.id}
      && (Outcome(v, q, fault).Ok? ==> q.id in w && w[q.id] == Outcome(v, q, fault).value)
      && (Outcome(v, q, fault).Err? ==> w == v)
  {
    hide Outcome;
  }

  // ---- creating ---------------------------------------------------------------------------------------------

  predicate HoldsTask(v: Tasks, agent: string) { exists id :: id in v && v[id].active && v[id].agent == agent }

  /** A task is created exactly under a free identifier for an agent without an active task; it is ready, owned,
      and starts with its contract, the initial progress, and the two events of a creation. */
  lemma CreatedExactly(v: Tasks, id: string, agent: string, workspace: string, contract: Contract)
    ensures var o := Outcome(v, CreateTask(id, agent, workspace, contract), NoFault);
      (o.Ok? <==> id !in v && !HoldsTask(v, agent)) && (o.Err? ==> o.error == Conflict)
      && (o.Ok? ==>
            var t := o.value;
            t.state == Ready && t.active && t.agent == agent && t.workspace == workspace && t.contracts == [contract]
            && t.progresses == [Progress(Schema("urn:kakesu:control:progress:initial", "0", Zeros()), "{}", 0, 0)]
            && t.events
               == [Event(TaskCreated, "{}", DefaultSchema()), Event(OwnerAssigned, "{}", DefaultSchema())])
  {
    ZerosSpelled();
  }

  lemma ZerosSpelled()
    ensures ZeroDigest() == Zeros() && LegacySchema() == DefaultSchema()
  {
    assert ZeroDigest() == Zeros();
  }

  // ---- moving ------------------------------------------------------------------------------------------------

  /** A task moves exactly from the expected state, by a life-cycle event that leads on to the target and whose
      payload has what that event requires; it gains just that event, and is released when it ends. */
  lemma MovedExactly(v: Tasks, id: string, expected: TaskState, target: TaskState, payload: string)
    ensures var o := Outcome(v, TransitionTask(id, expected, target, payload), NoFault);
      (o.Ok? <==> id in v && v[id].state == expected
                  && exists kind ::
                       LifecycleKind(kind) && Next(expected, kind) == Some(target) && Carries(kind, payload))
      && (o.Ok? ==>
            var t, u := o.value, v[id];
            exists kind ::
              LifecycleKind(kind) && Next(expected, kind) == Some(target) && Carries(kind, payload)
              && t == Task(target, u.agent, u.active && target != Completed && target != Cancelled, u.workspace,
                           u.contracts, u.progresses, u.events + [Event(kind, payload, DefaultSchema())]))
      && (o == Err(Storage) <==> id !in v)
      && (o == Err(Conflict) <==> id in v && v[id].state != expected)
      && (o == Err(NotAllowed) <==> id in v && v[id].state == expected
                                    && forall kind :: LifecycleKind(kind) ==> Next(expected, kind) != Some(target))
  {
    hide LegacySchema, DefaultSchema, Carries, ValidEventPayload;
    ZerosSpelled();
    if AllowedTransition(expected, target).Some? {
      var kind := AllowedTransition(expected, target).value;
      OneKind(expected, target, kind);
      CarriesExactly(kind, payload);
    } else {
      AllowedMeansNext(expected, target);
    }
  }

  lemma OneKind(from: TaskState, to: TaskState, kind: Kind)
    requires AllowedTransition(from, to) == Some(kind)
    ensures LifecycleKind(kind) && Next(from, kind) == Some(to)
    ensures forall k :: LifecycleKind(k) && Next(from, k) == Some(to) ==> k == kind
  {
  }

  lemma CarriesExactly(kind: Kind, payload: string)
    requires LifecycleKind(kind)
    ensures ValidEventPayload(kind, payload) <==> Carries(kind, payload)
  {
    hide Decode, Lookup;
  }

  // ---- contracts ---------------------------------------------------------------------------------------------

  /** The contract is recorded exactly as the next version of the one expected, if it names its schema and is an
      object; the task gains just it and an event that says so. */
  lemma ContractExactly(v: Tasks, id: string, expected: int, version: int, c: Contract)
    ensures var o := Outcome(v, UpdateContract(id, expected, version, c), NoFault);
      (o.Ok? <==> id in v && |v[id].contracts| == expected && version == expected + 1 && NamesSchema(c.schema)
                  && ObjectText(c.payload))
      && (o.Ok? ==>
            var t, u := o.value, v[id];
            exists said ::
              t == Task(u.state, u.agent, u.active, u.workspace, u.contracts + [c], u.progresses,
                        u.events + [Event(ContractChanged, said, c.schema)])
              && GivesNumber(said, "version", version) && GivesSchema(said, c.schema))
      && (o == Err(Conflict) <==> id in v && |v[id].contracts| != expected && 0 <= expected && version == expected + 1
                                  && NamesSchema(c.schema) && ObjectText(c.payload))
  {
    hide ContractPayload, GivesNumber, GivesSchema, Decode, NamesSchema;
    SchemaExactly(c.schema);
    if version > 0 { ContractSaid(version, c); }
    hide SchemaPresent;
  }

  lemma SchemaExactly(s: Schema)
    ensures SchemaPresent(s) <==> NamesSchema(s)
  {
    if IsDigest(s.digest) {
      forall i | 7 <= i < 71 ensures '0' <= s.digest[i] <= '9' || 'a' <= s.digest[i] <= 'f' {
        assert s.digest[i] == s.digest[7..][i - 7];
      }
    }
  }

  lemma SchemaSaid(s: Schema)
    ensures SchemaValue(s).Obj? && WellFormed(SchemaValue(s))
    ensures Lookup(SchemaValue(s).fields, "schema_id") == Some(Str(s.id))
    ensures Lookup(SchemaValue(s).fields, "schema_revision") == Some(Str(s.revision))
    ensures Lookup(SchemaValue(s).fields, "schema_digest") == Some(Str(s.digest))
  {
    var ps := [("schema_id", Str(s.id)), ("schema_revision", Str(s.revision)), ("schema_digest", Str(s.digest))];
    assert |"schema_id"| == 9 && |"schema_revision"| == 15 && |"schema_digest"| == 13;
    WellFormedPairs(ps);
    LookupPair(ps, 0);
    LookupPair(ps, 1);
    LookupPair(ps, 2);
  }

  lemma NumberSaid(n: nat)
    ensures WellFormed(IntValue(n)) && IntValue(n) == Num(Decimal(n)) && AllDigits(Decimal(n))
      && DecimalValue(Decimal(n)) == n
  {
    DecimalIsNumber(n);
    DecimalValueOfDecimal(n);
  }

  lemma ContractSaid(version: nat, c: Contract)
    ensures var said := ContractPayload(version, c);
      GivesNumber(said, "version", version) && GivesSchema(said, c.schema)
  {
    hide SchemaValue, IntValue, Decimal, DecimalValue, AllDigits, Encode, Decode;
    SchemaSaid(c.schema);
    NumberSaid(version);
    var ps := [("schema", SchemaValue(c.schema)), ("version", IntValue(version))];
    assert |"schema"| == 6 && |"version"| == 7;
    WellFormedPairs(ps);
    LookupPair(ps, 0);
    LookupPair(ps, 1);
    DecodeOfEncode(Obj(FromPairs(ps)));
  }

  // ---- progress ------------------------------------------------------------------------------------------------

  /** The two watermarks go no further back than the last ones, and the first not past the events there are. */
  predicate Advances(u: Task, p: Progress) {
    0 <= p.throughTask <= |u.events| && 0 <= p.throughAgentRun
    && (u.progresses != [] ==>
          u.progresses[|u.progresses| - 1].throughTask <= p.throughTask
          && u.progresses[|u.progresses| - 1].throughAgentRun <= p.throughAgentRun)
  }

  /** The progress is recorded exactly as the next version of the one expected, if it names its schema, is an
      object and its watermarks advance; the task gains just it and an event that says so. */
  lemma ProgressExactly(v: Tasks, id: string, expected: int, version: int, p: Progress)
    ensures var o := Outcome(v, UpdateProgress(id, expected, version, p), NoFault);
      (o.Ok? <==> id in v && |v[id].progresses| == version == expected + 1 && 0 <= expected && NamesSchema(p.schema)
                  && ObjectText(p.payload) && Advances(v[id], p))
      && (o.Ok? ==>
            var t, u := o.value, v[id];
            exists said ::
              t == Task(u.state, u.agent, u.active, u.workspace, u.contracts, u.progresses + [p],
                        u.events + [Event(ProgressRefreshed, said, p.schema)])
              && GivesNumber(said, "progress_version", version) && GivesSchema(said, p.schema)
              && GivesNumber(said, "through_task_event_sequence", p.throughTask)
              && GivesNumber(said, "through_agent_run_event_sequence", p.throughAgentRun))
  {
    hide ProgressPayload, GivesNumber, GivesSchema, Decode, NamesSchema;
    SchemaExactly(p.schema);
    if version > 0 && p.throughTask >= 0 && p.throughAgentRun >= 0 { ProgressSaid(version, p); }
    hide SchemaPresent;
  }

  lemma ProgressSaid(version: nat, p: Progress)
    requires p.throughTask >= 0 && p.throughAgentRun >= 0
    ensures var said := ProgressPayload(version, p);
      GivesNumber(said, "progress_version", version) && GivesSchema(said, p.schema)
      && GivesNumber(said, "through_task_event_sequence", p.throughTask)
      && GivesNumber(said, "through_agent_run_event_sequence", p.throughAgentRun)
  {
    hide SchemaValue, IntValue, Decimal, DecimalValue, AllDigits, Encode, Decode;
    SchemaSaid(p.schema);
    NumberSaid(version);
    NumberSaid(p.throughTask);
    NumberSaid(p.throughAgentRun);
    var ps := [("progress_version", IntValue(version)), ("schema", SchemaValue(p.schema)),
               ("through_agent_run_event_sequence", IntValue(p.throughAgentRun)),
               ("through_task_event_sequence", IntValue(p.throughTask))];
    assert |"progress_version"| == 16 && |"schema"| == 6 && |"through_agent_run_event_sequence"| == 32
      && |"through_task_event_sequence"| == 27;
    WellFormedPairs(ps);
    LookupPair(ps, 0);
    LookupPair(ps, 1);
    LookupPair(ps, 2);
    LookupPair(ps, 3);
    DecodeOfEncode(Obj(FromPairs(ps)));
  }
}
