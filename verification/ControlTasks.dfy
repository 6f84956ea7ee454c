/** The control plane's tasks as whole values: what each operation does to them, what every
    operation keeps, and what concurrent transactions can and cannot do. */
module ControlTasks {
  import opened Text
  import opened Json

  // ---- life cycle ---------------------------------------------------------------------------

  /** Unknown stands for any other text a caller passes; it is never stored. */
  datatype TaskState = Ready | Running | Waiting | Suspended | Reviewing | Completed | Cancelled | Unknown(name: string)

  datatype Kind =
    | TaskCreated | OwnerAssigned | TaskStarted | TaskWaiting | TaskSuspended | TaskReviewingCompletion
    | TaskResumed | TaskCompleted | TaskCancelled | ContractChanged | ProgressRefreshed

  /** The event of a move, or None if the move is not allowed. */
  function AllowedTransition(from: TaskState, to: TaskState): Option<Kind> {
    match from
    case Ready => (match to case Running => Some(TaskStarted) case Cancelled => Some(TaskCancelled) case _ => None)
    case Running =>
      (match to
       case Waiting => Some(TaskWaiting)
       case Suspended => Some(TaskSuspended)
       case Reviewing => Some(TaskReviewingCompletion)
       case Cancelled => Some(TaskCancelled)
       case _ => None)
    case Waiting => (match to case Running => Some(TaskResumed) case Cancelled => Some(TaskCancelled) case _ => None)
    case Suspended => (match to case Running => Some(TaskResumed) case Cancelled => Some(TaskCancelled) case _ => None)
    case Reviewing =>
      (match to
       case Running => Some(TaskResumed)
       case Completed => Some(TaskCompleted)
       case Cancelled => Some(TaskCancelled)
       case _ => None)
    case _ => None
  }

  predicate Terminal(s: TaskState) { s.Completed? || s.Cancelled? }

  // ---- tasks -----------------------------------------------------------------------------------

  datatype Schema = Schema(id: string, revision: string, digest: string)

  predicate SchemaPresent(s: Schema) { s.id != "" && s.revision != "" && IsDigest(s.digest) }

  datatype Contract = Contract(schema: Schema, payload: string)

  datatype Progress = Progress(schema: Schema, payload: string, throughTask: int, throughAgentRun: int)

  datatype Event = Event(kind: Kind, payload: string, schema: Schema)

  /** Contract versions count from 1, progress versions from 0, events from 1. */
  datatype Task = Task(
    state: TaskState, agent: string, active: bool, workspace: string,
    contracts: seq<Contract>, progresses: seq<Progress>, events: seq<Event>)

  type Tasks = map<string, Task>

  /** "sha256:" and 64 zeros. */
  function ZeroDigest(): string { "sha256:" + seq(64, _ => '0') }

  /** The schema of events that name none. */
  function LegacySchema(): Schema { Schema("urn:kakesu:control:task-event:legacy", "1", ZeroDigest()) }

  function InitialProgress(): Progress {
    Progress(Schema("urn:kakesu:control:progress:initial", "0", ZeroDigest()), "{}", 0, 0)
  }

  function PlainEvent(kind: Kind): Event { Event(kind, "{}", LegacySchema()) }

  function NewTask(agent: string, workspace: string, contract: Contract): Task {
    Task(Ready, agent, true, workspace, [contract], [InitialProgress()],
      [PlainEvent(TaskCreated), PlainEvent(OwnerAssigned)])
  }

  lemma DefaultSchemasPresent()
    ensures SchemaPresent(LegacySchema()) && SchemaPresent(InitialProgress().schema)
  {
    var zero := ZeroDigest();
    assert zero[..7] == "sha256:" && zero[7..] == seq(64, _ => '0');
  }

  // ---- input checks ------------------------------------------------------------------------------

  predicate IsObject(payload: string) {
    var v := Decode(payload);
    v.Some? && v.value.Obj?
  }

  function RequiredField(kind: Kind): string {
    match kind
    case TaskStarted => "run_id"
    case TaskResumed => "run_id"
    case TaskCompleted => "outcome_ref"
    case TaskCancelled => "reason"
    case _ => ""
  }

  predicate ValidEventPayload(kind: Kind, payload: string) {
    IsObject(payload)
    && (RequiredField(kind) == "" ||
        match Lookup(Decode(payload).value.fields, RequiredField(kind))
        case Some(Str(text)) => text != ""
        case _ => false)
  }

  predicate ValidVersioned(expected: int, version: int, schema: Schema, payload: string) {
    expected >= 0 && version == expected + 1 && SchemaPresent(schema) && IsObject(payload)
  }

  function SchemaValue(s: Schema): Json {
    Obj(FromPairs([("schema_id", Str(s.id)), ("schema_revision", Str(s.revision)), ("schema_digest", Str(s.digest))]))
  }

  /** The decimal spelling of a version or watermark; none is ever negative here. */
  function IntValue(n: int): Json { if n < 0 then Num("-" + Decimal(-n)) else Num(Decimal(n)) }

  function ContractPayload(version: int, c: Contract): string {
    Encode(Obj(FromPairs([("schema", SchemaValue(c.schema)), ("version", IntValue(version))])))
  }

  function ProgressPayload(version: int, p: Progress): string {
    Encode(Obj(FromPairs([("progress_version", IntValue(version)), ("schema", SchemaValue(p.schema)),
                          ("through_agent_run_event_sequence", IntValue(p.throughAgentRun)),
                          ("through_task_event_sequence", IntValue(p.throughTask))])))
  }

  // ---- operations --------------------------------------------------------------------------------

  datatype Request =
    | CreateTask(id: string, agent: string, workspace: string, contract: Contract)
    | TransitionTask(id: string, expected: TaskState, target: TaskState, payload: string)
    | UpdateContract(id: string, expectedVersion: int, version: int, contract: Contract)
    | UpdateProgress(id: string, expectedVersion: int, version: int, progress: Progress)

  /** Where a transaction can fail: a statement, or the hook that runs after it. */
  datatype Stage =
    | Beginning | Reading
    | Inserting(number: nat) | Hook
    | FirstWrite | SecondWrite | ThirdWrite
    | ReadingBack | Committing

  /** The inserts that create a task. */
  const INSERTS := 8

  /** `busy`: the database was locked, which a write or a commit reports as a conflict. */
  datatype Fault = NoFault | FaultAt(stage: Stage, busy: bool)

  datatype Failure = Storage | Conflict | NotAllowed | BadPayload | BadInput | Corrupt

  predicate Fails(f: Fault, s: Stage) { f.FaultAt? && f.stage == s }

  /** One of the first n inserts fails. */
  predicate FailsInserting(f: Fault, n: nat) { f.FaultAt? && f.stage.Inserting? && f.stage.number < n }

  function WriteFailure(f: Fault): Failure { if f.FaultAt? && f.busy then Conflict else Storage }

  predicate Busy(v: Tasks, agent: string) { exists id :: id in v && v[id].active && v[id].agent == agent }

  function Moved(t: Task, target: TaskState, kind: Kind, payload: string): Task {
    t.(state := target, events := t.events + [Event(kind, payload, LegacySchema())],
      active := t.active && !Terminal(target))
  }

  function ContractEvent(version: int, c: Contract): Event {
    Event(ContractChanged, ContractPayload(version, c), c.schema)
  }

  function ProgressEvent(version: int, p: Progress): Event {
    Event(ProgressRefreshed, ProgressPayload(version, p), p.schema)
  }

  function WithContract(t: Task, c: Contract): Task {
    t.(contracts := t.contracts + [c], events := t.events + [ContractEvent(|t.contracts| + 1, c)])
  }

  function WithProgress(t: Task, p: Progress): Task {
    t.(progresses := t.progresses + [p], events := t.events + [ProgressEvent(|t.progresses|, p)])
  }

  function Create(v: Tasks, id: string, agent: string, workspace: string, contract: Contract,
                  fault: Fault): Result<Task, Failure> {
    if Fails(fault, Beginning) then Err(Storage)
    else if Fails(fault, Inserting(0)) then Err(WriteFailure(fault))
    else if id in v then Err(Conflict)
    else if Fails(fault, Inserting(1)) then Err(WriteFailure(fault))
    else if Busy(v, agent) then Err(Conflict)
    else if FailsInserting(fault, INSERTS) then Err(WriteFailure(fault))
    else if Fails(fault, Hook) || Fails(fault, ReadingBack) then Err(Storage)
    else if Fails(fault, Committing) then Err(WriteFailure(fault))
    else Ok(NewTask(agent, workspace, contract))
  }

  function Transition(v: Tasks, id: string, expected: TaskState, target: TaskState, payload: string,
                      fault: Fault): Result<Task, Failure> {
    if Fails(fault, Beginning) || Fails(fault, Reading) || id !in v then Err(Storage)
    else if v[id].state != expected then Err(Conflict)
    else if AllowedTransition(expected, target).None? then Err(NotAllowed)
    else if !ValidEventPayload(AllowedTransition(expected, target).value, payload) then Err(BadPayload)
    else if Fails(fault, FirstWrite) || Fails(fault, SecondWrite) || (Terminal(target) && Fails(fault, ThirdWrite)) then
      Err(WriteFailure(fault))
    else if Fails(fault, ReadingBack) then Err(Storage)
    else if Fails(fault, Committing) then Err(WriteFailure(fault))
    else Ok(Moved(v[id], target, AllowedTransition(expected, target).value, payload))
  }

  predicate FailsAfterRead(f: Fault) {
    Fails(f, FirstWrite) || Fails(f, SecondWrite) || Fails(f, ThirdWrite) || Fails(f, Committing)
  }

  function ChangeContract(v: Tasks, id: string, expected: int, version: int, c: Contract,
                          fault: Fault): Result<Task, Failure> {
    if !ValidVersioned(expected, version, c.schema, c.payload) then Err(BadInput)
    else if Fails(fault, Beginning) || Fails(fault, Reading) || id !in v then Err(Storage)
    else if |v[id].contracts| != expected then Err(Conflict)
    else if FailsAfterRead(fault) then Err(WriteFailure(fault))
    else Ok(WithContract(v[id], c))
  }

  function ChangeProgress(v: Tasks, id: string, expected: int, version: int, p: Progress,
                          fault: Fault): Result<Task, Failure> {
    if !ValidVersioned(expected, version, p.schema, p.payload) || p.throughTask < 0 || p.throughAgentRun < 0 then
      Err(BadInput)
    else if Fails(fault, Beginning) || Fails(fault, Reading) || id !in v then Err(Storage)
    else if |v[id].progresses| - 1 != expected then Err(Conflict)
    else if expected >= 0 && (p.throughTask < v[id].progresses[expected].throughTask
                              || p.throughAgentRun < v[id].progresses[expected].throughAgentRun) then Err(Conflict)
    else if p.throughTask > |v[id].events| then Err(Conflict)
    else if FailsAfterRead(fault) then Err(WriteFailure(fault))
    else Ok(WithProgress(v[id], p))
  }

  /** What the task of a request becomes, or why nothing changes. */
  function Outcome(v: Tasks, q: Request, fault: Fault): Result<Task, Failure> {
    match q
    case CreateTask(id, agent, workspace, contract) => Create(v, id, agent, workspace, contract, fault)
    case TransitionTask(id, expected, target, payload) => Transition(v, id, expected, target, payload, fault)
    case UpdateContract(id, expected, version, c) => ChangeContract(v, id, expected, version, c, fault)
    case UpdateProgress(id, expected, version, p) => ChangeProgress(v, id, expected, version, p, fault)
  }

  function Perform(v: Tasks, q: Request, fault: Fault): Tasks {
    match Outcome(v, q, fault)
    case Ok(t) => v[q.id := t]
    case Err(_) => v
  }

  // ---- what every operation keeps -------------------------------------------------------------------

  function Count(events: seq<Event>, kind: Kind): nat {
    if events == [] then
      0
    else Count(events[..|events| - 1], kind) + (if events[|events| - 1].kind == kind then 1 else 0)
  }

  /** The state an event leads to from another state; events outside the life cycle leave it. */
  function Next(s: TaskState, kind: Kind): Option<TaskState> {
    match kind
    case TaskStarted => if s.Ready? then Some(Running) else None
    case TaskResumed => if s.Waiting? || s.Suspended? || s.Reviewing? then Some(Running) else None
    case TaskWaiting => if s.Running? then Some(Waiting) else None
    case TaskSuspended => if s.Running? then Some(Suspended) else None
    case TaskReviewingCompletion => if s.Running? then Some(Reviewing) else None
    case TaskCompleted => if s.Reviewing? then Some(Completed) else None
    case TaskCancelled => if !Terminal(s) && !s.Unknown? then Some(Cancelled) else None
    case _ => Some(s)
  }

  /** The state a log leads to from `ready`, if every event of it was possible when it happened. */
  function Replay(events: seq<Event>): Option<TaskState> {
    if events == [] then Some(Ready) else
    var s :- Replay(events[..|events| - 1]);
    Next(s, events[|events| - 1].kind)
  }

  /** The events of the life cycle. */
  predicate LifecycleKind(k: Kind) {
    k.TaskStarted? || k.TaskResumed? || k.TaskWaiting? || k.TaskSuspended? || k.TaskReviewingCompletion?
    || k.TaskCompleted? || k.TaskCancelled?
  }

  lemma AllowedMeansNext(from: TaskState, to: TaskState)
    ensures AllowedTransition(from, to).Some?
      <==> exists kind :: LifecycleKind(kind) && Next(from, kind) == Some(to)
    ensures AllowedTransition(from, to).Some? ==> Next(from, AllowedTransition(from, to).value) == Some(to)
  {
    if AllowedTransition(from, to).Some? {
      assert Next(from, AllowedTransition(from, to).value) == Some(to);
    }
  }

  /** Every progress refresh looked no further than the events there were before it. */
  predicate SeenOnly(events: seq<Event>, progresses: seq<Progress>) {
    forall k :: 0 <= k < |events| && events[k].kind.ProgressRefreshed?
           && Count(events[..k + 1], ProgressRefreshed) < |progresses|
      ==> progresses[Count(events[..k + 1], ProgressRefreshed)].throughTask <= k
  }

  predicate WatermarksGrow(ps: seq<Progress>) {
    forall i, j :: 0 <= i <= j < |ps| ==>
      0 <= ps[i].throughTask <= ps[j].throughTask && 0 <= ps[i].throughAgentRun <= ps[j].throughAgentRun
  }

  predicate SchemasPresent(t: Task) {
    (forall i :: 1 <= i < |t.contracts| ==> SchemaPresent(t.contracts[i].schema))
    && (forall i :: 0 <= i < |t.progresses| ==> SchemaPresent(t.progresses[i].schema))
    && forall i :: 0 <= i < |t.events| ==> SchemaPresent(t.events[i].schema)
  }

  predicate Counted(t: Task) {
    |t.contracts| == 1 + Count(t.events, ContractChanged) && |t.progresses| == 1 + Count(t.events, ProgressRefreshed)
  }

  predicate KeptTask(t: Task) {
    Replay(t.events) == Some(t.state) && !t.state.Unknown? && (t.active <==> !Terminal(t.state))
    && Counted(t) && SchemasPresent(t) && WatermarksGrow(t.progresses) && SeenOnly(t.events, t.progresses)
  }

  predicate OneActiveTaskEach(v: Tasks) {
    forall a, b :: a in v && b in v && v[a].active && v[b].active && v[a].agent == v[b].agent ==> a == b
  }

  predicate AllKept(v: Tasks) { OneActiveTaskEach(v) && forall id :: id in v ==> KeptTask(v[id]) }

  lemma CountGrows(events: seq<Event>, e: Event, kind: Kind)
    ensures Count(events + [e], kind) == Count(events, kind) + (if e.kind == kind then 1 else 0)
  {
    assert (events + [e])[..|events|] == events;
  }

  lemma ReplayGrows(events: seq<Event>, e: Event)
    ensures Replay(events + [e]) == match Replay(events) case None => None case Some(s) => Next(s, e.kind)
  {
    assert (events + [e])[..|events|] == events;
  }

  lemma {:induction false} CountBound(events: seq<Event>, k: nat, kind: Kind)
    requires k <= |events|
    ensures Count(events[..k], kind) <= Count(events, kind)
    decreases |events|
  {
    if k < |events| {
      assert events[..|events| - 1][..k] == events[..k];
      CountBound(events[..|events| - 1], k, kind);
    } else {
      assert events[..k] == events;
    }
  }

  lemma SeenOnlyGrows(events: seq<Event>, ps: seq<Progress>, e: Event)
    requires SeenOnly(events, ps) && |ps| == 1 + Count(events, ProgressRefreshed) && !e.kind.ProgressRefreshed?
    ensures SeenOnly(events + [e], ps)
  {
    var more := events + [e];
    forall k | 0 <= k < |more| && more[k].kind.ProgressRefreshed? && Count(more[..k + 1], ProgressRefreshed) < |ps|
      ensures ps[Count(more[..k + 1], ProgressRefreshed)].throughTask <= k
    {
      assert more[..k + 1] == events[..k + 1];
    }
  }

  lemma SeenOnlyGrowsWith(events: seq<Event>, ps: seq<Progress>, e: Event, p: Progress)
    requires SeenOnly(events, ps) && |ps| == 1 + Count(events, ProgressRefreshed) && e.kind.ProgressRefreshed?
      && p.throughTask <= |events|
    ensures SeenOnly(events + [e], ps + [p])
  {
    var more, all := events + [e], ps + [p];
    forall k | 0 <= k < |more| && more[k].kind.ProgressRefreshed? && Count(more[..k + 1], ProgressRefreshed) < |all|
      ensures all[Count(more[..k + 1], ProgressRefreshed)].throughTask <= k
    {
      if k < |events| {
        assert more[..k + 1] == events[..k + 1];
        CountBound(events, k + 1, ProgressRefreshed);
      } else {
        assert more[..k + 1] == more;
        CountGrows(events, e, ProgressRefreshed);
      }
    }
  }

  lemma NewTaskKept(agent: string, workspace: string, contract: Contract)
    ensures KeptTask(NewTask(agent, workspace, contract))
  {
    hide SchemaPresent, LegacySchema, InitialProgress;
    DefaultSchemasPresent();
    InitialWatermarks();
    var events := [PlainEvent(TaskCreated), PlainEvent(OwnerAssigned)];
    assert events == [] + [events[0]] + [events[1]];
    ReplayGrows([], events[0]);
    ReplayGrows([] + [events[0]], events[1]);
    CountGrows([], events[0], ContractChanged);
    CountGrows([] + [events[0]], events[1], ContractChanged);
    CountGrows([], events[0], ProgressRefreshed);
    CountGrows([] + [events[0]], events[1], ProgressRefreshed);
  }

  lemma InitialWatermarks()
    ensures InitialProgress().throughTask == 0 && InitialProgress().throughAgentRun == 0
  {
  }

  /** A task with one more event keeps the parts that only the new event can change. */
  lemma AppendKept(t: Task, e: Event)
    requires KeptTask(t) && SchemaPresent(e.schema) && !e.kind.ProgressRefreshed?
    ensures var events := t.events + [e];
      SeenOnly(events, t.progresses) && Count(events, ProgressRefreshed) == Count(t.events, ProgressRefreshed)
      && Count(events, ContractChanged) == Count(t.events, ContractChanged) + (if e.kind.ContractChanged? then 1 else 0)
      && Replay(events) == Next(t.state, e.kind)
  {
    hide SchemaPresent;
    SeenOnlyGrows(t.events, t.progresses, e);
    CountGrows(t.events, e, ProgressRefreshed);
    CountGrows(t.events, e, ContractChanged);
    ReplayGrows(t.events, e);
  }

  lemma MovedKept(t: Task, target: TaskState, payload: string)
    requires KeptTask(t) && AllowedTransition(t.state, target).Some?
    ensures t.active && KeptTask(Moved(t, target, AllowedTransition(t.state, target).value, payload))
  {
    hide SchemaPresent, LegacySchema, SeenOnly, Count, Replay, WatermarksGrow;
    var e := Event(AllowedTransition(t.state, target).value, payload, LegacySchema());
    DefaultSchemasPresent();
    AppendKept(t, e);
    AllowedMeansNext(t.state, target);
  }

  lemma WithContractKept(t: Task, c: Contract)
    requires KeptTask(t) && SchemaPresent(c.schema)
    ensures KeptTask(WithContract(t, c))
  {
    hide SchemaPresent, SeenOnly, Count, Replay, WatermarksGrow, ContractPayload;
    AppendKept(t, ContractEvent(|t.contracts| + 1, c));
  }

  predicate NotBehind(t: Task, p: Progress) {
    0 <= p.throughTask && 0 <= p.throughAgentRun
    && (t.progresses != [] ==>
          var last := t.progresses[|t.progresses| - 1];
          last.throughTask <= p.throughTask && last.throughAgentRun <= p.throughAgentRun)
  }

  lemma WatermarksGrowWith(t: Task, p: Progress)
    requires WatermarksGrow(t.progresses) && NotBehind(t, p)
    ensures WatermarksGrow(t.progresses + [p])
  {
    var all, n := t.progresses + [p], |t.progresses|;
    forall i, j | 0 <= i <= j < |all|
      ensures 0 <= all[i].throughTask <= all[j].throughTask && 0 <= all[i].throughAgentRun <= all[j].throughAgentRun
    {
      if i < n && j == n { assert t.progresses[i].throughTask <= t.progresses[n - 1].throughTask; }
    }
  }

  lemma WithProgressKept(t: Task, p: Progress)
    requires KeptTask(t) && SchemaPresent(p.schema) && p.throughTask <= |t.events|
    requires NotBehind(t, p)
    ensures KeptTask(WithProgress(t, p))
  {
    hide SchemaPresent, SeenOnly, Count, Replay, ProgressPayload, WatermarksGrow, NotBehind;
    WatermarksGrowWith(t, p);
    var e := ProgressEvent(|t.progresses|, p);
    SeenOnlyGrowsWith(t.events, t.progresses, e, p);
    CountGrows(t.events, e, ProgressRefreshed);
    CountGrows(t.events, e, ContractChanged);
    ReplayGrows(t.events, e);
  }

  /** Whatever the request and wherever it fails, every task stays kept and no agent comes to own two
      active tasks. */
  lemma PerformKeeps(v: Tasks, q: Request, fault: Fault)
    requires AllKept(v)
    ensures AllKept(Perform(v, q, fault))
  {
    hide KeptTask, SchemaPresent, IsObject, ValidEventPayload, AllowedTransition, Moved, WithContract, WithProgress,
      NewTask, NotBehind;
    var o := Outcome(v, q, fault);
    if o.Ok? {
      OutcomeKept(v, q, fault);
      OwnersAfter(v, q, fault);
    }
  }

  lemma OutcomeKept(v: Tasks, q: Request, fault: Fault)
    requires AllKept(v) && Outcome(v, q, fault).Ok?
    ensures KeptTask(Outcome(v, q, fault).value)
  {
    hide KeptTask, SchemaPresent, IsObject, ValidEventPayload, AllowedTransition, Moved, WithContract, WithProgress,
      NewTask;
    match q
    case CreateTask(id, agent, workspace, contract) => NewTaskKept(agent, workspace, contract);
    case TransitionTask(id, expected, target, payload) => MovedKept(v[id], target, payload);
    case UpdateContract(id, expected, version, c) => WithContractKept(v[id], c);
    case UpdateProgress(id, expected, version, p) => WithProgressKept(v[id], p);
  }

  /** A task keeps its owner for ever, and becomes active only by being created for a free agent. */
  lemma OwnersAfter(v: Tasks, q: Request, fault: Fault)
    requires Outcome(v, q, fault).Ok?
    ensures var t := Outcome(v, q, fault).value;
      if q.CreateTask? then q.id !in v && !Busy(v, t.agent)
      else q.id in v && t.agent == v[q.id].agent && (t.active ==> v[q.id].active)
  {
    hide SchemaPresent, IsObject, ValidEventPayload, AllowedTransition;
  }

  // ---- histories only grow -----------------------------------------------------------------------

  predicate TaskExtends(t: Task, u: Task) {
    t.contracts <= u.contracts && t.progresses <= u.progresses && t.events <= u.events
    && t.agent == u.agent && t.workspace == u.workspace && (u.active ==> t.active)
  }

  predicate Extends(v: Tasks, w: Tasks) { forall id :: id in v ==> id in w && TaskExtends(v[id], w[id]) }

  lemma PerformExtends(v: Tasks, q: Request, fault: Fault)
    ensures Extends(v, Perform(v, q, fault))
  {
    hide SchemaPresent, IsObject, ValidEventPayload, AllowedTransition, ContractPayload, ProgressPayload, LegacySchema;
  }

  lemma ExtendsTransitive(a: Tasks, b: Tasks, c: Tasks)
    requires Extends(a, b) && Extends(b, c)
    ensures Extends(a, c)
  {
    forall id | id in a ensures id in c && TaskExtends(a[id], c[id]) {
      assert id in b && TaskExtends(a[id], b[id]) && TaskExtends(b[id], c[id]);
    }
  }

  // ---- concurrent transactions --------------------------------------------------------------------

  /** The committed tasks, and what each open transaction saw when it began. */
  datatype System = System(tasks: Tasks, bases: map<nat, Tasks>)

  datatype Move = Begin(tx: nat) | Finish(tx: nat, q: Request, fault: Fault) | Abandon(tx: nat)

  datatype Entry = Entry(q: Request, result: Result<Task, Failure>, after: Tasks)

  /** A transaction works on what it saw; it commits only if nothing was committed since. */
  function Attempt(s: System, tx: nat, q: Request, fault: Fault): Result<Task, Failure> {
    if tx !in s.bases then Err(Storage)
    else if s.bases[tx] != s.tasks then
      match Outcome(s.bases[tx], q, fault)
      case Err(f) => Err(f)
      case Ok(_) => Err(Conflict)
    else Outcome(s.bases[tx], q, fault)
  }

  function Step(s: System, m: Move): System {
    match m
    case Begin(tx) => s.(bases := s.bases[tx := s.tasks])
    case Abandon(tx) => s.(bases := s.bases - {tx})
    case Finish(tx, q, fault) =>
      System(match Attempt(s, tx, q, fault) case Ok(t) => s.tasks[q.id := t] case Err(_) => s.tasks, s.bases - {tx})
  }

  function Entries(s: System, m: Move): seq<Entry> {
    match m
    case Finish(tx, q, fault) => [Entry(q, Attempt(s, tx, q, fault), Step(s, m).tasks)]
    case _ => []
  }

  function Run(s: System, moves: seq<Move>): System
    decreases |moves|
  {
    if moves == [] then s else Run(Step(s, moves[0]), moves[1..])
  }

  /** What each finished transaction asked, was answered and left behind. */
  function Log(s: System, moves: seq<Move>): seq<Entry>
    decreases |moves|
  {
    if moves == [] then [] else Entries(s, moves[0]) + Log(Step(s, moves[0]), moves[1..])
  }

  lemma StepIsPerform(s: System, m: Move)
    ensures Step(s, m).tasks == s.tasks || exists q, fault :: Step(s, m).tasks == Perform(s.tasks, q, fault)
  {
    hide Outcome;
    if m.Finish? && Attempt(s, m.tx, m.q, m.fault).Ok? { assert Step(s, m).tasks == Perform(s.tasks, m.q, m.fault); }
  }

  lemma StepKeeps(s: System, m: Move)
    ensures Extends(s.tasks, Step(s, m).tasks)
    ensures AllKept(s.tasks) ==> AllKept(Step(s, m).tasks)
  {
    hide Step, Perform, AllKept, TaskExtends;
    StepIsPerform(s, m);
    if Step(s, m).tasks == s.tasks {
      assert Extends(s.tasks, s.tasks) by { ExtendsItself(s.tasks); }
    } else {
      var q, fault :| Step(s, m).tasks == Perform(s.tasks, q, fault);
      PerformExtends(s.tasks, q, fault);
      if AllKept(s.tasks) { PerformKeeps(s.tasks, q, fault); }
    }
  }

  lemma ExtendsItself(v: Tasks)
    ensures Extends(v, v)
  {
  }

  /** Under every interleaving: tasks stay kept, and every earlier committed state is a prefix of
      every later one. */
  lemma {:induction false} RunKeeps(s: System, moves: seq<Move>)
    ensures Extends(s.tasks, Run(s, moves).tasks)
    ensures AllKept(s.tasks) ==> AllKept(Run(s, moves).tasks)
    decreases |moves|
  {
    hide Step, AllKept, Extends;
    if moves == [] {
      ExtendsItself(s.tasks);
    } else {
      StepKeeps(s, moves[0]);
      RunKeeps(Step(s, moves[0]), moves[1..]);
      ExtendsTransitive(s.tasks, Step(s, moves[0]).tasks, Run(s, moves).tasks);
    }
  }

  /** The update a request asks for: the task and the version it expects to replace. */
  predicate SameUpdate(p: Request, q: Request) {
    p.id == q.id && ((p.UpdateContract? && q.UpdateContract? && p.expectedVersion == q.expectedVersion)
                     || (p.UpdateProgress? && q.UpdateProgress? && p.expectedVersion == q.expectedVersion)
                     || (p.CreateTask? && q.CreateTask?))
  }

  /** The versions are already past the one the request expects. */
  predicate Overtaken(v: Tasks, q: Request) {
    q.id in v && match q
                 case CreateTask(_, _, _, _) => true
                 case TransitionTask(_, _, _, _) => false
                 case UpdateContract(id, expected, _, _) => |v[id].contracts| > expected
                 case UpdateProgress(id, expected, _, _) => |v[id].progresses| - 1 > expected
  }

  lemma OvertakenForEver(v: Tasks, w: Tasks, q: Request)
    requires Extends(v, w) && Overtaken(v, q)
    ensures Overtaken(w, q)
  {
    assert TaskExtends(v[q.id], w[q.id]);
  }

  lemma SuccessOvertakes(v: Tasks, q: Request, fault: Fault, p: Request)
    requires Outcome(v, q, fault).Ok? && SameUpdate(q, p)
    ensures !Overtaken(v, q) && Overtaken(Perform(v, q, fault), p)
  {
    hide SchemaPresent, IsObject, ContractPayload, ProgressPayload;
  }

  lemma OvertakenFails(s: System, tx: nat, q: Request, fault: Fault)
    requires Overtaken(s.tasks, q)
    ensures Attempt(s, tx, q, fault).Err?
  {
    hide SchemaPresent, IsObject, AllowedTransition, ValidEventPayload;
  }

  lemma {:induction false} OvertakenNeverSucceeds(s: System, moves: seq<Move>, q: Request, i: nat)
    requires Overtaken(s.tasks, q) && i < |Log(s, moves)| && SameUpdate(q, Log(s, moves)[i].q)
    ensures Log(s, moves)[i].result.Err?
    decreases |moves|
  {
    hide Step, Attempt, Extends, Overtaken;
    var m := moves[0];
    var first := Entries(s, m);
    if i < |first| {
      assert Log(s, moves)[i] == first[i];
      SameOvertaken(s.tasks, q, m.q);
      OvertakenFails(s, m.tx, m.q, m.fault);
    } else {
      StepKeeps(s, m);
      OvertakenForEver(s.tasks, Step(s, m).tasks, q);
      OvertakenNeverSucceeds(Step(s, m), moves[1..], q, i - |first|);
    }
  }

  lemma SameOvertaken(v: Tasks, q: Request, p: Request)
    requires Overtaken(v, q) && SameUpdate(q, p)
    ensures Overtaken(v, p)
  {
  }

  /** Of all the transactions that ask for the same update of the same version of the same task, at
      most one ever succeeds, however they interleave. */
  lemma {:induction false} AtMostOneWinner(s: System, moves: seq<Move>, i: nat, j: nat)
    requires i < j < |Log(s, moves)| && SameUpdate(Log(s, moves)[i].q, Log(s, moves)[j].q)
    ensures Log(s, moves)[i].result.Err? || Log(s, moves)[j].result.Err?
    decreases |moves|
  {
    hide Step, Attempt, Extends, Overtaken;
    var m := moves[0];
    var first := Entries(s, m);
    assert i >= |first| ==> Log(s, moves)[i] == Log(Step(s, m), moves[1..])[i - |first|];
    assert j >= |first| ==> Log(s, moves)[j] == Log(Step(s, m), moves[1..])[j - |first|];
    if i >= |first| {
      AtMostOneWinner(Step(s, m), moves[1..], i - |first|, j - |first|);
    } else {
      assert Log(s, moves)[i] == first[i];
      if first[i].result.Ok? {
        SucceededStep(s, m.tx, m.q, m.fault, m.q);
        SameUpdateItself(m.q, Log(s, moves)[j].q);
        OvertakenNeverSucceeds(Step(s, m), moves[1..], m.q, j - |first|);
      }
    }
  }

  lemma SameUpdateItself(q: Request, p: Request)
    requires SameUpdate(q, p)
    ensures SameUpdate(q, q)
  {
  }

  lemma SucceededStep(s: System, tx: nat, q: Request, fault: Fault, p: Request)
    requires Attempt(s, tx, q, fault).Ok? && SameUpdate(q, q)
    ensures Overtaken(Step(s, Finish(tx, q, fault)).tasks, q)
  {
    hide Outcome, Overtaken;
    SuccessOvertakes(s.tasks, q, fault, q);
  }

  /** A transaction that fails leaves nothing behind: its retry does what the first try would have
      done, with the same version and the next event number. */
  lemma RetryLeavesNoGap(v: Tasks, q: Request, fault: Fault)
    requires Outcome(v, q, fault).Err? && Outcome(v, q, NoFault).Ok?
    ensures Perform(v, q, fault) == v && Perform(Perform(v, q, fault), q, NoFault) == Perform(v, q, NoFault)
    ensures q.UpdateContract? ==> |Perform(v, q, NoFault)[q.id].contracts| == q.version == |v[q.id].contracts| + 1
    ensures q.UpdateProgress? ==> |Perform(v, q, NoFault)[q.id].progresses| - 1 == q.version == |v[q.id].progresses|
    ensures !q.CreateTask? ==> |Perform(v, q, NoFault)[q.id].events| == |v[q.id].events| + 1
  {
    hide SchemaPresent, IsObject, ContractPayload, ProgressPayload, AllowedTransition, ValidEventPayload;
  }
}
