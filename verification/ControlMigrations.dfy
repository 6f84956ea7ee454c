/** Opening a database of an earlier version: the rewriting of its tables and what they then hold. */
module ControlMigrations {
  import opened Text
  import opened ControlTasks
  import opened ControlTables

  /** Version 1: tasks have no state and owners are never released. */
  datatype TablesOne = TablesOne(
    tasks: set<string>, owners: map<string, string>, workspaces: map<string, string>,
    contracts: map<string, Contract>, progress: set<string>, events: map<Key, Kind>)

  /** Version 2: contracts stay at version 1 and progress at version 0. */
  datatype TablesTwo = TablesTwo(
    states: map<string, TaskState>, owners: map<string, Owner>, workspaces: map<string, string>,
    contracts: map<string, Contract>, progress: set<string>, events: map<Key, (Kind, string)>)

  /** Half is what version 1 tables become if they are marked as version 2: they get histories and
      schemas, but no states. */
  datatype Content = Nothing | One(one: TablesOne) | Two(two: TablesTwo) | Half(one: TablesOne) | Three(db: Tables)

  // ---- the rewriting ------------------------------------------------------------------------------

  /** The unique index on the owners not released can be built. */
  predicate OwnersDistinct(owners: map<string, Owner>) {
    forall a, b | a in owners && b in owners && !owners[a].released && !owners[b].released
                  && owners[a].agent == owners[b].agent :: a == b
  }

  function AddLifecycle(one: TablesOne): TablesTwo {
    TablesTwo(map id | id in one.tasks :: Ready, map id | id in one.owners :: Owner(one.owners[id], false),
      one.workspaces,
              one.contracts, one.progress, map k | k in one.events :: (one.events[k], "{}"))
  }

  function FirstContracts(contracts: map<string, Contract>): map<Key, Contract> {
    map id | id in contracts :: Key(id, 1) := contracts[id]
  }

  function FirstProgress(ids: set<string>, p: Progress): map<Key, Progress> {
    map id | id in ids :: Key(id, 0) := p
  }

  function LegacyEvents(two: TablesTwo): map<Key, Event> {
    map k | k in two.events :: Event(two.events[k].0, two.events[k].1, LegacySchema())
  }

  function AddVersions(two: TablesTwo): Tables {
    Tables(two.states, two.owners, two.workspaces,
           map id | id in two.contracts :: ContractRow(1,
             two.contracts[id]), map id | id in two.progress :: ProgressRow(0, InitialProgress()),
           FirstContracts(two.contracts), FirstProgress(two.progress, InitialProgress()),
           LegacyEvents(two))
  }

  /** The tables a migration of this content ends with, or None if a statement of it fails. */
  function Migrated(c: Content): Option<Tables> {
    match c
    case Nothing => Some(NoTables())
    case One(one) => var two := AddLifecycle(one); if OwnersDistinct(two.owners) then Some(AddVersions(two)) else None
    case Two(two) => Some(AddVersions(two))
    case Half(_) => None
    case Three(db) => Some(db)
  }

  /** The version rows a content is marked with. */
  predicate MarkedAs(versions: seq<int>, c: Content) {
    match c
    case Nothing => versions == []
    case One(_) => versions == [1]
    case Two(_) => versions == [2]
    case Half(_) => false
    case Three(_) => versions == [3]
  }

  predicate Supported(versions: seq<int>) { versions == [] || versions == [1] || versions == [2] || versions == [3] }

  /** The statements of a migration on any content, marked as it is; None if one of them fails, on a
      table that exists already or not yet, a column that does, or an index that cannot be built. */
  function Upgrade(versions: seq<int>, c: Content): Option<Content> {
    if versions == [] then if c.Nothing? then Some(Three(NoTables())) else None
    else if versions == [1] then
      if c.One? && OwnersDistinct(AddLifecycle(c.one).owners) then
        Some(Three(AddVersions(AddLifecycle(c.one))))
      else None
    else if versions == [2] then
      if c.Two? then Some(Three(AddVersions(c.two))) else if c.One? then Some(Half(c.one)) else None
    else if versions == [3] then Some(c) else None
  }

  /** A fault of a stage that this migration reaches; at version 3 nothing is written. */
  predicate Hit(fault: Fault, versions: seq<int>) {
    fault.FaultAt?
    && (fault.stage.Beginning? || fault.stage.Reading? || fault.stage.Committing?
        || (versions != [3] && (fault.stage.FirstWrite? || fault.stage.SecondWrite?)))
  }

  class ControlFile {
    var versions: seq<int>
    var content: Content

    constructor (versions: seq<int>, content: Content)
      ensures this.versions == versions && this.content == content
    {
      this.versions, this.content := versions, content;
    }

    /** One transaction: the file is fully migrated or exactly as it was; if it was marked as what it
        holds, it then holds the migrated tables. */
    method Migrate(fault: Fault) returns (ok: bool)
      modifies this
      ensures ok <==> !Hit(fault, old(versions)) && Upgrade(old(versions), old(content)).Some?
      ensures if ok then versions == [3] && content == Upgrade(old(versions), old(content)).value else unchanged(this)
      ensures old(MarkedAs(versions, content)) ==>
                (ok <==> !Hit(fault, old(versions)) && Migrated(old(content)).Some?)
                && (ok ==> content == Three(Migrated(old(content)).value))
    {
      hide AddVersions, AddLifecycle, OwnersDistinct;
      if Fails(fault, Beginning) || Fails(fault, Reading) { return false; }
      var tx, marks := content, versions;
      var count := |versions|;
      if count == 0 {
        if Fails(fault, FirstWrite) || !tx.Nothing? { return false; }
        tx := Three(NoTables());
        if Fails(fault, SecondWrite) { return false; }
        marks := [3];
      } else if count == 1 && versions[0] == 1 {
        if Fails(fault, FirstWrite) || !tx.One? { return false; }
        var two := AddLifecycle(tx.one);
        if !OwnersDistinct(two.owners) { return false; }
        tx := Three(AddVersions(two));
        if Fails(fault, SecondWrite) { return false; }
        marks := [3];
      } else if count == 1 && versions[0] == 2 {
        if Fails(fault, FirstWrite) || !(tx.Two? || tx.One?) { return false; }
        tx := if tx.Two? then Three(AddVersions(tx.two)) else Half(tx.one);
        if Fails(fault, SecondWrite) { return false; }
        marks := [3];
      } else if count != 1 || versions[0] != 3 {
        return false;
      }
      if Fails(fault, Committing) { return false; }
      content, versions := tx, marks;
      ok := true;
    }
  }

  // ---- what well-formed databases stand for ----------------------------------------------------------

  /** A version 2 database holds these tasks. */
  ghost predicate HoldsTwo(two: TablesTwo, v: Tasks) {
    two.states.Keys == v.Keys && two.owners.Keys == v.Keys && two.workspaces.Keys == v.Keys
      && two.contracts.Keys == v.Keys && two.progress == v.Keys
    && (forall id :: id in v ==> TaskTwo(two, id, v[id]))
    && Lists(LegacyEvents(two), EventLists(v), 1)
  }

  predicate TaskTwo(two: TablesTwo, id: string, t: Task) {
    id in two.states && id in two.owners && id in two.workspaces && id in two.contracts
    && two.states[id] == t.state && two.owners[id] == Owner(t.agent, !t.active) && two.workspaces[id] == t.workspace
    && t.contracts == [two.contracts[id]] && t.progresses == [InitialProgress()]
  }

  /** What version 1 of the program wrote: tasks as they are created, and nothing else. */
  predicate WrittenByOne(one: TablesOne) {
    one.owners.Keys == one.tasks && one.workspaces.Keys == one.tasks && one.contracts.Keys == one.tasks
      && one.progress == one.tasks
    && (forall k :: k in one.events ==> k.task in one.tasks && (k.number == 1 || k.number == 2))
    && forall id :: id in one.tasks ==>
         Key(id, 1) in one.events && one.events[Key(id, 1)] == TaskCreated && Key(id, 2) in one.events
           && one.events[Key(id, 2)] == OwnerAssigned
  }

  function TasksOfOne(one: TablesOne): Tasks
    requires WrittenByOne(one)
  {
    map id | id in one.tasks :: NewTask(one.owners[id], one.workspaces[id], one.contracts[id])
  }

  lemma LifecycleEvents(one: TablesOne)
    requires WrittenByOne(one)
    ensures Lists(LegacyEvents(AddLifecycle(one)), EventLists(TasksOfOne(one)), 1)
  {
    hide WrittenByOne, LegacyEvents, AddLifecycle, EventLists, TasksOfOne;
    var table, lists := LegacyEvents(AddLifecycle(one)), EventLists(TasksOfOne(one));
    forall k: Key
      ensures (k in table <==> k.task in lists && 1 <= k.number < 1 + |lists[k.task]|)
              && (k in table ==> table[k] == lists[k.task][k.number - 1])
    {
      LifecycleEvent(one, k);
    }
  }

  lemma LifecycleEvent(one: TablesOne, k: Key)
    requires WrittenByOne(one)
    ensures var table, lists := LegacyEvents(AddLifecycle(one)), EventLists(TasksOfOne(one));
      (k in table <==> k.task in lists && 1 <= k.number < 1 + |lists[k.task]|)
      && (k in table ==> table[k] == lists[k.task][k.number - 1])
  {
    EventOfOne(one, k);
    hide LegacySchema, InitialProgress;
    var lists := EventLists(TasksOfOne(one));
    if k.task in one.tasks { assert lists[k.task] == [PlainEvent(TaskCreated), PlainEvent(OwnerAssigned)]; }
  }

  lemma LifecycleTask(one: TablesOne, id: string)
    requires WrittenByOne(one) && id in one.tasks
    ensures TaskTwo(AddLifecycle(one), id, TasksOfOne(one)[id])
  {
    hide InitialProgress, PlainEvent;
  }

  lemma AddLifecycleHolds(one: TablesOne)
    requires WrittenByOne(one)
    ensures HoldsTwo(AddLifecycle(one), TasksOfOne(one))
  {
    hide InitialProgress, PlainEvent, LegacySchema, TaskTwo, Lists, NewTask;
    LifecycleEvents(one);
    var two, v := AddLifecycle(one), TasksOfOne(one);
    forall id | id in v ensures TaskTwo(two, id, v[id]) { LifecycleTask(one, id); }
    assert two.states.Keys == v.Keys && two.owners.Keys == v.Keys;
  }

  lemma EventOfOne(one: TablesOne, k: Key)
    requires WrittenByOne(one)
    ensures k in one.events <==> k.task in one.tasks && 1 <= k.number < 3
    ensures k in one.events ==> one.events[k] == (if k.number == 1 then TaskCreated else OwnerAssigned)
  {
    if k.task in one.tasks && 1 <= k.number < 3 { assert k == Key(k.task, 1) || k == Key(k.task, 2); }
    if k in one.events { assert k == Key(k.task, 1) || k == Key(k.task, 2); }
  }

  lemma AddVersionsRows(two: TablesTwo, v: Tasks)
    requires HoldsTwo(two, v)
    ensures SameTasks(AddVersions(two), v) && forall id :: id in v ==> CurrentRows(AddVersions(two), id, v[id])
  {
    hide InitialProgress, LegacySchema, Lists;
    var db := AddVersions(two);
    assert db.contracts.Keys == two.contracts.Keys && db.progress.Keys == two.progress;
    forall id | id in v ensures CurrentRows(db, id, v[id]) { assert TaskTwo(two, id, v[id]); }
  }

  lemma AddContractHistory(two: TablesTwo, v: Tasks)
    requires two.contracts.Keys == v.Keys && forall id :: id in v ==> v[id].contracts == [two.contracts[id]]
    ensures Lists(FirstContracts(two.contracts), ContractLists(v), 1)
  {
    var table := FirstContracts(two.contracts);
    var lists := ContractLists(v);
    forall k: Key
      ensures (k in table <==> k.task in lists && 1 <= k.number < 1 + |lists[k.task]|)
              && (k in table ==> table[k] == lists[k.task][k.number - 1])
    {
      if k.task in v { assert lists[k.task] == [two.contracts[k.task]] && Key(k.task, 1) in table; }
    }
  }

  lemma AddProgressHistory(ids: set<string>, v: Tasks, p: Progress)
    requires ids == v.Keys && forall id :: id in v ==> v[id].progresses == [p]
    ensures Lists(FirstProgress(ids, p), ProgressLists(v), 0)
  {
    var table := FirstProgress(ids, p);
    var lists := ProgressLists(v);
    forall k: Key
      ensures (k in table <==> k.task in lists && 0 <= k.number < 0 + |lists[k.task]|)
              && (k in table ==> table[k] == lists[k.task][k.number - 0])
    {
      if k.task in v { assert lists[k.task] == [p] && Key(k.task, 0) in table; }
    }
  }

  lemma AddVersionsHistories(two: TablesTwo, v: Tasks)
    requires HoldsTwo(two, v)
    ensures Lists(AddVersions(two).contractHistory, ContractLists(v), 1)
      && Lists(AddVersions(two).progressHistory, ProgressLists(v), 0)
  {
    hide InitialProgress, LegacySchema, Lists, LegacyEvents;
    forall id | id in v
      ensures v[id].contracts == [two.contracts[id]] && v[id].progresses == [InitialProgress()]
    {
      assert TaskTwo(two, id, v[id]);
    }
    AddContractHistory(two, v);
    AddProgressHistory(two.progress, v, InitialProgress());
  }

  /** A version 2 database keeps the very same tasks when it is migrated. */
  lemma AddVersionsRepresents(two: TablesTwo, v: Tasks)
    requires HoldsTwo(two, v)
    ensures Represents(AddVersions(two), v)
  {
    hide Lists, SameTasks, CurrentRows, InitialProgress, LegacySchema;
    AddVersionsRows(two, v);
    AddVersionsHistories(two, v);
  }

  /** Exactly the version 1 databases in which no agent owns two tasks can be migrated; their tasks
      become kept tasks, ready and owned. */
  lemma MigrateOne(one: TablesOne)
    requires WrittenByOne(one)
    ensures Migrated(One(one)).Some?
      <==> forall a, b :: a in one.tasks && b in one.tasks && one.owners[a] == one.owners[b] ==> a == b
    ensures Migrated(One(one)).Some? ==>
      Represents(Migrated(One(one)).value, TasksOfOne(one)) && AllKept(TasksOfOne(one))
  {
    hide Represents, HoldsTwo, KeptTask, NewTask, AddVersions;
    var two, v := AddLifecycle(one), TasksOfOne(one);
    AddLifecycleHolds(one);
    assert OwnersDistinct(two.owners)
      <==> forall a, b :: a in one.tasks && b in one.tasks && one.owners[a] == one.owners[b] ==> a == b by {
      if OwnersDistinct(two.owners) {
        forall a, b | a in one.tasks && b in one.tasks && one.owners[a] == one.owners[b]
          ensures a == b
        {
          assert a in two.owners && b in two.owners;
        }
      }
    }
    if OwnersDistinct(two.owners) {
      AddVersionsRepresents(two, v);
      forall id | id in v
        ensures KeptTask(v[id])
      {
        NewTaskKept(one.owners[id], one.workspaces[id], one.contracts[id]);
      }
      NewTasksHaveOwners(one);
    }
  }

  lemma NewTasksHaveOwners(one: TablesOne)
    requires WrittenByOne(one)
      && forall a, b :: a in one.tasks && b in one.tasks && one.owners[a] == one.owners[b] ==> a == b
    ensures OneActiveTaskEach(TasksOfOne(one))
  {
    hide InitialProgress, PlainEvent;
  }

  /** The tasks that a database holds before it is migrated. */
  ghost predicate HoldsTasks(c: Content, v: Tasks) {
    match c
    case Nothing => v == map[]
    case One(one) => WrittenByOne(one) && v == TasksOfOne(one)
    case Two(two) => HoldsTwo(two, v) && AllKept(v)
    case Half(_) => false
    case Three(db) => Represents(db, v) && AllKept(v)
  }

  lemma MigratedIsKept(c: Content, v: Tasks)
    requires HoldsTasks(c, v) && Migrated(c).Some?
    ensures Represents(Migrated(c).value, v) && AllKept(v)
  {
    hide HoldsTwo, WrittenByOne, KeptTask, TasksOfOne, AddVersions, AddLifecycle, OwnersDistinct;
    match c
    case Nothing =>
    case One(one) => MigrateOne(one);
    case Two(two) => AddVersionsRepresents(two, v);
    case Three(db) =>
  }

  /** A migrated database holds exactly the tables of its tasks; and from there, under every interleaving
      of transactions that fail where they may, the tables hold every task, each is kept, and each is
      recovered as it is if and only if its first contract names its schema completely. */
  lemma MigratedRunsRecover(c: Content, v: Tasks, moves: seq<Move>, db: Tables, id: string)
    requires HoldsTasks(c, v) && Migrated(c).Some?
    ensures Versioned(v) && Migrated(c).value == TablesOf(v)
    ensures var w := Run(System(v, map[]), moves).tasks;
      AllKept(w) && Versioned(w) && Extends(v, w) && (Represents(db, w) <==> db == TablesOf(w))
      && Recover(TablesOf(w), id)
         == if id !in w then Err(Storage)
            else if SchemaPresent(w[id].contracts[0].schema) then Ok(RecoveredOf(w[id])) else Err(Corrupt)
  {
    hide Represents, HoldsTasks, AllKept, Migrated, Recover, SchemaPresent, TablesOf, Run, Extends;
    MigratedIsKept(c, v);
    OnlyTables(Migrated(c).value, v);
    RunKeeps(System(v, map[]), moves);
    var w := Run(System(v, map[]), moves).tasks;
    KeptAreVersioned(w);
    TablesStand(w);
    if Represents(db, w) { OnlyTables(db, w); }
    RecoverExactly(TablesOf(w), w, id);
  }

  /** What the tasks of a version 1 database are: ready, with the owner, workspace and contract they had, the
      initial progress, and their events under the legacy schema. */
  lemma MigratedSays(one: TablesOne, id: string)
    requires WrittenByOne(one) && id in one.tasks
    ensures id in TasksOfOne(one)
    ensures var t := TasksOfOne(one)[id];
      t.state == Ready && t.active && t.agent == one.owners[id] && t.workspace == one.workspaces[id]
      && t.contracts == [one.contracts[id]] && |t.progresses| == 1 && t.progresses[0].payload == "{}"
      && |t.events| == 2 && t.events[0].kind == TaskCreated && t.events[1].kind == OwnerAssigned
  {
  }
}
