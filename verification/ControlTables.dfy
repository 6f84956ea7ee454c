/** The control plane's tables, the transactions that rewrite them row by row, the recovery read and
    the migrations; all of it refines the tasks of module ControlTasks. */
module ControlTables {
  import opened Text
  import opened ControlTasks

  // ---- tables -----------------------------------------------------------------------------------

  /** A primary key (task_id, version) or (task_id, sequence). */
  datatype Key = Key(task: string, number: int)

  datatype Owner = Owner(agent: string, released: bool)

  datatype ContractRow = ContractRow(version: int, value: Contract)

  datatype ProgressRow = ProgressRow(version: int, value: Progress)

  datatype Tables = Tables(
    states: map<string, TaskState>, owners: map<string, Owner>, workspaces: map<string, string>,
    contracts: map<string, ContractRow>, progress: map<string, ProgressRow>,
    contractHistory: map<Key, Contract>, progressHistory: map<Key, Progress>, events: map<Key, Event>)

  function NoTables(): Tables { Tables(map[], map[], map[], map[], map[], map[], map[], map[]) }

  // ---- numbered rows ----------------------------------------------------------------------------

  /** The numbers of a task's rows. */
  function Numbers<T>(table: map<Key, T>, task: string): set<int> { set k | k in table && k.task == task :: k.number }

  function Greatest(s: set<int>): (m: int)
    requires s != {}
    ensures m in s && forall n :: n in s ==> n <= m
  {
    GreatestExists(s);
    var m :| m in s && forall n :: n in s ==> n <= m;
    m
  }

  lemma {:induction false} GreatestExists(s: set<int>)
    requires s != {}
    ensures exists m :: m in s && forall n :: n in s ==> n <= m
    decreases |s|
  {
    assert (forall x :: x !in s) ==> s == {};
    var x :| x in s;
    if s == {x} {
    } else {
      GreatestExists(s - {x});
      var y :| y in s - {x} && forall n :: n in s - {x} ==> n <= y;
      var m := if x <= y then y else x;
      forall n | n in s ensures n <= m { if n != x { assert n in s - {x}; } }
    }
  }

  /** COALESCE(MAX(number), 0). */
  function MaxNumber<T>(table: map<Key, T>, task: string): int {
    var s := Numbers(table, task);
    if s == {} then 0 else Greatest(s)
  }

  /** ORDER BY number. */
  function Ascending(s: set<int>): (l: seq<int>)
    ensures |l| == |s| && forall n :: n in l <==> n in s
    ensures forall i, j :: 0 <= i < j < |l| ==> l[i] < l[j]
  {
    if s == {} then [] else
    var m := Greatest(s);
    AppendGreatest(Ascending(s - {m}), s, m)
  }

  function AppendGreatest(l: seq<int>, s: set<int>, m: int): (r: seq<int>)
    requires |l| == |s - {m}| && (forall n :: n in l <==> n in s - {m}) && m in s && (forall n :: n in s ==> n <= m)
    requires forall i, j :: 0 <= i < j < |l| ==> l[i] < l[j]
    ensures r == l + [m] && |r| == |s| && (forall n :: n in r <==> n in s)
    ensures forall i, j :: 0 <= i < j < |r| ==> r[i] < r[j]
  {
    assert forall i :: 0 <= i < |l| ==> l[i] in l;
    l + [m]
  }

  function Rows<T>(table: map<Key, T>, task: string): seq<(int, T)> {
    var l := Ascending(Numbers(table, task));
    assert forall i :: 0 <= i < |l| ==> l[i] in l;
    seq(|l|, i requires 0 <= i < |l| => (l[i], table[Key(task, l[i])]))
  }

  /** The n numbers from `first` on. */
  function Range(first: int, n: nat): (s: set<int>)
    ensures |s| == n && forall x :: x in s <==> first <= x < first + n
  {
    if n == 0 then {} else Range(first, n - 1) + {first + n - 1}
  }

  /** The table holds exactly the elements of the lists, numbered from `first`. */
  ghost predicate Lists<T>(table: map<Key, T>, lists: map<string, seq<T>>, first: int) {
    forall k :: (k in table <==> k.task in lists && first <= k.number < first + |lists[k.task]|)
                && (k in table ==> table[k] == lists[k.task][k.number - first])
  }

  lemma ListedNumbers<T>(table: map<Key, T>, lists: map<string, seq<T>>, first: int, task: string)
    requires Lists(table, lists, first) && task in lists
    ensures Numbers(table, task) == Range(first, |lists[task]|)
  {
    forall n | first <= n < first + |lists[task]| ensures n in Numbers(table, task) { assert Key(task, n) in table; }
  }

  lemma ListedMax<T>(table: map<Key, T>, lists: map<string, seq<T>>, task: string)
    requires Lists(table, lists, 1) && task in lists
    ensures MaxNumber(table, task) == |lists[task]|
  {
    ListedNumbers(table, lists, 1, task);
    if lists[task] != [] { assert |lists[task]| in Numbers(table, task); }
  }

  /** Rows read in order are the list, numbered. */
  lemma ListedRows<T>(table: map<Key, T>, lists: map<string, seq<T>>, first: int, task: string)
    requires Lists(table, lists, first) && task in lists
    ensures var rows := Rows(table, task);
      |rows| == |lists[task]| && forall i :: 0 <= i < |rows| ==> rows[i] == (first + i, lists[task][i])
  {
    hide Numbers, Ascending, Range, Rows, Lists;
    var list := lists[task];
    var n := |list|;
    ListedNumbers(table, lists, first, task);
    var l := Ascending(Numbers(table, task));
    AscendingRange(l, first, n);
    forall i | 0 <= i < n ensures RowIs(table, task, first + i, list[i]) {
      ListedAt(table, lists, first, task, i);
    }
    RowsAre(table, task, list, first, l);
  }

  predicate RowIs<T(==)>(table: map<Key, T>, task: string, number: int, x: T) {
    Key(task, number) in table && table[Key(task, number)] == x
  }

  lemma RowsAre<T>(table: map<Key, T>, task: string, list: seq<T>, first: int, l: seq<int>)
    requires l == Ascending(Numbers(table, task)) && |l| == |list| && forall i :: 0 <= i < |l| ==> l[i] == first + i
    requires forall i :: 0 <= i < |list| ==> RowIs(table, task, first + i, list[i])
    ensures var rows := Rows(table, task);
      |rows| == |list| && forall i :: 0 <= i < |rows| ==> rows[i] == (first + i, list[i])
  {
    hide Numbers, Ascending;
  }

  lemma ListedAt<T>(table: map<Key, T>, lists: map<string, seq<T>>, first: int, task: string, i: nat)
    requires Lists(table, lists, first) && task in lists && i < |lists[task]|
    ensures Key(task, first + i) in table && table[Key(task, first + i)] == lists[task][i]
  {
    assert Key(task, first + i) in table;
  }

  lemma AscendingRange(l: seq<int>, first: int, n: nat)
    requires |l| == n && forall x :: x in l <==> first <= x < first + n
    requires forall i, j :: 0 <= i < j < |l| ==> l[i] < l[j]
    ensures forall i :: 0 <= i < n ==> l[i] == first + i
  {
    forall i | 0 <= i < n ensures l[i] == first + i {
      AtLeast(l, first, i);
      AtMost(l, first + n, n - 1 - i);
    }
  }

  lemma {:induction false} AtLeast(l: seq<int>, first: int, i: nat)
    requires i < |l| && (forall x :: x in l ==> first <= x) && forall i, j :: 0 <= i < j < |l| ==> l[i] < l[j]
    ensures first + i <= l[i]
  {
    if i > 0 { AtLeast(l, first, i - 1); } else { assert l[0] in l; }
  }

  lemma {:induction false} AtMost(l: seq<int>, end: int, back: nat)
    requires back < |l| && (forall x :: x in l ==> x < end) && forall i, j :: 0 <= i < j < |l| ==> l[i] < l[j]
    ensures l[|l| - 1 - back] <= end - 1 - back
  {
    if back > 0 { AtMost(l, end, back - 1); } else { assert l[|l| - 1] in l; }
  }

  lemma NotListed<T>(table: map<Key, T>, lists: map<string, seq<T>>, first: int, task: string)
    requires Lists(table, lists, first) && task in lists
    ensures Key(task, first + |lists[task]|) !in table
  {
  }

  lemma ListsAppend<T>(table: map<Key, T>, lists: map<string, seq<T>>, first: int, task: string, x: T)
    requires Lists(table, lists, first) && task in lists
    ensures Lists(table[Key(task, first + |lists[task]|) := x], lists[task := lists[task] + [x]], first)
  {
    var table', lists' := table[Key(task, first + |lists[task]|) := x], lists[task := lists[task] + [x]];
    forall k: Key
      ensures (k in table' <==> k.task in lists' && first <= k.number < first + |lists'[k.task]|)
              && (k in table' ==> table'[k] == lists'[k.task][k.number - first])
    {
      assert k in table <==> k.task in lists && first <= k.number < first + |lists[k.task]|;
    }
  }

  lemma ListsStart<T>(table: map<Key, T>, lists: map<string, seq<T>>, first: int, task: string, x: T)
    requires Lists(table, lists, first) && task !in lists
    ensures Lists(table[Key(task, first) := x], lists[task := [x]], first)
  {
    var table', lists' := table[Key(task, first) := x], lists[task := [x]];
    forall k: Key
      ensures (k in table' <==> k.task in lists' && first <= k.number < first + |lists'[k.task]|)
              && (k in table' ==> table'[k] == lists'[k.task][k.number - first])
    {
      assert k in table <==> k.task in lists && first <= k.number < first + |lists[k.task]|;
    }
  }

  // ---- what the tables stand for --------------------------------------------------------------------

  function ContractLists(v: Tasks): map<string, seq<Contract>> { map id | id in v :: v[id].contracts }
  function ProgressLists(v: Tasks): map<string, seq<Progress>> { map id | id in v :: v[id].progresses }
  function EventLists(v: Tasks): map<string, seq<Event>> { map id | id in v :: v[id].events }

  /** The joins of readCreation, readLifecycle and readRecoveredTask have a row only if every table does. */
  predicate Joined(db: Tables, id: string) {
    id in db.states && id in db.owners && id in db.workspaces && id in db.contracts && id in db.progress
  }

  /** The current rows of one task. */
  predicate CurrentRows(db: Tables, id: string, t: Task) {
    Joined(db, id) && db.states[id] == t.state && db.owners[id] == Owner(t.agent, !t.active)
      && db.workspaces[id] == t.workspace
    && t.contracts != [] && db.contracts[id] == ContractRow(|t.contracts|, t.contracts[|t.contracts| - 1])
    && t.progresses != [] && db.progress[id] == ProgressRow(|t.progresses| - 1, t.progresses[|t.progresses| - 1])
  }

  predicate SameTasks(db: Tables, v: Tasks) {
    db.states.Keys == v.Keys && db.owners.Keys == v.Keys && db.workspaces.Keys == v.Keys && db.contracts.Keys == v.Keys
      && db.progress.Keys == v.Keys
  }

  ghost predicate Represents(db: Tables, v: Tasks) {
    SameTasks(db, v) && (forall id :: id in v ==> CurrentRows(db, id, v[id]))
    && Lists(db.contractHistory, ContractLists(v), 1) && Lists(db.progressHistory, ProgressLists(v), 0)
    && Lists(db.events, EventLists(v), 1)
  }

  // ---- reads ------------------------------------------------------------------------------------------

  datatype CreationModel = CreationModel(
    agent: string, workspace: string, contract: ContractRow, progressVersion: int, events: seq<(int, Event)>)

  datatype LifecycleModel = LifecycleModel(
    state: TaskState, agent: string, active: bool, progressVersion: int, events: seq<(int, Event)>)

  datatype RecoveredTask = RecoveredTask(
    lifecycle: LifecycleModel, workspace: string, contract: ContractRow, progress: ProgressRow,
    contractHistory: seq<(int, Contract)>, progressHistory: seq<(int, Progress)>)

  function Numbered<T>(list: seq<T>, first: int): seq<(int, T)> {
    seq(|list|, i requires 0 <= i < |list| => (first + i, list[i]))
  }

  function CreationOf(t: Task): CreationModel
    requires t.contracts != []
  {
    CreationModel(t.agent, t.workspace, ContractRow(|t.contracts|, t.contracts[|t.contracts| - 1]), |t.progresses| - 1,
      Numbered(t.events, 1))
  }

  function LifecycleOf(t: Task): LifecycleModel {
    LifecycleModel(t.state, t.agent, t.active, |t.progresses| - 1, Numbered(t.events, 1))
  }

  function ReadCreation(db: Tables, id: string): Option<CreationModel> {
    if !Joined(db, id) then None
    else Some(CreationModel(db.owners[id].agent, db.workspaces[id], db.contracts[id], db.progress[id].version,
      Rows(db.events, id)))
  }

  function ReadLifecycle(db: Tables, id: string): Option<LifecycleModel> {
    if !(id in db.states && id in db.owners && id in db.progress) then None
    else Some(LifecycleModel(db.states[id], db.owners[id].agent, !db.owners[id].released, db.progress[id].version,
      Rows(db.events, id)))
  }

  function ReadRecovered(db: Tables, id: string): Option<RecoveredTask> {
    var lifecycle :- ReadLifecycle(db, id);
    if !Joined(db, id) then None
    else Some(RecoveredTask(lifecycle, db.workspaces[id], db.contracts[id], db.progress[id],
      Rows(db.contractHistory, id), Rows(db.progressHistory, id)))
  }

  function RecoveredOf(t: Task): RecoveredTask
    requires t.contracts != [] && t.progresses != []
  {
    RecoveredTask(LifecycleOf(t), t.workspace, ContractRow(|t.contracts|, t.contracts[|t.contracts| - 1]),
                  ProgressRow(|t.progresses| - 1, t.progresses[|t.progresses| - 1]), Numbered(t.contracts,
                    1), Numbered(t.progresses, 0))
  }

  lemma NumberedRows<T>(table: map<Key, T>, lists: map<string, seq<T>>, first: int, task: string)
    requires Lists(table, lists, first) && task in lists
    ensures Rows(table, task) == Numbered(lists[task], first)
  {
    hide Lists, Rows;
    ListedRows(table, lists, first, task);
  }

  /** What is read from tables that stand for tasks is the task. */
  lemma ReadsAreTheTask(db: Tables, v: Tasks, id: string)
    requires Represents(db, v) && id in v
    ensures v[id].contracts != [] && v[id].progresses != []
    ensures ReadCreation(db, id) == Some(CreationOf(v[id])) && ReadLifecycle(db, id) == Some(LifecycleOf(v[id]))
    ensures ReadRecovered(db, id) == Some(RecoveredOf(v[id]))
  {
    hide Lists, Rows, Numbered;
    assert CurrentRows(db, id, v[id]);
    NumberedRows(db.events, EventLists(v), 1, id);
    NumberedRows(db.contractHistory, ContractLists(v), 1, id);
    NumberedRows(db.progressHistory, ProgressLists(v), 0, id);
  }

  // ---- validation of what is read ----------------------------------------------------------------------

  predicate ContractRowFine(rows: seq<(int, Contract)>, i: nat)
    requires i < |rows|
  {
    rows[i].0 == i + 1 && SchemaPresent(rows[i].1.schema)
  }

  predicate ProgressRowFine(rows: seq<(int, Progress)>, i: nat)
    requires i < |rows|
  {
    rows[i].0 == i && rows[i].1.throughTask >= 0 && rows[i].1.throughAgentRun >= 0 && SchemaPresent(rows[i].1.schema)
  }

  predicate EventRowFine(rows: seq<(int, Event)>, i: nat)
    requires i < |rows|
  {
    rows[i].0 == i + 1 && SchemaPresent(rows[i].1.schema)
  }

  predicate ValidRecovered(m: RecoveredTask) {
    (forall i :: 0 <= i < |m.contractHistory| ==> ContractRowFine(m.contractHistory, i))
    && (forall i :: 0 <= i < |m.progressHistory| ==> ProgressRowFine(m.progressHistory, i))
    && m.contractHistory != [] && m.contractHistory[|m.contractHistory| - 1] == (m.contract.version, m.contract.value)
    && m.progressHistory != [] && m.progressHistory[|m.progressHistory| - 1] == (m.progress.version, m.progress.value)
    && forall i :: 0 <= i < |m.lifecycle.events| ==> EventRowFine(m.lifecycle.events, i)
  }

  /** The loops and comparisons of validateRecoveredTask. */
  method ValidateRecovered(m: RecoveredTask) returns (ok: bool)
    ensures ok == ValidRecovered(m)
  {
    hide ContractRowFine, ProgressRowFine, EventRowFine;
    for i := 0 to |m.contractHistory|
      invariant forall j :: 0 <= j < i ==> ContractRowFine(m.contractHistory, j)
    {
      if !ContractRowFine(m.contractHistory, i) { return false; }
    }
    for i := 0 to |m.progressHistory|
      invariant forall j :: 0 <= j < i ==> ProgressRowFine(m.progressHistory, j)
    {
      if !ProgressRowFine(m.progressHistory, i) { return false; }
    }
    if m.contractHistory == [] || (m.contract.version, m.contract.value) != m.contractHistory[|m.contractHistory| - 1] {
      return false;
    }
    if m.progressHistory == [] || (m.progress.version, m.progress.value) != m.progressHistory[|m.progressHistory| - 1] {
      return false;
    }
    for i := 0 to |m.lifecycle.events|
      invariant forall j :: 0 <= j < i ==> EventRowFine(m.lifecycle.events, j)
    {
      if !EventRowFine(m.lifecycle.events, i) { return false; }
    }
    ok := true;
  }

  function Recover(db: Tables, id: string): Result<RecoveredTask, Failure> {
    match ReadRecovered(db, id)
    case None => Err(Storage)
    case Some(m) => if ValidRecovered(m) then Ok(m) else Err(Corrupt)
  }

  lemma RecoveredRowsFine(t: Task)
    requires KeptTask(t) && t.contracts != [] && t.progresses != []
    ensures ValidRecovered(RecoveredOf(t)) <==> SchemaPresent(t.contracts[0].schema)
  {
    hide SchemaPresent, Replay, Count, SeenOnly, AllowedTransition;
    var m := RecoveredOf(t);
    forall i | 0 <= i < |m.progressHistory| ensures ProgressRowFine(m.progressHistory, i) {
      assert 0 <= t.progresses[i].throughTask <= t.progresses[i].throughTask;
    }
    if SchemaPresent(t.contracts[0].schema) {
      forall i | 0 <= i < |m.contractHistory| ensures ContractRowFine(m.contractHistory, i) { }
    } else {
      assert !ContractRowFine(m.contractHistory, 0);
    }
  }

  /** Every task the operations can produce is recovered as it is, if and only if the contract it was
      created with names its schema completely: creating a task is the one operation that does not
      check that. */
  lemma RecoverExactly(db: Tables, v: Tasks, id: string)
    requires Represents(db, v) && AllKept(v)
    ensures Recover(db, id) ==
            if id !in v then Err(Storage)
            else if v[id].contracts != [] && v[id].progresses != [] && SchemaPresent(v[id].contracts[0].schema) then
              Ok(RecoveredOf(v[id]))
            else Err(Corrupt)
  {
    hide SchemaPresent, KeptTask, ValidRecovered, Lists, Rows, OneActiveTaskEach;
    if id in v {
      ReadsAreTheTask(db, v, id);
      RecoveredRowsFine(v[id]);
    }
  }

  // ---- what the staged writes of each operation amount to ------------------------------------------------

  lemma ListsAfter(v: Tasks, id: string, t: Task)
    ensures ContractLists(v[id := t]) == ContractLists(v)[id := t.contracts]
    ensures ProgressLists(v[id := t]) == ProgressLists(v)[id := t.progresses]
    ensures EventLists(v[id := t]) == EventLists(v)[id := t.events]
  {
    hide ContractLists, ProgressLists, EventLists;
    ContractListsAfter(v, id, t);
    ProgressListsAfter(v, id, t);
    EventListsAfter(v, id, t);
  }

  lemma ContractListsAfter(v: Tasks, id: string, t: Task)
    ensures ContractLists(v[id := t]) == ContractLists(v)[id := t.contracts]
  {
  }

  lemma ProgressListsAfter(v: Tasks, id: string, t: Task)
    ensures ProgressLists(v[id := t]) == ProgressLists(v)[id := t.progresses]
  {
  }

  lemma EventListsAfter(v: Tasks, id: string, t: Task)
    ensures EventLists(v[id := t]) == EventLists(v)[id := t.events]
  {
  }

  lemma OthersKeepTheirRows(db: Tables, v: Tasks, db': Tables, w: Tasks, id: string, t: Task)
    requires w == v[id := t] && SameTasks(db, v) && (forall k :: k in v ==> CurrentRows(db, k, v[k]))
      && SameTasks(db', w)
    requires forall k :: k in v && k != id ==>
      db'.states[k] == db.states[k] && db'.owners[k] == db.owners[k] && db'.workspaces[k] == db.workspaces[k]
      && db'.contracts[k] == db.contracts[k] && db'.progress[k] == db.progress[k]
    requires CurrentRows(db', id, t)
    ensures forall k :: k in w ==> CurrentRows(db', k, w[k])
  {
    forall k | k in w ensures CurrentRows(db', k, w[k]) {
      if k != id { assert CurrentRows(db, k, v[k]); }
    }
  }

  /** The n-th insert of a creation; None if it breaks a key or the index on the owners not released. */
  function Insert(db: Tables, n: nat, id: string, agent: string, workspace: string,
                  contract: Contract): Option<Tables> {
    if n == 0 then if id in db.states then None else Some(db.(states := db.states[id := Ready]))
    else if n == 1 then
      if id in db.owners || (exists k :: k in db.owners && db.owners[k] == Owner(agent, false)) then None
      else Some(db.(owners := db.owners[id := Owner(agent, false)]))
    else if n == 2 then if id in db.workspaces then None else Some(db.(workspaces := db.workspaces[id := workspace]))
    else if n == 3 then if id in db.contracts then None
      else Some(db.(contracts := db.contracts[id := ContractRow(1, contract)]))
    else if n == 4 then
      if id in db.progress then None else Some(db.(progress := db.progress[id := ProgressRow(0, InitialProgress())]))
    else if n == 5 then
      if id !in db.contracts then Some(db)
      else
        var row := db.contracts[id];
        if Key(id, row.version) in db.contractHistory then None
        else Some(db.(contractHistory := db.contractHistory[Key(id, row.version) := row.value]))
    else if n == 6 then
      if id !in db.progress then Some(db)
      else
        var row := db.progress[id];
        if Key(id, row.version) in db.progressHistory then None
        else Some(db.(progressHistory := db.progressHistory[Key(id, row.version) := row.value]))
    else
      if Key(id, 1) in db.events || Key(id, 2) in db.events then None
      else Some(db.(events :=
        db.events[Key(id, 1) := PlainEvent(TaskCreated)][Key(id, 2) := PlainEvent(OwnerAssigned)]))
  }

  /** The tables after the first n inserts. */
  function InsertedTables(db: Tables, n: nat, id: string, agent: string, workspace: string,
                          contract: Contract): Tables {
    var all := CreatedTables(db, id, agent, workspace, contract);
    Tables(if n > 0 then all.states else db.states, if n > 1 then all.owners else db.owners,
           if n > 2 then all.workspaces else db.workspaces, if n > 3 then all.contracts else db.contracts,
           if n > 4 then all.progress else db.progress, if n > 5 then all.contractHistory else db.contractHistory,
           if n > 6 then all.progressHistory else db.progressHistory, if n > 7 then all.events else db.events)
  }

  /** No row is in the way of a task of that identifier, but for its owner's. */
  predicate Free(db: Tables, id: string) {
    id !in db.states && id !in db.owners && id !in db.workspaces && id !in db.contracts && id !in db.progress
    && Key(id, 1) !in db.contractHistory && Key(id, 0) !in db.progressHistory
    && Key(id, 1) !in db.events && Key(id, 2) !in db.events
  }

  lemma FreeRows(db: Tables, v: Tasks, id: string)
    requires Represents(db, v)
    ensures id in db.states <==> id in v
    ensures id !in v ==> Free(db, id)
  {
    hide CurrentRows;
  }

  lemma OwnerInsert(db: Tables, n: nat, id: string, agent: string, workspace: string, contract: Contract)
    requires Free(db, id) && n < 2
    ensures var tx := InsertedTables(db, n, id, agent, workspace, contract);
      Insert(tx, n, id, agent, workspace, contract) ==
        if n == 1 && exists k :: k in db.owners && db.owners[k] == Owner(agent, false) then None
        else Some(InsertedTables(db, n + 1, id, agent, workspace, contract))
  {
    hide PlainEvent, InitialProgress;
  }

  lemma CurrentInsert(db: Tables, n: nat, id: string, agent: string, workspace: string, contract: Contract)
    requires Free(db, id) && 2 <= n < 5
    ensures var tx := InsertedTables(db, n, id, agent, workspace, contract);
      Insert(tx, n, id, agent, workspace, contract)
      == Some(InsertedTables(db, n + 1, id, agent, workspace, contract))
  {
    hide PlainEvent, InitialProgress;
  }

  lemma HistoryInsert(db: Tables, n: nat, id: string, agent: string, workspace: string, contract: Contract)
    requires Free(db, id) && 5 <= n < INSERTS
    ensures var tx := InsertedTables(db, n, id, agent, workspace, contract);
      Insert(tx, n, id, agent, workspace, contract)
      == Some(InsertedTables(db, n + 1, id, agent, workspace, contract))
  {
    hide PlainEvent, InitialProgress;
  }

  /** No insert of a new task breaks a constraint but for the owner's. */
  lemma InsertSucceeds(db: Tables, v: Tasks, n: nat, id: string, agent: string, workspace: string, contract: Contract)
    requires Represents(db, v) && n < INSERTS && (n > 0 ==> id !in v)
    ensures var tx := InsertedTables(db, n, id, agent, workspace, contract);
      Insert(tx, n, id, agent, workspace, contract) ==
        if (n == 0 && id in v) || (n == 1 && Busy(v, agent)) then None
        else Some(InsertedTables(db, n + 1, id, agent, workspace, contract))
  {
    FreeRows(db, v, id);
    if id in v {
      TakenInsert(db, id, agent, workspace, contract);
    } else if n < 2 {
      BusyInTables(db, v, agent);
      hide Insert, InsertedTables, Represents, Busy, Free;
      OwnerInsert(db, n, id, agent, workspace, contract);
    } else if n < 5 {
      hide Insert, InsertedTables, Represents, Busy, Free;
      CurrentInsert(db, n, id, agent, workspace, contract);
    } else {
      hide Insert, InsertedTables, Represents, Busy, Free;
      HistoryInsert(db, n, id, agent, workspace, contract);
    }
  }

  lemma TakenInsert(db: Tables, id: string, agent: string, workspace: string, contract: Contract)
    requires id in db.states
    ensures Insert(InsertedTables(db, 0, id, agent, workspace, contract), 0, id, agent, workspace, contract) == None
  {
  }

  function CreatedTables(db: Tables, id: string, agent: string, workspace: string, contract: Contract): Tables {
    Tables(db.states[id := Ready], db.owners[id := Owner(agent, false)], db.workspaces[id := workspace],
           db.contracts[id := ContractRow(1, contract)], db.progress[id := ProgressRow(0, InitialProgress())],
           db.contractHistory[Key(id, 1) := contract], db.progressHistory[Key(id, 0) := InitialProgress()],
           db.events[Key(id, 1) := PlainEvent(TaskCreated)][Key(id, 2) := PlainEvent(OwnerAssigned)])
  }

  /** Tables whose rows for one task were rewritten stand for the tasks with that task replaced. */
  lemma RewrittenRepresents(db: Tables, v: Tasks, db': Tables, w: Tasks, id: string, t: Task)
    requires w == v[id := t] && SameTasks(db', w) && (forall k :: k in w ==> CurrentRows(db', k, w[k]))
    requires Lists(db'.contractHistory, ContractLists(v)[id := t.contracts], 1)
    requires Lists(db'.progressHistory, ProgressLists(v)[id := t.progresses], 0)
    requires Lists(db'.events, EventLists(v)[id := t.events], 1)
    ensures Represents(db', w)
  {
    hide Lists, CurrentRows, SameTasks;
    ListsAfter(v, id, t);
  }

  lemma AddedID<T>(m: map<string, T>, id: string, x: T)
    ensures m[id := x].Keys == m.Keys + {id}
  {
  }

  lemma CreatedRow(db: Tables, id: string, agent: string, workspace: string, contract: Contract)
    ensures CurrentRows(CreatedTables(db, id, agent, workspace, contract), id, NewTask(agent, workspace, contract))
  {
    hide PlainEvent, InitialProgress;
  }

  lemma CreatedIDs(db: Tables, v: Tasks, id: string, agent: string, workspace: string, contract: Contract, t: Task)
    requires SameTasks(db, v)
    ensures SameTasks(CreatedTables(db, id, agent, workspace, contract), v[id := t])
  {
    hide PlainEvent, InitialProgress;
    AddedID(v, id, t);
    AddedID(db.states, id, Ready);
    AddedID(db.owners, id, Owner(agent, false));
    AddedID(db.workspaces, id, workspace);
    AddedID(db.contracts, id, ContractRow(1, contract));
    AddedID(db.progress, id, ProgressRow(0, InitialProgress()));
  }

  lemma CreatedRows(db: Tables, v: Tasks, id: string, agent: string, workspace: string, contract: Contract, w: Tasks)
    requires SameTasks(db, v) && (forall k :: k in v ==> CurrentRows(db, k, v[k])) && id !in v
    requires w == v[id := NewTask(agent, workspace, contract)]
    ensures var db' := CreatedTables(db, id, agent, workspace, contract);
      SameTasks(db', w) && forall k :: k in w ==> CurrentRows(db', k, w[k])
  {
    hide PlainEvent, InitialProgress, CurrentRows, NewTask;
    var t := NewTask(agent, workspace, contract);
    CreatedRow(db, id, agent, workspace, contract);
    CreatedIDs(db, v, id, agent, workspace, contract, t);
    OthersKeepTheirRows(db, v, CreatedTables(db, id, agent, workspace, contract), w, id, t);
  }

  lemma CreatedEvents(db: Tables, v: Tasks, id: string, t: Task)
    requires Lists(db.events, EventLists(v), 1) && id !in v
      && t.events == [PlainEvent(TaskCreated), PlainEvent(OwnerAssigned)]
    ensures Lists(db.events[Key(id, 1) := PlainEvent(TaskCreated)][Key(id, 2) := PlainEvent(OwnerAssigned)],
      EventLists(v)[id := t.events], 1)
  {
    hide Lists, PlainEvent;
    ListsStart(db.events, EventLists(v), 1, id, PlainEvent(TaskCreated));
    var one := [PlainEvent(TaskCreated)];
    ListsAppend(db.events[Key(id, 1) := PlainEvent(TaskCreated)], EventLists(v)[id := one], 1, id,
      PlainEvent(OwnerAssigned));
    assert one + [PlainEvent(OwnerAssigned)] == t.events;
    assert EventLists(v)[id := one][id := one + [PlainEvent(OwnerAssigned)]] == EventLists(v)[id := t.events];
  }

  lemma CreatedRepresents(db: Tables, v: Tasks, id: string, agent: string, workspace: string, contract: Contract)
    requires Represents(db, v) && id !in v
    ensures Represents(CreatedTables(db, id, agent, workspace, contract), v[id := NewTask(agent, workspace, contract)])
  {
    hide Lists, PlainEvent, InitialProgress, SameTasks, CurrentRows;
    var t := NewTask(agent, workspace, contract);
    CreatedRows(db, v, id, agent, workspace, contract, v[id := t]);
    CreatedEvents(db, v, id, t);
    ListsStart(db.contractHistory, ContractLists(v), 1, id, contract);
    ListsStart(db.progressHistory, ProgressLists(v), 0, id, InitialProgress());
    RewrittenRepresents(db, v, CreatedTables(db, id, agent, workspace, contract), v[id := t], id, t);
  }

  lemma SameLists(v: Tasks, id: string)
    requires id in v
    ensures ContractLists(v)[id := v[id].contracts] == ContractLists(v)
      && ProgressLists(v)[id := v[id].progresses] == ProgressLists(v)
    ensures EventLists(v)[id] == v[id].events && ContractLists(v)[id] == v[id].contracts
      && ProgressLists(v)[id] == v[id].progresses
  {
  }

  lemma SameIDs<T>(m: map<string, T>, id: string, x: T)
    requires id in m
    ensures m[id := x].Keys == m.Keys
  {
  }

  function MovedTables(db: Tables, id: string, target: TaskState, e: Event, sequence: int): Tables {
    db.(states := db.states[id := target], events := db.events[Key(id, sequence) := e])
  }

  lemma MovedRow(db: Tables, id: string, target: TaskState, e: Event, sequence: int, u: Task, t: Task)
    requires CurrentRows(db, id, u) && t == u.(state := target, events := u.events + [e])
    ensures CurrentRows(MovedTables(db, id, target, e, sequence), id, t)
  {
  }

  lemma MovedRows(db: Tables, v: Tasks, id: string, target: TaskState, e: Event, t: Task, w: Tasks)
    requires SameTasks(db, v) && (forall k :: k in v ==> CurrentRows(db, k, v[k])) && id in v
    requires t == v[id].(state := target, events := v[id].events + [e]) && w == v[id := t]
    ensures var db' := MovedTables(db, id, target, e, |v[id].events| + 1);
      SameTasks(db', w) && forall k :: k in w ==> CurrentRows(db', k, w[k])
  {
    var db' := MovedTables(db, id, target, e, |v[id].events| + 1);
    hide CurrentRows;
    assert CurrentRows(db, id, v[id]);
    SameIDs(db.states, id, target);
    SameIDs(v, id, t);
    MovedRow(db, id, target, e, |v[id].events| + 1, v[id], t);
    OthersKeepTheirRows(db, v, db', w, id, t);
  }

  /** A task that differs in its state and one more event. */
  lemma MovedRepresents(db: Tables, v: Tasks, id: string, target: TaskState, e: Event)
    requires Represents(db, v) && id in v
    ensures var t := v[id].(state := target, events := v[id].events + [e]);
      Represents(MovedTables(db, id, target, e, |v[id].events| + 1), v[id := t])
  {
    hide Lists, SameTasks, CurrentRows;
    var t := v[id].(state := target, events := v[id].events + [e]);
    SameLists(v, id);
    MovedRows(db, v, id, target, e, t, v[id := t]);
    ListsAppend(db.events, EventLists(v), 1, id, e);
    RewrittenRepresents(db, v, MovedTables(db, id, target, e, |v[id].events| + 1), v[id := t], id, t);
  }

  lemma ReleasedRow(db: Tables, id: string, u: Task, t: Task)
    requires CurrentRows(db, id, u) && t == u.(active := false)
    ensures CurrentRows(db.(owners := db.owners[id := Owner(u.agent, true)]), id, t)
  {
  }

  lemma ReleasedRows(db: Tables, v: Tasks, id: string, t: Task, w: Tasks)
    requires SameTasks(db, v) && (forall k :: k in v ==> CurrentRows(db, k, v[k])) && id in v
    requires t == v[id].(active := false) && w == v[id := t]
    ensures var db' := db.(owners := db.owners[id := Owner(v[id].agent, true)]);
      SameTasks(db', w) && forall k :: k in w ==> CurrentRows(db', k, w[k])
  {
    var db' := db.(owners := db.owners[id := Owner(v[id].agent, true)]);
    hide CurrentRows;
    assert CurrentRows(db, id, v[id]);
    SameIDs(db.owners, id, Owner(v[id].agent, true));
    SameIDs(v, id, t);
    ReleasedRow(db, id, v[id], t);
    OthersKeepTheirRows(db, v, db', w, id, t);
  }

  lemma ReleasedRepresents(db: Tables, v: Tasks, id: string)
    requires Represents(db, v) && id in v
    ensures Represents(db.(owners := db.owners[id := Owner(v[id].agent, true)]), v[id := v[id].(active := false)])
  {
    hide Lists, SameTasks, CurrentRows;
    var t := v[id].(active := false);
    SameLists(v, id);
    ReleasedRows(db, v, id, t, v[id := t]);
    assert EventLists(v)[id := t.events] == EventLists(v);
    RewrittenRepresents(db, v, db.(owners := db.owners[id := Owner(v[id].agent, true)]), v[id := t], id, t);
  }

  function ContractTables(db: Tables, id: string, version: int, c: Contract, e: Event, sequence: int): Tables {
    db.(contracts := db.contracts[id := ContractRow(version, c)],
      contractHistory := db.contractHistory[Key(id, version) := c],
        events := db.events[Key(id, sequence) := e])
  }

  lemma ContractRowOf(db: Tables, id: string, c: Contract, e: Event, sequence: int, u: Task, t: Task)
    requires CurrentRows(db, id, u) && t == u.(contracts := u.contracts + [c], events := u.events + [e])
    ensures CurrentRows(ContractTables(db, id, |u.contracts| + 1, c, e, sequence), id, t)
  {
  }

  lemma ContractRows(db: Tables, v: Tasks, id: string, c: Contract, e: Event, t: Task, w: Tasks)
    requires SameTasks(db, v) && (forall k :: k in v ==> CurrentRows(db, k, v[k])) && id in v
    requires t == v[id].(contracts := v[id].contracts + [c], events := v[id].events + [e]) && w == v[id := t]
    ensures var db' := ContractTables(db, id, |v[id].contracts| + 1, c, e, |v[id].events| + 1);
      SameTasks(db', w) && forall k :: k in w ==> CurrentRows(db', k, w[k])
  {
    var db' := ContractTables(db, id, |v[id].contracts| + 1, c, e, |v[id].events| + 1);
    hide CurrentRows;
    assert CurrentRows(db, id, v[id]);
    SameIDs(db.contracts, id, ContractRow(|v[id].contracts| + 1, c));
    SameIDs(v, id, t);
    ContractRowOf(db, id, c, e, |v[id].events| + 1, v[id], t);
    OthersKeepTheirRows(db, v, db', w, id, t);
  }

  lemma ContractRepresents(db: Tables, v: Tasks, id: string, c: Contract, e: Event)
    requires Represents(db, v) && id in v
    ensures var t := v[id].(contracts := v[id].contracts + [c], events := v[id].events + [e]);
      Represents(ContractTables(db, id, |v[id].contracts| + 1, c, e, |v[id].events| + 1), v[id := t])
  {
    hide Lists, SameTasks, CurrentRows;
    var t := v[id].(contracts := v[id].contracts + [c], events := v[id].events + [e]);
    SameLists(v, id);
    ContractRows(db, v, id, c, e, t, v[id := t]);
    ListsAppend(db.events, EventLists(v), 1, id, e);
    ListsAppend(db.contractHistory, ContractLists(v), 1, id, c);
    RewrittenRepresents(db, v, ContractTables(db, id, |v[id].contracts| + 1, c, e, |v[id].events| + 1), v[id := t], id,
      t);
  }

  function ProgressTables(db: Tables, id: string, version: int, p: Progress, e: Event, sequence: int): Tables {
    db.(progress := db.progress[id := ProgressRow(version, p)],
      progressHistory := db.progressHistory[Key(id, version) := p],
        events := db.events[Key(id, sequence) := e])
  }

  lemma ProgressRowOf(db: Tables, id: string, p: Progress, e: Event, sequence: int, u: Task, t: Task)
    requires CurrentRows(db, id, u) && t == u.(progresses := u.progresses + [p], events := u.events + [e])
    ensures CurrentRows(ProgressTables(db, id, |u.progresses|, p, e, sequence), id, t)
  {
  }

  lemma ProgressRows(db: Tables, v: Tasks, id: string, p: Progress, e: Event, t: Task, w: Tasks)
    requires SameTasks(db, v) && (forall k :: k in v ==> CurrentRows(db, k, v[k])) && id in v
    requires t == v[id].(progresses := v[id].progresses + [p], events := v[id].events + [e]) && w == v[id := t]
    ensures var db' := ProgressTables(db, id, |v[id].progresses|, p, e, |v[id].events| + 1);
      SameTasks(db', w) && forall k :: k in w ==> CurrentRows(db', k, w[k])
  {
    var db' := ProgressTables(db, id, |v[id].progresses|, p, e, |v[id].events| + 1);
    hide CurrentRows;
    assert CurrentRows(db, id, v[id]);
    SameIDs(db.progress, id, ProgressRow(|v[id].progresses|, p));
    SameIDs(v, id, t);
    ProgressRowOf(db, id, p, e, |v[id].events| + 1, v[id], t);
    OthersKeepTheirRows(db, v, db', w, id, t);
  }

  lemma ProgressRepresents(db: Tables, v: Tasks, id: string, p: Progress, e: Event)
    requires Represents(db, v) && id in v
    ensures var t := v[id].(progresses := v[id].progresses + [p], events := v[id].events + [e]);
      Represents(ProgressTables(db, id, |v[id].progresses|, p, e, |v[id].events| + 1), v[id := t])
  {
    hide Lists, SameTasks, CurrentRows;
    var t := v[id].(progresses := v[id].progresses + [p], events := v[id].events + [e]);
    SameLists(v, id);
    ProgressRows(db, v, id, p, e, t, v[id := t]);
    ListsAppend(db.events, EventLists(v), 1, id, e);
    ListsAppend(db.progressHistory, ProgressLists(v), 0, id, p);
    RewrittenRepresents(db, v, ProgressTables(db, id, |v[id].progresses|, p, e, |v[id].events| + 1), v[id := t], id, t);
  }

  /** The state, the versions, the last watermarks and the next event number a transaction reads. */
  lemma ReadPosition(db: Tables, v: Tasks, id: string)
    requires Represents(db, v)
    ensures id in db.states <==> id in v
    ensures id in db.contracts <==> id in v
    ensures id in db.progress <==> id in v
    ensures id in v ==> CurrentRows(db, id, v[id]) && MaxNumber(db.events, id) == |v[id].events| && Joined(db, id)
    ensures id in v ==> Key(id, |v[id].contracts| + 1) !in db.contractHistory
    ensures id in v ==> Key(id, |v[id].progresses|) !in db.progressHistory
  {
    hide MaxNumber;
    if id in v {
      ListedMax(db.events, EventLists(v), id);
      NotListed(db.contractHistory, ContractLists(v), 1, id);
      NotListed(db.progressHistory, ProgressLists(v), 0, id);
    }
  }

  lemma BusyInTables(db: Tables, v: Tasks, agent: string)
    requires Represents(db, v)
    ensures Busy(v, agent) <==> exists k :: k in db.owners && db.owners[k] == Owner(agent, false)
  {
    hide Lists;
    if Busy(v, agent) {
      var id :| id in v && v[id].active && v[id].agent == agent;
      assert CurrentRows(db, id, v[id]);
      assert db.owners[id] == Owner(agent, false);
    }
    if k :| k in db.owners && db.owners[k] == Owner(agent, false) {
      assert CurrentRows(db, k, v[k]);
    }
  }

  // ---- the store ---------------------------------------------------------------------------------------

  class ControlStore {
    var db: Tables
    /** What the tables stand for. */
    ghost var tasks: Tasks

    ghost predicate Valid()
      reads this
    {
      Represents(db, tasks) && AllKept(tasks)
    }

    constructor (db: Tables, ghost tasks: Tasks)
      requires Represents(db, tasks) && AllKept(tasks)
      ensures Valid() && this.db == db && this.tasks == tasks
    {
      hide Represents, AllKept;
      this.db, this.tasks := db, tasks;
    }

    /** The loop over the inserts of a new task, up to the first that fails. */
    method InsertAll(id: string, agent: string, workspace: string, contract: Contract, fault: Fault)
      returns (r: Result<Tables, Failure>)
      requires Valid() && !Fails(fault, Beginning)
      ensures match r
              case Ok(tx) => tx == CreatedTables(db, id, agent, workspace, contract)
                             && id !in tasks && !Busy(tasks, agent) && !FailsInserting(fault, INSERTS)
              case Err(f) => Create(tasks, id, agent, workspace, contract, fault) == Err(f)
    {
      hide Represents, AllKept, NewTask, Insert, Busy, InsertedTables, CreatedTables, WriteFailure;
      var tx := db;
      AroundInserts(db, id, agent, workspace, contract);
      for n := 0 to INSERTS
        invariant tx == InsertedTables(db, n, id, agent, workspace, contract)
        invariant !FailsInserting(fault, n) && (n > 0 ==> id !in tasks) && (n > 1 ==> !Busy(tasks, agent))
      {
        if Fails(fault, Inserting(n)) { return Err(WriteFailure(fault)); }
        InsertSucceeds(db, tasks, n, id, agent, workspace, contract);
        var next := Insert(tx, n, id, agent, workspace, contract);
        if next.None? { return Err(Conflict); }
        tx := next.value;
      }
      r := Ok(tx);
    }

    method CreateTask(id: string, agent: string, workspace: string, contract: Contract, fault: Fault)
      returns (r: Result<CreationModel, Failure>)
      requires Valid()
      modifies this
      ensures Valid() && tasks == Perform(old(tasks), ControlTasks.CreateTask(id, agent, workspace, contract), fault)
      ensures match Outcome(old(tasks), ControlTasks.CreateTask(id, agent, workspace, contract), fault)
              case Ok(t) => t.contracts != [] && r == Ok(CreationOf(t))
              case Err(f) => r == Err(f)
      ensures db == if r.Err? then old(db) else CreatedTables(old(db), id, agent, workspace, contract)
    {
      hide Represents, AllKept, InitialProgress, PlainEvent, LegacySchema, Rows, Busy, ReadCreation, NewTask,
        CreatedTables, WriteFailure, Insert, InsertedTables;
      ghost var q := ControlTasks.CreateTask(id, agent, workspace, contract);
      PerformKeeps(tasks, q, fault);
      if Fails(fault, Beginning) { return Err(Storage); }
      var inserted := InsertAll(id, agent, workspace, contract, fault);
      if inserted.Err? { return Err(inserted.error); }
      var tx := inserted.value;
      if Fails(fault, Hook) { return Err(Storage); }
      CreatedRepresents(db, tasks, id, agent, workspace, contract);
      ghost var next := tasks[id := NewTask(agent, workspace, contract)];
      ReadsAreTheTask(tx, next, id);
      var model := ReadCreation(tx, id);
      if model.None? || Fails(fault, ReadingBack) { return Err(Storage); }
      if Fails(fault, Committing) { return Err(WriteFailure(fault)); }
      db, tasks := tx, next;
      r := Ok(model.value);
    }

    /** The rows a transition writes: the state, the next event, and the release of a task that ended. */
    method TransitionTask(id: string, expected: TaskState, target: TaskState, payload: string, fault: Fault)
      returns (r: Result<LifecycleModel, Failure>)
      requires Valid()
      modifies this
      ensures Valid() && tasks == Perform(old(tasks), ControlTasks.TransitionTask(id, expected, target, payload), fault)
      ensures r == match Outcome(old(tasks), ControlTasks.TransitionTask(id, expected, target, payload), fault)
                   case Ok(t) => Ok(LifecycleOf(t))
                   case Err(f) => Err(f)
      ensures if r.Err? then db == old(db) else
        id in old(tasks) && id in old(db).owners && AllowedTransition(expected, target).Some?
        && db == old(db).(
             states := old(db).states[id := target],
             owners := if target.Completed? || target.Cancelled? then
               old(db).owners[id := old(db).owners[id].(released := true)] else old(db).owners,
             events := old(db).events[Key(id, |old(tasks)[id].events| + 1) :=
               Event(AllowedTransition(expected, target).value, payload, LegacySchema())])
    {
      hide Represents, AllKept, LegacySchema, Rows, MaxNumber, AllowedTransition, ValidEventPayload, KeptTask,
        LifecycleOf, Fails, WriteFailure, ReadLifecycle, Moved, MovedTables;
      ghost var q := ControlTasks.TransitionTask(id, expected, target, payload);
      PerformKeeps(tasks, q, fault);
      ReadPosition(db, tasks, id);
      if Fails(fault, Beginning) || Fails(fault, Reading) || id !in db.states { return Err(Storage); }
      if db.states[id] != expected { return Err(Conflict); }
      var kind := AllowedTransition(expected, target);
      if kind.None? { return Err(NotAllowed); }
      if !ValidEventPayload(kind.value, payload) { return Err(BadPayload); }
      var tx := db.(states := db.states[id := target]);
      if Fails(fault, FirstWrite) { return Err(WriteFailure(fault)); }
      var e := Event(kind.value, payload, LegacySchema());
      tx := tx.(events := tx.events[Key(id, MaxNumber(tx.events, id) + 1) := e]);
      if Fails(fault, SecondWrite) { return Err(WriteFailure(fault)); }
      StagedMove(db, id, target, e, |tasks[id].events| + 1);
      MovedRepresents(db, tasks, id, target, e);
      ghost var next := tasks[id := tasks[id].(state := target, events := tasks[id].events + [e])];
      HeldUntilTerminal(tasks, id, target);
      if target.Completed? || target.Cancelled? {
        assert !tx.owners[id].released;
        ReleasedRepresents(tx, next, id);
        tx := tx.(owners := tx.owners[id := tx.owners[id].(released := true)]);
        next := next[id := next[id].(active := false)];
        if Fails(fault, ThirdWrite) { return Err(WriteFailure(fault)); }
      }
      MovedIs(tasks[id], target, kind.value, payload);
      assert next == tasks[id := Moved(tasks[id], target, kind.value, payload)];
      ReadsAreTheTask(tx, next, id);
      var model := ReadLifecycle(tx, id);
      if model.None? || Fails(fault, ReadingBack) { return Err(Storage); }
      if Fails(fault, Committing) { return Err(WriteFailure(fault)); }
      db, tasks := tx, next;
      r := Ok(model.value);
    }

    /** The number of the new event, or why nothing changed. */
    method UpdateContract(id: string, expected: int, version: int, c: Contract, fault: Fault)
      returns (r: Result<(int, Event), Failure>)
      requires Valid()
      modifies this
      ensures Valid() && tasks == Perform(old(tasks), ControlTasks.UpdateContract(id, expected, version, c), fault)
      ensures r == match Outcome(old(tasks), ControlTasks.UpdateContract(id, expected, version, c), fault)
                   case Ok(t) => Ok((|t.events|, ContractEvent(version, c)))
                   case Err(f) => Err(f)
      ensures if r.Err? then db == old(db) else
        id in old(tasks) && r.value.0 == |old(tasks)[id].events| + 1
        && r.value.1.kind == ContractChanged && r.value.1.schema == c.schema
        && db == old(db).(contracts := old(db).contracts[id := ContractRow(version, c)],
                          contractHistory := old(db).contractHistory[Key(id, version) := c],
                          events := old(db).events[Key(id, r.value.0) := r.value.1])
    {
      hide Represents, AllKept, Rows, MaxNumber, SchemaPresent, IsObject, ContractPayload, Fails, WriteFailure, Joined;
      ghost var q := ControlTasks.UpdateContract(id, expected, version, c);
      PerformKeeps(tasks, q, fault);
      ReadPosition(db, tasks, id);
      if !ValidVersioned(expected, version, c.schema, c.payload) { return Err(BadInput); }
      if Fails(fault, Beginning) || Fails(fault, Reading) || id !in db.contracts { return Err(Storage); }
      if db.contracts[id].version != expected { return Err(Conflict); }
      assert Key(id, version) !in db.contractHistory;
      var tx := db.(contractHistory := db.contractHistory[Key(id, version) := c]);
      if Fails(fault, FirstWrite) { return Err(WriteFailure(fault)); }
      assert tx.contracts[id].version == expected;
      tx := tx.(contracts := tx.contracts[id := ContractRow(version, c)]);
      if Fails(fault, SecondWrite) { return Err(WriteFailure(fault)); }
      var sequence, e := MaxNumber(tx.events, id) + 1, ContractEvent(version, c);
      tx := tx.(events := tx.events[Key(id, sequence) := e]);
      if Fails(fault, ThirdWrite) || Fails(fault, Committing) { return Err(WriteFailure(fault)); }
      assert tx == ContractTables(db, id, |tasks[id].contracts| + 1, c, e, |tasks[id].events| + 1);
      ContractRepresents(db, tasks, id, c, e);
      db, tasks := tx, tasks[id := WithContract(tasks[id], c)];
      r := Ok((sequence, e));
    }

    method UpdateProgress(id: string, expected: int, version: int, p: Progress, fault: Fault)
      returns (r: Result<(int, Event), Failure>)
      requires Valid()
      modifies this
      ensures Valid() && tasks == Perform(old(tasks), ControlTasks.UpdateProgress(id, expected, version, p), fault)
      ensures r == match Outcome(old(tasks), ControlTasks.UpdateProgress(id, expected, version, p), fault)
                   case Ok(t) => Ok((|t.events|, ProgressEvent(version, p)))
                   case Err(f) => Err(f)
      ensures if r.Err? then db == old(db) else
        id in old(tasks) && r.value.0 == |old(tasks)[id].events| + 1
        && r.value.1.kind == ProgressRefreshed && r.value.1.schema == p.schema
        && db == old(db).(progress := old(db).progress[id := ProgressRow(version, p)],
                          progressHistory := old(db).progressHistory[Key(id, version) := p],
                          events := old(db).events[Key(id, r.value.0) := r.value.1])
    {
      hide Represents, AllKept, Rows, MaxNumber, SchemaPresent, IsObject, ProgressPayload, Fails, WriteFailure, Joined;
      ghost var q := ControlTasks.UpdateProgress(id, expected, version, p);
      PerformKeeps(tasks, q, fault);
      ReadPosition(db, tasks, id);
      if !ValidVersioned(expected, version, p.schema, p.payload) { return Err(BadInput); }
      if p.throughTask < 0 || p.throughAgentRun < 0 { return Err(BadInput); }
      if Fails(fault, Beginning) || Fails(fault, Reading) || id !in db.progress { return Err(Storage); }
      var current := db.progress[id];
      if current.version != expected { return Err(Conflict); }
      if p.throughTask < current.value.throughTask || p.throughAgentRun < current.value.throughAgentRun {
        return Err(Conflict);
      }
      if p.throughTask > MaxNumber(db.events, id) { return Err(Conflict); }
      assert Key(id, version) !in db.progressHistory;
      var tx := db.(progressHistory := db.progressHistory[Key(id, version) := p]);
      if Fails(fault, FirstWrite) { return Err(WriteFailure(fault)); }
      assert tx.progress[id].version == expected;
      tx := tx.(progress := tx.progress[id := ProgressRow(version, p)]);
      if Fails(fault, SecondWrite) { return Err(WriteFailure(fault)); }
      var sequence, e := MaxNumber(tx.events, id) + 1, ProgressEvent(version, p);
      tx := tx.(events := tx.events[Key(id, sequence) := e]);
      if Fails(fault, ThirdWrite) || Fails(fault, Committing) { return Err(WriteFailure(fault)); }
      assert tx == ProgressTables(db, id, |tasks[id].progresses|, p, e, |tasks[id].events| + 1);
      ProgressRepresents(db, tasks, id, p, e);
      db, tasks := tx, tasks[id := WithProgress(tasks[id], p)];
      r := Ok((sequence, e));
    }

    /** The rows of one task in the order of their numbers. */
    method ReadRows<T>(table: map<Key, T>, id: string) returns (rows: seq<(int, T)>)
      ensures rows == Rows(table, id)
    {
      var numbers := Ascending(Numbers(table, id));
      rows := [];
      for i := 0 to |numbers|
        invariant |rows| == i && forall j :: 0 <= j < i ==> rows[j] == Rows(table, id)[j]
      {
        assert numbers[i] in numbers;
        rows := rows + [(numbers[i], table[Key(id, numbers[i])])];
      }
    }

    method ReadRecoveredTask(id: string) returns (r: Result<RecoveredTask, Failure>)
      requires Valid()
      ensures r == Recover(db, id)
      ensures r == if id !in tasks then Err(Storage)
                   else if tasks[id].contracts != [] && tasks[id].progresses != []
                          && SchemaPresent(tasks[id].contracts[0].schema) then Ok(RecoveredOf(tasks[id]))
                   else Err(Corrupt)
    {
      hide Represents, AllKept, Rows, ValidRecovered;
      RecoverExactly(db, tasks, id);
      if !Joined(db, id) { return Err(Storage); }
      var events := ReadRows(db.events, id);
      var contracts := ReadRows(db.contractHistory, id);
      var progresses := ReadRows(db.progressHistory, id);
      var owner := db.owners[id];
      var m := RecoveredTask(LifecycleModel(db.states[id], owner.agent, !owner.released, db.progress[id].version,
                                            events), db.workspaces[id],
                             db.contracts[id], db.progress[id], contracts, progresses);
      var ok := ValidateRecovered(m);
      r := if ok then Ok(m) else Err(Corrupt);
    }
  }

  /** The rows of a new task: every table gains its own, and no other row changes. */
  lemma CreatedIs(db: Tables, id: string, agent: string, workspace: string, contract: Contract)
    ensures CreatedTables(db, id, agent, workspace, contract)
         == Tables(db.states[id := Ready], db.owners[id := Owner(agent, false)], db.workspaces[id := workspace],
                   db.contracts[id := ContractRow(1, contract)], db.progress[id := ProgressRow(0, InitialProgress())],
                   db.contractHistory[Key(id, 1) := contract], db.progressHistory[Key(id, 0) := InitialProgress()],
                   db.events[Key(id, 1) := Event(TaskCreated, "{}", LegacySchema())]
                            [Key(id, 2) := Event(OwnerAssigned, "{}", LegacySchema())])
  {
  }

  lemma AroundInserts(db: Tables, id: string, agent: string, workspace: string, contract: Contract)
    ensures InsertedTables(db, 0, id, agent, workspace, contract) == db
    ensures InsertedTables(db, INSERTS, id, agent, workspace, contract)
         == CreatedTables(db, id, agent, workspace, contract)
  {
  }

  lemma StagedMove(db: Tables, id: string, target: TaskState, e: Event, sequence: int)
    ensures MovedTables(db, id, target, e, sequence)
         == db.(states := db.states[id := target], events := db.events[Key(id, sequence) := e])
  {
  }

  lemma MovedIs(t: Task, target: TaskState, kind: Kind, payload: string)
    ensures Moved(t, target, kind, payload)
         == t.(state := target, events := t.events + [Event(kind, payload, LegacySchema())],
               active := t.active && !target.Completed? && !target.Cancelled?)
  {
  }

  /** The owner of a task that can still move is held, so the release of a finished task always finds
      one owner to release. */
  lemma HeldUntilTerminal(v: Tasks, id: string, target: TaskState)
    requires AllKept(v) && id in v && AllowedTransition(v[id].state, target).Some?
    ensures v[id].active
  {
    hide OneActiveTaskEach, Replay, Count, SchemasPresent, WatermarksGrow, SeenOnly, Counted;
    assert KeptTask(v[id]);
  }

  // ---- the tables of given tasks -------------------------------------------------------------------------

  function Column(task: string, first: int, n: nat): (ks: set<Key>)
    ensures forall k :: k in ks <==> k.task == task && first <= k.number < first + n
  {
    if n == 0 then {} else Column(task, first, n - 1) + {Key(task, first + n - 1)}
  }

  ghost function Columns<T>(lists: map<string, seq<T>>, tasks: set<string>, first: int): (ks: set<Key>)
    requires tasks <= lists.Keys
    ensures forall k :: k in ks <==> k.task in tasks && first <= k.number < first + |lists[k.task]|
    decreases |tasks|
  {
    if tasks == {} then {} else
    var task :| task in tasks;
    Columns(lists, tasks - {task}, first) + Column(task, first, |lists[task]|)
  }

  /** The elements of the lists, numbered from `first`. */
  ghost function TableOf<T>(lists: map<string, seq<T>>, first: int): map<Key, T> {
    map k | k in Columns(lists, lists.Keys, first) :: lists[k.task][k.number - first]
  }

  lemma TableLists<T>(lists: map<string, seq<T>>, first: int)
    ensures Lists(TableOf(lists, first), lists, first)
  {
    hide Columns;
  }

  lemma SameTable<T>(a: map<Key, T>, b: map<Key, T>, lists: map<string, seq<T>>, first: int)
    requires Lists(a, lists, first) && Lists(b, lists, first)
    ensures a == b
  {
  }

  predicate Versioned(v: Tasks) { forall id :: id in v ==> v[id].contracts != [] && v[id].progresses != [] }

  /** The tables that stand for some tasks. */
  ghost function TablesOf(v: Tasks): Tables
    requires Versioned(v)
  {
    Tables(
      map id | id in v :: v[id].state,
      map id | id in v :: Owner(v[id].agent, !v[id].active),
      map id | id in v :: v[id].workspace,
      map id | id in v :: ContractRow(|v[id].contracts|, v[id].contracts[|v[id].contracts| - 1]),
      map id | id in v :: ProgressRow(|v[id].progresses| - 1, v[id].progresses[|v[id].progresses| - 1]),
      TableOf(ContractLists(v), 1), TableOf(ProgressLists(v), 0), TableOf(EventLists(v), 1))
  }

  lemma KeptAreVersioned(v: Tasks)
    requires AllKept(v)
    ensures Versioned(v)
  {
    hide Replay, SchemasPresent, WatermarksGrow, SeenOnly, OneActiveTaskEach;
    forall id | id in v ensures v[id].contracts != [] && v[id].progresses != [] { assert KeptTask(v[id]); }
  }

  lemma TablesStand(v: Tasks)
    requires Versioned(v)
    ensures Represents(TablesOf(v), v)
  {
    hide Lists, TableOf, ContractLists, ProgressLists, EventLists;
    TableLists(ContractLists(v), 1);
    TableLists(ProgressLists(v), 0);
    TableLists(EventLists(v), 1);
  }

  lemma SameRows(a: Tables, b: Tables, id: string, t: Task)
    requires CurrentRows(a, id, t) && CurrentRows(b, id, t)
    ensures Joined(a, id) && Joined(b, id) && a.states[id] == b.states[id] && a.owners[id] == b.owners[id]
    ensures a.workspaces[id] == b.workspaces[id] && a.contracts[id] == b.contracts[id]
      && a.progress[id] == b.progress[id]
  {
  }

  lemma SameMap<T>(a: map<string, T>, b: map<string, T>)
    requires a.Keys == b.Keys && forall id :: id in a ==> a[id] == b[id]
    ensures a == b
  {
  }

  /** And no others do. */
  lemma OnlyTables(db: Tables, v: Tasks)
    requires Represents(db, v)
    ensures Versioned(v) && db == TablesOf(v)
  {
    hide Lists, CurrentRows, TableOf, ContractLists, ProgressLists, EventLists, Joined;
    RepresentedAreVersioned(db, v);
    TablesStand(v);
    var all := TablesOf(v);
    forall id | id in v
      ensures Joined(db, id) && Joined(all, id) && db.states[id] == all.states[id] && db.owners[id] == all.owners[id]
      ensures db.workspaces[id] == all.workspaces[id] && db.contracts[id] == all.contracts[id]
        && db.progress[id] == all.progress[id]
    {
      SameRows(db, all, id, v[id]);
    }
    hide TablesOf;
    SameMap(db.states, all.states);
    SameMap(db.owners, all.owners);
    SameMap(db.workspaces, all.workspaces);
    SameMap(db.contracts, all.contracts);
    SameMap(db.progress, all.progress);
    SameTable(db.contractHistory, all.contractHistory, ContractLists(v), 1);
    SameTable(db.progressHistory, all.progressHistory, ProgressLists(v), 0);
    SameTable(db.events, all.events, EventLists(v), 1);
  }

  lemma RepresentedAreVersioned(db: Tables, v: Tasks)
    requires Represents(db, v)
    ensures Versioned(v)
  {
    forall id | id in v ensures v[id].contracts != [] && v[id].progresses != [] { assert CurrentRows(db, id, v[id]); }
    hide Lists;
  }
}
