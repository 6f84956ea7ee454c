/** The bounded accept loops: slots acquired before Accept, hand-off to workers, shutdown and drain;
    and the two copying directions of one bridged connection. */
module AcceptLoop {
  /** Acquiring until a slot is free, Rechecking and Accepting while holding one, then the shutdown in
      its order. */
  datatype Loop =
    | Acquiring | Rechecking | Accepting | ClosingListener | Cancelling | StoppingWatcher
    | AwaitingWatcher | Draining | Returned

  /** A worker closes its connection, then gives its slot back, then leaves the wait group. */
  datatype Worker = Working | Closed | Released

  /** The goroutine that closes the listener when the caller cancels. */
  datatype Watcher = Watching | Closing | CancellingRun | Gone

  datatype State = State(
    max: nat, loop: Loop, slots: nat, workers: map<nat, Worker>, waiting: nat, watcher: Watcher,
    stopWatcher: bool, cancelled: bool, runDone: bool, listenerClosed: bool, failure: bool, next: nat)

  /** What happens next; `Arrives` is a connection from Accept, `AcceptFails` an error, a nil
      connection or, in the bridge, a panic. A watcher that sees both the caller's cancellation and
      its own stop may act on either. */
  datatype Event =
    | CallerCancels
    | Acquire | SeesCancel | Rechecks
    | Arrives | AcceptFails
    | ShutsDown
    | WatcherMoves | WatcherStops
    | WorkerMoves(id: nat)

  function Start(max: nat): State {
    State(max, Acquiring, 0, map[], 0, Watching, false, false, false, false, false, 0)
  }

  predicate Holding(l: Loop) { l.Rechecking? || l.Accepting? }

  predicate Stopping(l: Loop) {
    l.ClosingListener? || l.Cancelling? || l.StoppingWatcher? || l.AwaitingWatcher? || l.Draining?
  }

  predicate Enabled(s: State, e: Event) {
    match e
    case CallerCancels => !s.cancelled
    case Acquire => s.loop.Acquiring? && s.slots < s.max
    case SeesCancel => s.loop.Acquiring? && s.runDone
    case Rechecks => s.loop.Rechecking?
    case Arrives => s.loop.Accepting?
    case AcceptFails => s.loop.Accepting?
    case ShutsDown =>
      Stopping(s.loop) && (s.loop.AwaitingWatcher? ==> s.watcher.Gone?) && (s.loop.Draining? ==> s.waiting == 0)
    case WatcherMoves => (s.watcher.Watching? && s.cancelled) || s.watcher.Closing? || s.watcher.CancellingRun?
    case WatcherStops => s.watcher.Watching? && s.stopWatcher
    case WorkerMoves(id) => id in s.workers
  }

  /** One turn of the shutdown after the loop. */
  function Shut(s: State): (t: State)
    ensures t == s.(loop := t.loop, listenerClosed := t.listenerClosed, runDone := t.runDone,
                       stopWatcher := t.stopWatcher)
  {
    match s.loop
    case ClosingListener => s.(listenerClosed := true, loop := Cancelling)
    case Cancelling => s.(runDone := true, loop := StoppingWatcher)
    case StoppingWatcher => s.(stopWatcher := true, loop := AwaitingWatcher)
    case AwaitingWatcher => s.(loop := Draining)
    case Draining => s.(loop := Returned)
    case _ => s
  }

  function Watch(s: State): (t: State)
    ensures t == s.(watcher := t.watcher, listenerClosed := t.listenerClosed, runDone := t.runDone)
  {
    match s.watcher
    case Watching => s.(watcher := Closing)
    case Closing => s.(listenerClosed := true, watcher := CancellingRun)
    case CancellingRun => s.(runDone := true, watcher := Gone)
    case Gone => s
  }

  function Work(s: State, id: nat): (t: State)
    requires id in s.workers
    ensures t == s.(workers := t.workers, slots := t.slots, waiting := t.waiting)
  {
    match s.workers[id]
    case Working => s.(workers := s.workers[id := Closed])
    case Closed => s.(workers := s.workers[id := Released], slots := if s.slots > 0 then s.slots - 1 else 0)
    case Released => s.(workers := s.workers - {id}, waiting := if s.waiting > 0 then s.waiting - 1 else 0)
  }

  /** Giving the loop's own slot back and leaving the loop. */
  function Leave(s: State, failed: bool): (t: State)
    ensures t.max == s.max
  {
    s.(slots := if s.slots > 0 then s.slots - 1 else 0, failure := s.failure || failed, loop := ClosingListener)
  }

  function Step(s: State, e: Event): State {
    if !Enabled(s, e) then s else
    match e
    case CallerCancels => s.(cancelled := true, runDone := true)
    case Acquire => s.(slots := s.slots + 1, loop := Rechecking)
    case SeesCancel => s.(loop := ClosingListener)
    case Rechecks => if s.runDone then Leave(s, false) else s.(loop := Accepting)
    case Arrives =>
      s.(workers := s.workers[s.next := Working], waiting := s.waiting + 1, next := s.next + 1, loop := Acquiring)
    case AcceptFails => Leave(s, !s.cancelled)
    case ShutsDown => Shut(s)
    case WatcherMoves => Watch(s)
    case WatcherStops => s.(watcher := Gone)
    case WorkerMoves(id) => Work(s, id)
  }

  // ---- the loop as a class --------------------------------------------------------------------------------

  class Server {
    var s: State

    constructor (max: nat)
      ensures s == Start(max)
    {
      s := Start(max);
    }

    /** One pass of the accept loop from acquiring a slot to hand-off: whether cancellation is seen
        first, what the others do before the recheck and before Accept returns, and what it returns. */
    method Pass(cancelFirst: bool, beforeRecheck: seq<Event>, beforeReturn: seq<Event>, accepted: bool)
      returns (again: bool)
      requires s.loop.Acquiring? && (if cancelFirst then s.runDone else s.slots < s.max)
      requires Elsewhere(beforeRecheck) && Elsewhere(beforeReturn)
      modifies this
      ensures s == Run(old(s), PassEvents(cancelFirst, Run(Step(old(s), Acquire), beforeRecheck).runDone,
                                          beforeRecheck, beforeReturn, accepted))
      ensures again == (!cancelFirst && !Run(Step(old(s), Acquire), beforeRecheck).runDone && accepted)
    {
      hide Run, Step;
      ghost var start := s;
      if cancelFirst {
        OneEvent(s, SeesCancel);
        Cancelled(s);
        s := s.(loop := ClosingListener);
        return false;
      }
      Acquired(s);
      s := s.(slots := s.slots + 1, loop := Rechecking);
      Others(beforeRecheck);
      ghost var held := s;
      RunJoined(start, [Acquire], beforeRecheck);
      OneEvent(start, Acquire);
      RunJoined(start, [Acquire] + beforeRecheck, [Rechecks]);
      OneEvent(held, Rechecks);
      Rechecked(held);
      if s.runDone {
        s := s.(slots := if s.slots > 0 then s.slots - 1 else 0, loop := ClosingListener);
        return false;
      }
      s := s.(loop := Accepting);
      ghost var waiting := s;
      Others(beforeReturn);
      ghost var last := if accepted then Arrives else AcceptFails;
      RunJoined(start, [Acquire] + beforeRecheck + [Rechecks], beforeReturn);
      RunJoined(start, [Acquire] + beforeRecheck + [Rechecks] + beforeReturn, [last]);
      OneEvent(s, last);
      Answered(s);
      if !accepted {
        s := s.(slots := if s.slots > 0 then s.slots - 1 else 0, failure := s.failure || !s.cancelled,
                loop := ClosingListener);
        return false;
      }
      s := s.(waiting := s.waiting + 1, workers := s.workers[s.next := Working], next := s.next + 1, loop := Acquiring);
      again := true;
    }

    /** What the caller, the watcher and the workers do; the loop stays where it is. */
    method Others(events: seq<Event>)
      requires Elsewhere(events)
      modifies this
      ensures s == Run(old(s), events) && s.loop == old(s).loop
    {
      hide Step;
      for i := 0 to |events|
        invariant Run(s, events[i..]) == Run(old(s), events) && s.loop == old(s).loop
      {
        assert events[i..][0] == events[i] && events[i..][1..] == events[i + 1..];
        LoopStays(s, events[i]);
        s := Step(s, events[i]);
      }
    }
  }

  /** The events of one pass. */
  function PassEvents(cancelFirst: bool, done: bool, beforeRecheck: seq<Event>, beforeReturn: seq<Event>,
                      accepted: bool): seq<Event> {
    if cancelFirst then [SeesCancel]
    else if done then [Acquire] + beforeRecheck + [Rechecks]
    else [Acquire] + beforeRecheck + [Rechecks] + beforeReturn + [if accepted then Arrives else AcceptFails]
  }

  /** Events of the caller, the watcher and the workers. */
  predicate Elsewhere(events: seq<Event>) {
    forall e :: e in events ==> e.CallerCancels? || e.WatcherMoves? || e.WatcherStops? || e.WorkerMoves?
  }

  function Run(s: State, events: seq<Event>): State
    decreases |events|
  {
    if events == [] then s else Run(Step(s, events[0]), events[1..])
  }

  lemma {:induction false} RunJoined(s: State, a: seq<Event>, b: seq<Event>)
    ensures Run(s, a + b) == Run(Run(s, a), b)
    decreases |a|
  {
    hide Step;
    if a == [] {
      assert a + b == b;
    } else {
      assert (a + b)[0] == a[0] && (a + b)[1..] == a[1..] + b;
      RunJoined(Step(s, a[0]), a[1..], b);
    }
  }

  lemma OneEvent(s: State, e: Event)
    ensures Run(s, [e]) == Step(s, e)
  {
    hide Step;
    assert [e][1..] == [];
    assert Run(Step(s, e), []) == Step(s, e);
  }

  lemma LoopStays(s: State, e: Event)
    requires e.CallerCancels? || e.WatcherMoves? || e.WatcherStops? || e.WorkerMoves?
    ensures Step(s, e).loop == s.loop
  {
    hide Enabled, Watch, Work;
  }

  lemma Cancelled(s: State)
    requires s.loop.Acquiring? && s.runDone
    ensures Step(s, SeesCancel) == s.(loop := ClosingListener)
  {
  }

  lemma Acquired(s: State)
    requires s.loop.Acquiring? && s.slots < s.max
    ensures Step(s, Acquire) == s.(slots := s.slots + 1, loop := Rechecking)
  {
  }

  lemma Rechecked(s: State)
    requires s.loop.Rechecking?
    ensures Step(s, Rechecks)
         == if s.runDone then s.(slots := if s.slots > 0 then s.slots - 1 else 0, loop := ClosingListener)
           else s.(loop := Accepting)
  {
  }

  lemma Answered(s: State)
    requires s.loop.Accepting?
    ensures Step(s, Arrives)
         == s.(waiting := s.waiting + 1, workers := s.workers[s.next := Working], next := s.next + 1, loop := Acquiring)
    ensures Step(s, AcceptFails)
         == s.(slots := if s.slots > 0 then s.slots - 1 else 0, failure := s.failure || !s.cancelled,
           loop := ClosingListener)
  {
  }

  // ---- what every step keeps ---------------------------------------------------------------------------------

  /** The workers that still hold a slot. */
  function Live(workers: map<nat, Worker>): set<nat> { set id | id in workers && !workers[id].Released? }

  /** The slot the loop itself holds. */
  function Held(l: Loop): nat { if Holding(l) then 1 else 0 }

  predicate SlotsKept(max: nat, slots: nat, workers: map<nat, Worker>, waiting: nat, next: nat, held: nat) {
    slots == |Live(workers)| + held && slots <= max && waiting == |workers| && forall id :: id in workers ==> id < next
  }

  /** Past the point where the loop closes the listener itself. */
  predicate PastClosing(l: Loop) {
    l.Cancelling? || l.StoppingWatcher? || l.AwaitingWatcher? || l.Draining? || l.Returned?
  }

  predicate OrderKept(s: State) {
    (s.cancelled ==> s.runDone)
    && (PastClosing(s.loop) ==> s.listenerClosed)
    && (s.loop.AwaitingWatcher? ==> s.stopWatcher)
    && (s.loop.Draining? || s.loop.Returned? ==> s.watcher.Gone?)
  }

  predicate Kept(s: State) {
    SlotsKept(s.max, s.slots, s.workers, s.waiting, s.next, Held(s.loop))
    && OrderKept(s)
    && (s.loop.Returned? ==> s.workers == map[])
  }

  lemma CloseKept(max: nat, slots: nat, workers: map<nat, Worker>, waiting: nat, next: nat, held: nat, id: nat)
    requires SlotsKept(max, slots, workers, waiting, next, held) && id in workers && workers[id].Working?
    ensures SlotsKept(max, slots, workers[id := Closed], waiting, next, held)
  {
    var after := workers[id := Closed];
    assert after.Keys == workers.Keys;
    SameSize(after, workers);
    assert Live(after) == Live(workers);
    hide Live;
  }

  lemma ReleaseKept(max: nat, slots: nat, workers: map<nat, Worker>, waiting: nat, next: nat, held: nat, id: nat)
    requires SlotsKept(max, slots, workers, waiting, next, held) && id in workers && workers[id].Closed?
    ensures slots > 0 && SlotsKept(max, slots - 1, workers[id := Released], waiting, next, held)
  {
    var after := workers[id := Released];
    assert after.Keys == workers.Keys;
    SameSize(after, workers);
    assert id in Live(workers);
    assert Live(after) == Live(workers) - {id};
    hide Live;
  }

  lemma DoneKept(max: nat, slots: nat, workers: map<nat, Worker>, waiting: nat, next: nat, held: nat, id: nat)
    requires SlotsKept(max, slots, workers, waiting, next, held) && id in workers && workers[id].Released?
    ensures waiting > 0 && SlotsKept(max, slots, workers - {id}, waiting - 1, next, held)
  {
    var after := workers - {id};
    assert Live(after) == Live(workers);
    assert workers.Keys == after.Keys + {id};
    assert |workers| == |workers.Keys| && |after| == |after.Keys|;
    hide Live;
  }

  lemma LiveAfter(workers: map<nat, Worker>, id: nat, w: Worker)
    ensures Live(workers[id := w]) == if w.Released? then Live(workers) - {id} else Live(workers) + {id}
  {
  }

  lemma LiveGrows(workers: map<nat, Worker>, id: nat)
    requires id !in workers
    ensures |Live(workers[id := Working])| == |Live(workers)| + 1 && |workers[id := Working]| == |workers| + 1
  {
    LiveAfter(workers, id, Working);
    assert id !in Live(workers);
    assert workers[id := Working].Keys == workers.Keys + {id};
    SizeOfKeys(workers);
    SizeOfKeys(workers[id := Working]);
    hide Live;
  }

  lemma SizeOfKeys(workers: map<nat, Worker>)
    ensures |workers| == |workers.Keys|
  {
  }

  lemma ArriveKept(max: nat, slots: nat, workers: map<nat, Worker>, waiting: nat, next: nat)
    requires SlotsKept(max, slots, workers, waiting, next, 1)
    ensures SlotsKept(max, slots, workers[next := Working], waiting + 1, next + 1, 0)
  {
    hide Live;
    assert next !in workers;
    LiveGrows(workers, next);
  }

  lemma LiveSubset(workers: map<nat, Worker>)
    ensures Live(workers) <= workers.Keys
  {
  }

  lemma NoneLive()
    ensures Live(map[]) == {}
  {
    hide Live;
    LiveSubset(map[]);
  }

  lemma NoSlots(max: nat, workers: map<nat, Worker>)
    requires workers == map[]
    ensures SlotsKept(max, 0, workers, 0, 0, 0)
  {
    hide Live;
    NoneLive();
    SizeOfKeys(workers);
  }

  lemma StartKept(max: nat)
    ensures Kept(Start(max))
  {
    hide SlotsKept;
    NoSlots(max, Start(max).workers);
  }

  lemma LeaveKept(max: nat, slots: nat, workers: map<nat, Worker>, waiting: nat, next: nat)
    requires SlotsKept(max, slots, workers, waiting, next, 1)
    ensures slots > 0 && SlotsKept(max, slots - 1, workers, waiting, next, 0)
  {
    hide Live;
  }

  lemma SameSize(a: map<nat, Worker>, b: map<nat, Worker>)
    requires a.Keys == b.Keys
    ensures |a| == |b|
  {
    assert |a| == |a.Keys| && |b| == |b.Keys|;
  }

  lemma NoWorkers(max: nat, slots: nat, workers: map<nat, Worker>, next: nat, held: nat)
    requires SlotsKept(max, slots, workers, 0, next, held)
    ensures workers == map[]
  {
    assert |workers.Keys| == |workers|;
  }

  lemma ShutKept(s: State)
    requires Kept(s) && Enabled(s, ShutsDown)
    ensures Kept(Shut(s))
  {
    hide SlotsKept;
    if s.loop.Draining? { NoWorkers(s.max, s.slots, s.workers, s.next, 0); }
  }

  lemma WorkKept(s: State, id: nat)
    requires Kept(s) && id in s.workers
    ensures Kept(Work(s, id))
  {
    hide SlotsKept;
    match s.workers[id]
    case Working => CloseKept(s.max, s.slots, s.workers, s.waiting, s.next, Held(s.loop), id);
    case Closed => ReleaseKept(s.max, s.slots, s.workers, s.waiting, s.next, Held(s.loop), id);
    case Released => DoneKept(s.max, s.slots, s.workers, s.waiting, s.next, Held(s.loop), id);
  }

  lemma WatchKept(s: State)
    requires Kept(s)
    ensures Kept(Watch(s)) && Kept(s.(watcher := Gone))
  {
    hide SlotsKept;
  }

  lemma AcquireKept(s: State)
    requires Kept(s) && s.loop.Acquiring?
    ensures s.slots < s.max ==> Kept(s.(slots := s.slots + 1, loop := Rechecking))
    ensures Kept(s.(loop := ClosingListener))
  {
    hide Live;
  }

  lemma HeldKept(s: State, failed: bool)
    requires Kept(s) && Holding(s.loop)
    ensures Kept(Leave(s, failed)) && Kept(s.(loop := Accepting))
  {
    LeaveKept(s.max, s.slots, s.workers, s.waiting, s.next);
    hide SlotsKept;
  }

  lemma CancelKept(s: State)
    requires Kept(s)
    ensures Kept(s.(cancelled := true, runDone := true))
  {
    hide SlotsKept;
  }

  lemma ArrivedKept(s: State)
    requires Kept(s) && s.loop.Accepting?
    ensures Kept(Step(s, Arrives))
  {
    ArriveKept(s.max, s.slots, s.workers, s.waiting, s.next);
    hide SlotsKept;
  }

  /** At every step the slots held are the live connections plus one while the loop is between
      acquiring and handing off, never above the maximum; and Serve returns only when no connection is
      left, the listener is closed and the watcher is gone. */
  lemma StepKeeps(s: State, e: Event)
    requires Kept(s)
    ensures Kept(Step(s, e))
  {
    hide Kept, Shut, Watch, Work, Leave;
    if Enabled(s, e) {
      match e
      case WorkerMoves(id) => WorkKept(s, id);
      case Arrives => ArrivedKept(s);
      case ShutsDown => ShutKept(s);
      case WatcherMoves => WatchKept(s);
      case WatcherStops => WatchKept(s);
      case CallerCancels => CancelKept(s);
      case Acquire => AcquireKept(s);
      case SeesCancel => AcquireKept(s);
      case Rechecks => HeldKept(s, false);
      case AcceptFails => HeldKept(s, !s.cancelled);
    }
  }

  lemma {:induction false} RunKeeps(s: State, events: seq<Event>)
    requires Kept(s)
    ensures Kept(Run(s, events))
    decreases |events|
  {
    hide Kept, Step;
    if events != [] {
      StepKeeps(s, events[0]);
      RunKeeps(Step(s, events[0]), events[1..]);
    }
  }

  /** Over every run of the loop with any workers: bounded slots at every step, and a complete drain
      behind every return. */
  lemma ServeDrains(max: nat, events: seq<Event>)
    ensures var s := Run(Start(max), events);
      s.slots <= max && |Live(s.workers)| <= s.slots
      && (s.loop.Returned? ==> s.workers == map[] && s.slots == 0 && s.listenerClosed && s.watcher.Gone?)
  {
    hide Run, Live;
    StartKept(max);
    NoneLive();
    RunKeeps(Start(max), events);
    MaxIsFixed(Start(max), events);
  }

  lemma StepKeepsMax(s: State, e: Event)
    ensures Step(s, e).max == s.max
  {
    hide Enabled, Shut, Watch, Work, Leave;
  }

  lemma {:induction false} MaxIsFixed(s: State, events: seq<Event>)
    ensures Run(s, events).max == s.max
    decreases |events|
  {
    hide Step;
    if events != [] {
      StepKeepsMax(s, events[0]);
      MaxIsFixed(Step(s, events[0]), events[1..]);
    }
  }

  // ---- the drain ends -------------------------------------------------------------------------------------------

  function LoopLeft(l: Loop): nat {
    match l
    case ClosingListener => 5
    case Cancelling => 4
    case StoppingWatcher => 3
    case AwaitingWatcher => 2
    case Draining => 1
    case _ => 0
  }

  function WatcherLeft(w: Watcher): nat {
    match w case Watching => 3 case Closing => 2 case CancellingRun => 1 case Gone => 0
  }

  function WorkerLeft(w: Worker): nat { match w case Working => 3 case Closed => 2 case Released => 1 }

  /** The moves left to the workers, in the order of their numbers below n. */
  function WorkersLeft(workers: map<nat, Worker>, n: nat): nat {
    if n == 0 then 0 else WorkersLeft(workers, n - 1) + (if n - 1 in workers then WorkerLeft(workers[n - 1]) else 0)
  }

  function Left(s: State): nat {
    LoopLeft(s.loop) + WatcherLeft(s.watcher) + WorkersLeft(s.workers, s.next) + (if s.cancelled then 0 else 1)
  }

  lemma {:induction false} WorkersLeftElsewhere(a: map<nat, Worker>, b: map<nat, Worker>, id: nat, n: nat)
    requires forall k :: k != id ==> ((k in a <==> k in b) && (k in a ==> a[k] == b[k]))
    ensures WorkersLeft(b, n) + (if id < n && id in a then WorkerLeft(a[id]) else 0)
      == WorkersLeft(a, n) + (if id < n && id in b then WorkerLeft(b[id]) else 0)
  {
    if n > 0 { WorkersLeftElsewhere(a, b, id, n - 1); }
  }

  lemma WorkerMoveCounts(s: State, id: nat)
    requires id in s.workers && id < s.next
    ensures WorkersLeft(Work(s, id).workers, s.next) < WorkersLeft(s.workers, s.next)
  {
    WorkersLeftElsewhere(s.workers, Work(s, id).workers, id, s.next);
  }

  lemma WorkerBelow(s: State, id: nat)
    requires Kept(s) && id in s.workers
    ensures id < s.next
  {
    hide Live;
  }

  /** Once the loop is left, every move brings the return nearer. */
  lemma StoppingMovesOn(s: State, e: Event)
    requires Kept(s) && Stopping(s.loop) && Enabled(s, e)
    ensures Left(Step(s, e)) < Left(s) && (Stopping(Step(s, e).loop) || Step(s, e).loop.Returned?)
  {
    hide SlotsKept, WorkersLeft, Work, OrderKept;
    if e.WorkerMoves? {
      WorkerBelow(s, e.id);
      WorkerMoveCounts(s, e.id);
    }
  }

  /** And some move is always possible until it returns, provided workers do finish. */
  lemma StoppingIsNeverStuck(s: State)
    requires Kept(s) && Stopping(s.loop)
    ensures Enabled(s, ShutsDown) || Enabled(s, WatcherMoves) || Enabled(s, WatcherStops)
      || exists id :: Enabled(s, WorkerMoves(id))
  {
    hide Live;
    if s.loop.Draining? && s.waiting > 0 {
      assert |s.workers| == |s.workers.Keys|;
      assert s.workers.Keys != {};
      var id :| id in s.workers;
      assert Enabled(s, WorkerMoves(id));
    }
  }

  /** The moves that finish the drain. */
  lemma {:induction false} DrainCompletes(s: State) returns (events: seq<Event>)
    requires Kept(s) && Stopping(s.loop)
    ensures Run(s, events).loop.Returned? && Run(s, events).failure == s.failure && |events| <= Left(s)
    decreases Left(s)
  {
    hide Kept, Left, Enabled;
    StoppingIsNeverStuck(s);
    var e: Event;
    if Enabled(s, ShutsDown) { e := ShutsDown; }
    else if Enabled(s, WatcherMoves) { e := WatcherMoves; }
    else if Enabled(s, WatcherStops) { e := WatcherStops; }
    else { var id :| Enabled(s, WorkerMoves(id)); e := WorkerMoves(id); }
    StoppingMovesOn(s, e);
    StepKeeps(s, e);
    FailureIsFixed(s, e);
    var t := Step(s, e);
    hide Step;
    if t.loop.Returned? {
      events := [e];
      assert [e][1..] == [];
      assert Run(t, []) == t;
    } else {
      var more := DrainCompletes(t);
      events := [e] + more;
      assert events[1..] == more;
    }
  }

  lemma FailureIsFixed(s: State, e: Event)
    requires Stopping(s.loop)
    ensures Step(s, e).failure == s.failure
  {
    hide Leave, Shut, Watch, Work;
  }

  // ---- what the loop reports and takes on -----------------------------------------------------------------------

  lemma {:induction false} RunLast(s: State, events: seq<Event>)
    requires events != []
    ensures Run(s, events) == Step(Run(s, events[..|events| - 1]), events[|events| - 1])
  {
    hide Step, Run;
    var init, last := events[..|events| - 1], events[|events| - 1];
    assert events == init + [last];
    RunJoined(s, init, [last]);
    OneEvent(Run(s, init), last);
  }

  /** At its i-th event the loop is in Accept. */
  predicate AcceptsAt(max: nat, events: seq<Event>, i: nat)
    requires i < |events|
  {
    Run(Start(max), events[..i]).loop.Accepting?
  }

  predicate CancelledBefore(events: seq<Event>, n: nat)
    requires n <= |events|
  {
    exists i :: 0 <= i < n && events[i] == CallerCancels
  }

  lemma {:induction false} CancelledExactly(max: nat, events: seq<Event>)
    ensures Run(Start(max), events).cancelled <==> CancelledBefore(events, |events|)
    decreases |events|
  {
    hide Run, Shut, Watch, Work, Leave;
    if events == [] {
      NothingRun(max);
    } else {
      var init := events[..|events| - 1];
      CancelledExactly(max, init);
      RunLast(Start(max), events);
      LastCancels(Run(Start(max), init), events[|init|]);
      hide Step;
      SamePrefix(events, |init|);
      assert CancelledBefore(events, |events|) <==> CancelledBefore(events, |init|) || events[|init|] == CallerCancels;
    }
  }

  lemma NothingRun(max: nat)
    ensures Run(Start(max), []) == Start(max)
  {
  }

  /** Accept fails at the i-th event, and the caller had not cancelled by then. */
  predicate FailsAt(max: nat, events: seq<Event>, i: nat)
    requires i < |events|
  {
    events[i] == AcceptFails && AcceptsAt(max, events, i) && !CancelledBefore(events, i)
  }

  /** A failure is reported if and only if Accept failed while the caller had not cancelled. */
  lemma {:induction false} FailureExactly(max: nat, events: seq<Event>)
    ensures Run(Start(max), events).failure <==> exists i :: 0 <= i < |events| && FailsAt(max, events, i)
    decreases |events|
  {
    hide Run, Shut, Watch, Work, CancelledBefore;
    if events == [] {
      NothingRun(max);
    } else {
      var n := |events| - 1;
      var init := events[..n];
      FailureExactly(max, init);
      RunLast(Start(max), events);
      CancelledExactly(max, init);
      forall i | 0 <= i < n ensures FailsAt(max, init, i) <==> FailsAt(max, events, i) { SameUpTo(max, events, n, i); }
      SamePrefix(events, n);
      LastFails(Run(Start(max), init), events[n]);
      assert FailsAt(max, events, n)
        <==> events[n] == AcceptFails && Run(Start(max), init).loop.Accepting? && !Run(Start(max), init).cancelled;
      hide Step, FailsAt;
    }
  }

  lemma LastCancels(s: State, e: Event)
    ensures Step(s, e).cancelled <==> s.cancelled || e == CallerCancels
  {
    hide Shut, Watch, Work;
  }

  lemma LastFails(s: State, e: Event)
    ensures Step(s, e).failure <==> s.failure || (e == AcceptFails && s.loop.Accepting? && !s.cancelled)
  {
    hide Shut, Watch, Work;
  }

  lemma SamePrefix(events: seq<Event>, n: nat)
    requires n <= |events|
    ensures CancelledBefore(events[..n], n) <==> CancelledBefore(events, n)
  {
    assert forall i :: 0 <= i < n ==> events[..n][i] == events[i];
  }

  lemma SameUpTo(max: nat, events: seq<Event>, n: nat, i: nat)
    requires i < n <= |events|
    ensures FailsAt(max, events[..n], i) <==> FailsAt(max, events, i)
  {
    hide Run;
    assert events[..n][..i] == events[..i];
    SamePrefix(events, i);
    SamePrefix(events[..n], i);
  }

  /** Once the run is over and the loop not in Accept, no connection is taken on any more. */
  lemma {:induction false} NoneTakenOn(s: State, events: seq<Event>)
    requires s.runDone && !s.loop.Accepting?
    ensures var t := Run(s, events);
      t.runDone && !t.loop.Accepting? && t.next == s.next && t.workers.Keys <= s.workers.Keys
    decreases |events|
  {
    hide Step;
    if events != [] {
      NoneTakenOnce(s, events[0]);
      NoneTakenOn(Step(s, events[0]), events[1..]);
    }
  }

  lemma NoneTakenOnce(s: State, e: Event)
    requires s.runDone && !s.loop.Accepting?
    ensures var t := Step(s, e);
      t.runDone && !t.loop.Accepting? && t.next == s.next && t.workers.Keys <= s.workers.Keys
  {
    ShutTakesNone(s);
    WatchTakesNone(s);
    if e.WorkerMoves? && e.id in s.workers { WorkTakesNone(s, e.id); }
    hide Shut, Watch, Work;
  }

  lemma ShutTakesNone(s: State)
    requires s.runDone && !s.loop.Accepting?
    ensures Shut(s).runDone && !Shut(s).loop.Accepting?
  {
  }

  lemma WatchTakesNone(s: State)
    requires s.runDone
    ensures Watch(s).runDone
  {
  }

  lemma WorkTakesNone(s: State, id: nat)
    requires id in s.workers
    ensures Work(s, id).workers.Keys <= s.workers.Keys
  {
  }

  /** How many connections Accept has returned. */
  function Accepted(max: nat, events: seq<Event>, n: nat): nat
    requires n <= |events|
  {
    if n == 0 then 0
    else Accepted(max, events, n - 1) + (if events[n - 1] == Arrives && AcceptsAt(max, events, n - 1) then 1 else 0)
  }

  /** Every connection Accept returns is handed to a worker of its own, and a worker goes only after it has
      closed its connection and given its slot back. */
  lemma {:induction false} EachHandedOff(max: nat, events: seq<Event>, n: nat)
    requires n <= |events|
    ensures Run(Start(max), events[..n]).next == Accepted(max, events, n)
    decreases n
  {
    hide Run;
    if n == 0 {
      NothingRun(max);
      assert events[..0] == [];
    } else {
      EachHandedOff(max, events, n - 1);
      RunLast(Start(max), events[..n]);
      assert events[..n][..n - 1] == events[..n - 1];
    }
  }

  lemma WorkersInOrder(s: State, e: Event, id: nat)
    requires Kept(s)
    ensures MovesInOrder(s, Step(s, e), e, id)
  {
    if id in s.workers { WorkerBelow(s, id); }
    hide Kept;
    if e.WorkerMoves? {
      if e.id in s.workers { WorkInOrder(s, e.id, id); }
    } else {
      OnlyArrivalsAdd(s, e);
      hide Step;
    }
  }

  lemma OnlyArrivalsAdd(s: State, e: Event)
    requires !e.WorkerMoves?
    ensures var t := Step(s, e);
      if e == Arrives && s.loop.Accepting? then t.workers == s.workers[s.next := Working] && t.slots == s.slots
      else t.workers == s.workers
  {
    hide Shut, Watch, Work;
  }

  /** What a step does to the worker of that number. */
  predicate MovesInOrder(s: State, t: State, e: Event, id: nat) {
    if id !in s.workers then
      id in t.workers ==>
        e == Arrives && s.loop.Accepting? && id == s.next && t.workers[id] == Working && t.slots == s.slots
    else match s.workers[id]
      case Working => id in t.workers && t.workers[id] in {Working, Closed}
      case Closed =>
        id in t.workers && (t.workers[id] == Closed || (t.workers[id] == Released && t.slots == s.slots - 1))
      case Released => id in t.workers ==> t.workers[id] == Released
  }

  lemma WorkInOrder(s: State, moved: nat, id: nat)
    requires Kept(s) && moved in s.workers
    ensures MovesInOrder(s, Work(s, moved), WorkerMoves(moved), id)
  {
    if s.workers[moved].Closed? {
      ReleaseKept(s.max, s.slots, s.workers, s.waiting, s.next, Held(s.loop), moved);
    }
    hide Kept, SlotsKept, Live;
  }

  // ---- bridgeStreams ------------------------------------------------------------------------------------------------

  /** The two directions report in some order; the caller may cancel before the first report, between
      the two (`cancelAt` 0 or 1), or not before both are in. The loop returns with both workers drained,
      and has closed both ends early exactly if it was cancelled before the last report or the first
      report was a failure. */
  method BridgeStreams(firstFailed: bool, secondFailed: bool, cancelAt: nat) returns (drained: nat, closedEarly: bool)
    ensures drained == 2 && closedEarly == (cancelAt < 2 || firstFailed)
  {
    var remaining, failed := 2, false;
    drained, closedEarly := 0, false;
    while remaining > 0
      invariant 0 <= remaining <= 2 && drained == 2 - remaining
      invariant closedEarly == failed
      invariant failed ==> cancelAt < 2 || firstFailed
      invariant remaining == 2 && failed ==> cancelAt == 0
      invariant remaining <= 1 && (cancelAt == 0 || firstFailed) ==> failed
      invariant remaining == 0 && cancelAt == 1 ==> failed
      decreases remaining, if failed then 0 else 1
    {
      if failed {
        remaining, drained := remaining - 1, drained + 1;
      } else if cancelAt <= drained {
        failed, closedEarly := true, true;
      } else {
        var result := if drained == 0 then firstFailed else secondFailed;
        remaining, drained := remaining - 1, drained + 1;
        if result && remaining > 0 { failed, closedEarly := true, true; }
      }
    }
  }
}
