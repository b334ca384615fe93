// Handing tasks to an event loop from other threads: a lock-protected queue, an
// unlocked `notified_` flag and an eventfd, interleaved at the grain of single
// atomic accesses.

module EventLoop {

  type Task = nat

  /** A cross-thread call of `sendToQueue`, after its push under the lock. */
  datatype Sender =
    | Pushed        // before the increment of pending_tasks_size_
    | Counted       // before the load of notified_
    | SawClear      // loaded false, before the store of true
    | Storing       // stored true, before the eventfd write
    | Finished

  /** The loop thread. */
  datatype Consumer =
    | Idle                           // waiting for the eventfd
    | Got                            // read the eventfd, doPendingTasks not yet locked
    | Cleared                        // lock held, notified_ cleared, not yet swapped
    | Draining(rest: seq<Task>)      // about to run rest[0], or done when it is empty
    | Ran(rest: seq<Task>)           // task returned, counter not yet decremented

  datatype State = State(
    pending: seq<Task>,
    size: int,
    notified: bool,
    eventfd: nat,
    senders: seq<Sender>,
    consumer: Consumer,
    pushed: seq<Task>,      // history: cross-thread pushes, in lock order
    executed: seq<Task>,    // history: tasks run from the queue
    direct: seq<Task>       // history: tasks run at once because the caller is the loop thread
  )

  const SIGNAL: nat := 3399

  datatype Label =
    | SendHere(task: Task)
    | Push(task: Task)
    | Count(i: nat)
    | Load(i: nat)
    | Store(i: nat)
    | Signal(i: nat)
    | ReadEvent
    | Clear
    | Swap
    | RunTask
    | Uncount
    | EndBatch

  function Init(): State { State([], 0, false, 0, [], Idle, [], [], []) }

  predicate SenderAt(s: State, i: nat, p: Sender) { i < |s.senders| && s.senders[i] == p }

  /** The loop thread runs user code only while draining, or in a handler while idle. */
  predicate InUserCode(c: Consumer) { c.Idle? || c.Draining? }

  predicate Enabled(s: State, l: Label) {
    match l
    case SendHere(_) => InUserCode(s.consumer)
    case Push(_) => !s.consumer.Cleared?          // mutex_ must be free
    case Count(i) => SenderAt(s, i, Pushed)
    case Load(i) => SenderAt(s, i, Counted)
    case Store(i) => SenderAt(s, i, SawClear)
    case Signal(i) => SenderAt(s, i, Storing)
    case ReadEvent => s.consumer.Idle? && s.eventfd > 0
    case Clear => s.consumer.Got?
    case Swap => s.consumer.Cleared?
    case RunTask => s.consumer.Draining? && s.consumer.rest != []
    case Uncount => s.consumer.Ran?
    case EndBatch => s.consumer == Draining([])
  }

  function Move(s: State, i: nat, p: Sender): State
    requires i < |s.senders|
  {
    s.(senders := s.senders[i := p])
  }

  function Step(s: State, l: Label): State
    requires Enabled(s, l)
  {
    match l
    case SendHere(t) => s.(direct := s.direct + [t])
    case Push(t) =>
      s.(pending := s.pending + [t], pushed := s.pushed + [t], senders := s.senders + [Pushed])
    case Count(i) => Move(s, i, Counted).(size := s.size + 1)
    case Load(i) => Move(s, i, if s.notified then Finished else SawClear)
    case Store(i) => Move(s, i, Storing).(notified := true)
    case Signal(i) => Move(s, i, Finished).(eventfd := s.eventfd + SIGNAL)
    case ReadEvent => s.(consumer := Got, eventfd := 0)
    case Clear => s.(consumer := Cleared, notified := false)
    case Swap => s.(consumer := Draining(s.pending), pending := [])
    case RunTask =>
      s.(consumer := Ran(s.consumer.rest[1..]), executed := s.executed + [s.consumer.rest[0]])
    case Uncount => s.(consumer := Draining(s.consumer.rest), size := s.size - 1)
    case EndBatch => s.(consumer := Idle)
  }

  ghost predicate Runs(s: State, ls: seq<Label>, s': State)
    decreases |ls|
  {
    if ls == [] then s == s'
    else Enabled(s, ls[0]) && Runs(Step(s, ls[0]), ls[1..], s')
  }

  ghost predicate Reachable(s: State) {
    exists ls :: Runs(Init(), ls, s)
  }

  // ---------- no lost wakeup ----------

  /** A signal is on its way to the loop: a sender is about to write it, the eventfd
      holds it, or the loop has read it and not yet cleared the flag. */
  ghost predicate SignalOutstanding(s: State) {
    s.eventfd > 0 || s.consumer.Got? || exists i: nat :: SenderAt(s, i, Storing)
  }

  predicate Busy(p: Sender) { !p.Finished? }

  ghost predicate SenderBusy(s: State) {
    exists i: nat :: i < |s.senders| && Busy(s.senders[i])
  }

  /** Somebody will still look at the pending queue. */
  ghost predicate Attended(s: State) {
    s.eventfd > 0 || s.consumer.Got? || s.consumer.Cleared? || SenderBusy(s)
  }

  ghost predicate WakeInv(s: State) {
    && (s.notified ==> SignalOutstanding(s))
    && (s.pending != [] ==> Attended(s))
  }

  lemma OutstandingIsAttended(s: State)
    requires SignalOutstanding(s)
    ensures Attended(s)
  {
    if i: nat :| SenderAt(s, i, Storing) { assert Busy(s.senders[i]); }
  }

  lemma KeepBusy(s: State, i: nat, p: Sender, s': State)
    requires WakeInv(s) && i < |s.senders| && Busy(p) && !s.senders[i].Storing?
    requires s'.senders == s.senders[i := p] && s'.eventfd == s.eventfd
    requires s'.notified == s.notified && s'.consumer == s.consumer && s'.pending == s.pending
    ensures WakeInv(s')
  {
    assert Busy(s'.senders[i]);
    if s.notified && !(s.eventfd > 0 || s.consumer.Got?) {
      var j: nat :| SenderAt(s, j, Storing);
      assert SenderAt(s', j, Storing);
    }
  }

  lemma KeepSenders(s: State, s': State)
    requires WakeInv(s) && s'.senders == s.senders && s'.notified == s.notified && s'.eventfd == s.eventfd
    requires s'.pending == s.pending || s'.pending == []
    requires s.consumer.Got? ==> s'.consumer.Got?
    requires s.consumer.Cleared? ==> s'.consumer.Cleared? || s'.pending == []
    ensures WakeInv(s')
  {
    if s.notified && !(s.eventfd > 0 || s.consumer.Got?) {
      var j: nat :| SenderAt(s, j, Storing);
      assert SenderAt(s', j, Storing);
    }
    if SenderBusy(s) {
      var j: nat :| j < |s.senders| && Busy(s.senders[j]);
      assert Busy(s'.senders[j]);
    }
  }

  lemma StepWake(s: State, l: Label)
    requires WakeInv(s) && Enabled(s, l)
    ensures WakeInv(Step(s, l))
  {
    var s' := Step(s, l);
    match l
    case SendHere(_) => KeepSenders(s, s');
    case Push(_) =>
      assert Busy(s'.senders[|s.senders|]);
      if s.notified && !(s.eventfd > 0 || s.consumer.Got?) {
        var j: nat :| SenderAt(s, j, Storing);
        assert SenderAt(s', j, Storing);
      }
    case Count(i) => KeepBusy(s, i, Counted, s');
    case Load(i) =>
      if s.notified {
        if j: nat :| SenderAt(s, j, Storing) { assert SenderAt(s', j, Storing); }
        assert SignalOutstanding(s');
        OutstandingIsAttended(s');
      } else {
        KeepBusy(s, i, SawClear, s');
      }
    case Store(i) => assert SenderAt(s', i, Storing); OutstandingIsAttended(s');
    case Signal(i) =>
    case ReadEvent =>
    case Clear =>
    case Swap => KeepSenders(s, s');
    case RunTask => KeepSenders(s, s');
    case Uncount => KeepSenders(s, s');
    case EndBatch => KeepSenders(s, s');
  }

  // ---------- exactly once, in order, and the counter ----------

  function Rest(c: Consumer): seq<Task> { if c.Draining? || c.Ran? then c.rest else [] }

  function Uncounted(ss: seq<Sender>): nat {
    if ss == [] then 0 else (if ss[0].Pushed? then 1 else 0) + Uncounted(ss[1..])
  }

  ghost predicate OrderInv(s: State) {
    && s.executed + Rest(s.consumer) + s.pending == s.pushed
    && s.size == |Rest(s.consumer)| + |s.pending| - Uncounted(s.senders) + (if s.consumer.Ran? then 1 else 0)
  }

  lemma {:induction false} UncountedMove(ss: seq<Sender>, i: nat, p: Sender)
    requires i < |ss|
    ensures Uncounted(ss[i := p]) ==
            Uncounted(ss) - (if ss[i].Pushed? then 1 else 0) + (if p.Pushed? then 1 else 0)
  {
    if i == 0 {
      assert ss[i := p][1..] == ss[1..];
    } else {
      UncountedMove(ss[1..], i - 1, p);
      assert ss[i := p][1..] == ss[1..][i - 1 := p];
    }
  }

  lemma {:induction false} UncountedAppend(ss: seq<Sender>, p: Sender)
    ensures Uncounted(ss + [p]) == Uncounted(ss) + (if p.Pushed? then 1 else 0)
  {
    if ss == [] {
      assert ss + [p] == [p];
    } else {
      assert (ss + [p])[1..] == ss[1..] + [p];
      UncountedAppend(ss[1..], p);
    }
  }

  lemma StepOrder(s: State, l: Label)
    requires OrderInv(s) && Enabled(s, l)
    ensures OrderInv(Step(s, l))
  {
    match l
    case Push(t) =>
      UncountedAppend(s.senders, Pushed);
      assert s.executed + Rest(s.consumer) + (s.pending + [t]) == s.executed + Rest(s.consumer) + s.pending + [t];
    case Count(i) => UncountedMove(s.senders, i, Counted);
    case Load(i) => UncountedMove(s.senders, i, if s.notified then Finished else SawClear);
    case Store(i) => UncountedMove(s.senders, i, Storing);
    case Signal(i) => UncountedMove(s.senders, i, Finished);
    case Swap => assert s.executed + [] + s.pending == s.executed + s.pending + [];
    case RunTask =>
      var r := s.consumer.rest;
      assert r == [r[0]] + r[1..];
      assert s.executed + r == s.executed + [r[0]] + r[1..];
    case _ =>
  }

  lemma {:induction false} RunInv(s: State, ls: seq<Label>, s': State)
    requires WakeInv(s) && OrderInv(s) && Runs(s, ls, s')
    ensures WakeInv(s') && OrderInv(s')
    decreases |ls|
  {
    if ls != [] {
      StepWake(s, ls[0]);
      StepOrder(s, ls[0]);
      RunInv(Step(s, ls[0]), ls[1..], s');
    }
  }

  lemma ReachableInv(s: State)
    requires Reachable(s)
    ensures WakeInv(s) && OrderInv(s)
  {
    var ls :| Runs(Init(), ls, s);
    RunInv(Init(), ls, s);
  }

  /** No lost wakeup, for any number of senders and any interleaving. */
  lemma NoLostWakeup(s: State)
    requires Reachable(s)
    ensures s.pending != [] ==> Attended(s)
    ensures s.notified ==> SignalOutstanding(s)
  {
    ReachableInv(s);
  }

  /** The tasks of the cross-thread calls of a run, in the order in which they got the lock. */
  function Pushes(ls: seq<Label>): seq<Task> {
    if ls == [] then [] else (if ls[0].Push? then [ls[0].task] else []) + Pushes(ls[1..])
  }

  /** The tasks of the calls made on the loop thread itself. */
  function Heres(ls: seq<Label>): seq<Task> {
    if ls == [] then [] else (if ls[0].SendHere? then [ls[0].task] else []) + Heres(ls[1..])
  }

  lemma {:induction false} RunCalls(s: State, ls: seq<Label>, s': State)
    requires Runs(s, ls, s')
    ensures s'.pushed == s.pushed + Pushes(ls) && s'.direct == s.direct + Heres(ls)
    decreases |ls|
  {
    if ls != [] {
      var p := if ls[0].Push? then [ls[0].task] else [];
      var h := if ls[0].SendHere? then [ls[0].task] else [];
      assert Step(s, ls[0]).pushed == s.pushed + p && Step(s, ls[0]).direct == s.direct + h;
      RunCalls(Step(s, ls[0]), ls[1..], s');
      assert s.pushed + p + Pushes(ls[1..]) == s.pushed + (p + Pushes(ls[1..]));
      assert s.direct + h + Heres(ls[1..]) == s.direct + (h + Heres(ls[1..]));
    }
  }

  lemma CallsFromStart(ls: seq<Label>, s: State)
    requires Runs(Init(), ls, s)
    ensures Reachable(s) && s.pushed == Pushes(ls) && s.direct == Heres(ls)
  {
    RunCalls(Init(), ls, s);
    assert [] + Pushes(ls) == Pushes(ls) && [] + Heres(ls) == Heres(ls);
  }

  /** Exactly once and FIFO: executed, then the rest of the batch, then the queue, are the push
      order; the counter is the number of unexecuted tasks less the pushes not yet counted,
      plus the task just run and not yet uncounted. */
  lemma HandoffIsFifo(ls: seq<Label>, s: State)
    requires Runs(Init(), ls, s)
    ensures s.executed + Rest(s.consumer) + s.pending == Pushes(ls) && s.direct == Heres(ls)
    ensures s.size == |Pushes(ls)| - |s.executed| - Uncounted(s.senders) + (if s.consumer.Ran? then 1 else 0)
  {
    CallsFromStart(ls, s);
    ReachableInv(s);
  }

  // ---------- draining ----------

  predicate IsNewCall(l: Label) { l.Push? || l.SendHere? }

  function SenderEffort(p: Sender): nat {
    match p
    case Pushed => 9
    case Counted => 8
    case SawClear => 7
    case Storing => 6
    case Finished => 0
  }

  function SenderEfforts(ss: seq<Sender>): nat {
    if ss == [] then 0 else SenderEffort(ss[0]) + SenderEfforts(ss[1..])
  }

  function ConsumerEffort(c: Consumer): nat {
    match c
    case Idle => 0
    case Got => 4
    case Cleared => 3
    case Draining(r) => 1 + 2 * |r|
    case Ran(r) => 2 + 2 * |r|
  }

  function Measure(s: State): nat {
    SenderEfforts(s.senders) + (if s.eventfd > 0 then 5 else 0) + ConsumerEffort(s.consumer) + 2 * |s.pending|
  }

  lemma {:induction false} EffortsMove(ss: seq<Sender>, i: nat, p: Sender)
    requires i < |ss|
    ensures SenderEfforts(ss[i := p]) == SenderEfforts(ss) - SenderEffort(ss[i]) + SenderEffort(p)
  {
    if i == 0 {
      assert ss[i := p][1..] == ss[1..];
    } else {
      EffortsMove(ss[1..], i - 1, p);
      assert ss[i := p][1..] == ss[1..][i - 1 := p];
    }
  }

  lemma StepDecreases(s: State, l: Label)
    requires Enabled(s, l) && !IsNewCall(l)
    ensures Measure(Step(s, l)) < Measure(s)
  {
    match l
    case Count(i) => EffortsMove(s.senders, i, Counted);
    case Load(i) => EffortsMove(s.senders, i, if s.notified then Finished else SawClear);
    case Store(i) => EffortsMove(s.senders, i, Storing);
    case Signal(i) => EffortsMove(s.senders, i, Finished);
    case _ =>
  }

  /** Without new calls every run is finite, whatever the schedule... */
  lemma {:induction false} DrainTerminates(s: State, ls: seq<Label>, s': State)
    requires Runs(s, ls, s') && forall l :: l in ls ==> !IsNewCall(l)
    ensures |ls| + Measure(s') <= Measure(s)
    decreases |ls|
  {
    if ls != [] {
      StepDecreases(s, ls[0]);
      DrainTerminates(Step(s, ls[0]), ls[1..], s');
    }
  }

  lemma {:induction false} AllFinished(ss: seq<Sender>)
    requires forall i: nat :: i < |ss| ==> ss[i].Finished?
    ensures Uncounted(ss) == 0
  {
    if ss != [] { AllFinished(ss[1..]); }
  }

  ghost predicate Quiescent(s: State) {
    forall l :: Enabled(s, l) ==> IsNewCall(l)
  }

  lemma QuiescentIdle(s: State)
    requires Quiescent(s)
    ensures s.consumer == Idle && s.eventfd == 0 && forall i: nat :: i < |s.senders| ==> s.senders[i].Finished?
  {
    assert !Enabled(s, Clear) && !Enabled(s, Swap) && !Enabled(s, RunTask) && !Enabled(s, Uncount);
    assert !Enabled(s, EndBatch) && !Enabled(s, ReadEvent);
    forall i: nat | i < |s.senders| ensures s.senders[i].Finished? {
      assert !Enabled(s, Count(i)) && !Enabled(s, Load(i)) && !Enabled(s, Store(i)) && !Enabled(s, Signal(i));
    }
  }

  /** ...and where it ends, every task pushed has been executed once, in push order,
      the counter reads zero and the flag is down, ready for the next call. */
  lemma QuiescentMeansAllExecuted(ls: seq<Label>, s: State)
    requires Runs(Init(), ls, s) && Quiescent(s)
    ensures s.executed == Pushes(ls) && s.pending == [] && s.size == 0
    ensures !s.notified && s.eventfd == 0 && s.consumer == Idle
  {
    CallsFromStart(ls, s);
    ReachableInv(s);
    QuiescentIdle(s);
    AllFinished(s.senders);
  }

  // ---------- the loop object ----------

  ghost predicate Inv(s: State) { WakeInv(s) && OrderInv(s) }

  /** The state after a wakeup has been handled without interference. */
  function Handled(s: State): State {
    s.(eventfd := 0, notified := false, pending := [], consumer := Idle,
       executed := s.executed + s.pending, size := s.size - |s.pending|)
  }

  lemma HandledInv(s: State)
    requires Inv(s) && s.consumer.Idle?
    ensures Inv(Handled(s))
  {
    assert s.executed + [] + s.pending == s.executed + s.pending + [] + [];
  }

  lemma StepAll(s: State, l: Label)
    requires Inv(s) && Enabled(s, l)
    ensures Inv(Step(s, l))
  {
    StepWake(s, l);
    StepOrder(s, l);
  }

  /** The loop as the code has it.  The small methods are the atomic accesses, each one step
      of the transition system; other threads may run between any two of them.  The methods
      for whole functions show what a call does when nothing interferes. */
  class Loop {
    var pendingTasks: seq<Task>
    var pendingTasksSize: int
    var notified: bool
    var eventfd: nat
    var senders: seq<Sender>
    var consumer: Consumer
    ghost var pushed: seq<Task>
    ghost var executed: seq<Task>
    ghost var direct: seq<Task>

    ghost function View(): State
      reads this
    {
      State(pendingTasks, pendingTasksSize, notified, eventfd, senders, consumer, pushed, executed, direct)
    }

    constructor ()
      ensures View() == Init() && Inv(View())
    {
      pendingTasks, pendingTasksSize, notified, eventfd := [], 0, false, 0;
      senders, consumer := [], Idle;
      pushed, executed, direct := [], [], [];
    }

    method PushPending(task: Task)
      requires Enabled(View(), Push(task))
      modifies this
      ensures View() == Step(old(View()), Push(task))
    {
      pendingTasks := pendingTasks + [task];
      pushed := pushed + [task];
      senders := senders + [Pushed];
    }

    method CountPending(i: nat)
      requires Enabled(View(), Count(i))
      modifies this
      ensures View() == Step(old(View()), Count(i))
    {
      pendingTasksSize := pendingTasksSize + 1;
      senders := senders[i := Counted];
    }

    method LoadNotified(i: nat) returns (seen: bool)
      requires Enabled(View(), Load(i))
      modifies this
      ensures View() == Step(old(View()), Load(i)) && seen == notified
    {
      seen := notified;
      senders := senders[i := if seen then Finished else SawClear];
    }

    method StoreNotified(i: nat)
      requires Enabled(View(), Store(i))
      modifies this
      ensures View() == Step(old(View()), Store(i))
    {
      notified := true;
      senders := senders[i := Storing];
    }

    method EventNotify(i: nat)
      requires Enabled(View(), Signal(i))
      modifies this
      ensures View() == Step(old(View()), Signal(i)) && eventfd == old(eventfd) + 3399
    {
      eventfd := eventfd + SIGNAL;
      senders := senders[i := Finished];
    }

    /** A whole call of sendToQueue: on the loop thread the task runs at once; from another
        thread it is queued last, counted, and the loop is certain to hear of it. */
    method SendToQueue(task: Task, onLoopThread: bool)
      requires Inv(View())
      requires if onLoopThread then InUserCode(consumer) else !consumer.Cleared?
      modifies this
      ensures Inv(View())
      ensures if onLoopThread then View() == old(View()).(direct := old(direct) + [task])
              else pendingTasks == old(pendingTasks) + [task] && pendingTasksSize == old(pendingTasksSize) + 1 &&
                   consumer == old(consumer) && notified && SignalOutstanding(View()) &&
                   executed == old(executed) && direct == old(direct)
    {
      StepAll(View(), if onLoopThread then SendHere(task) else Push(task));
      if onLoopThread {
        direct := direct + [task];
        return;
      }
      var i := |senders|;
      PushPending(task);
      StepAll(View(), Count(i));
      CountPending(i);
      StepAll(View(), Load(i));
      var seen := LoadNotified(i);
      if !seen {
        StepAll(View(), Store(i));
        StoreNotified(i);
        StepAll(View(), Signal(i));
        EventNotify(i);
      }
    }

    method TakeBatch() returns (batch: seq<Task>)
      requires Enabled(View(), ReadEvent)
      modifies this
      ensures batch == old(pendingTasks)
      ensures View() == Step(Step(Step(old(View()), ReadEvent), Clear), Swap)
    {
      eventfd, consumer := 0, Got;
      notified, consumer := false, Cleared;
      batch := pendingTasks;
      pendingTasks, consumer := [], Draining(batch);
    }

    method RunFront()
      requires Enabled(View(), RunTask)
      modifies this
      ensures View() == Step(Step(old(View()), RunTask), Uncount)
    {
      executed := executed + [consumer.rest[0]];
      consumer := Ran(consumer.rest[1..]);
      pendingTasksSize := pendingTasksSize - 1;
      consumer := Draining(consumer.rest);
    }

    /** The loop of doPendingTasks over the list it has swapped out. */
    method RunBatch(batch: seq<Task>)
      requires consumer == Draining(batch)
      modifies this
      ensures View() == old(View()).(consumer := Draining([]), executed := old(executed) + batch,
                                     size := old(pendingTasksSize) - |batch|)
    {
      var i := 0;
      while i < |batch|
        invariant 0 <= i <= |batch|
        invariant View() == old(View()).(consumer := Draining(batch[i..]), executed := old(executed) + batch[..i],
                                         size := old(pendingTasksSize) - i)
      {
        RunFront();
        assert batch[i..][1..] == batch[i + 1..];
        assert old(executed) + batch[..i] + [batch[i]] == old(executed) + batch[..i + 1];
        i := i + 1;
      }
      assert batch[..i] == batch && batch[i..] == [];
    }

    /** The eventfd handler and doPendingTasks: everything queued is run once, in order. */
    method EventfdNotifyHandle()
      requires Inv(View()) && Enabled(View(), ReadEvent)
      modifies this
      ensures Inv(View())
      ensures View() == Handled(old(View()))
    {
      HandledInv(View());
      var batch := TakeBatch();
      RunBatch(batch);
      consumer := Idle;
    }
  }
}
