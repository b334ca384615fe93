// The dynamic thread pool: a mutex and condition-variable protocol, modelled as
// a labelled transition system whose steps are the critical sections of the code.

module ThreadPool {

  type Task = nat

  const MAX_THREADS: nat := 128

  /** Where a pool thread is between two critical sections.
      Top: about to lock at the head of the loop.  Blocked: inside `wait`.
      Woken: notified (or woken spuriously) but not yet holding the lock again.
      Running: executing the callback with that ticket, its position among the popped tasks.
      Leaving: out of the loop, epilogue pending. */
  datatype Worker = Top | Blocked | Woken | Running(ticket: nat) | Leaving | Dead

  /** The thread inside the pool's destructor. */
  datatype Closer = Absent | Waiting | Roused | Returned

  datatype State = State(
    core: nat,
    shutdown: bool,
    current: int,
    waiting: int,
    queue: seq<Task>,
    workers: seq<Worker>,
    dead: seq<nat>,
    closer: Closer,
    added: seq<Task>,       // history: every task ever pushed, in order
    taken: seq<Task>,       // history: every task popped, in order
    done: set<nat>          // history: tickets (positions in taken) whose callback returned
  )

  /** Who a `notify_one` releases: the scheduler picks among the waiters. */
  datatype Wake = Nobody | WakeWorker(i: nat) | WakeCloser

  datatype Caller = Outside | Inside(i: nat)

  datatype Label =
    | Add(caller: Caller, task: Task, wake: Wake)
    | Enter(i: nat)
    | Resume(i: nat)
    | Finish(i: nat)
    | Depart(i: nat, wake: Wake)
    | Spurious(i: nat)
    | Destroy
    | CloserResume
    | CloserSpurious

  function Repeat(w: Worker, n: nat): (ws: seq<Worker>)
    ensures |ws| == n && forall i :: 0 <= i < n ==> ws[i] == w
  {
    if n == 0 then [] else [w] + Repeat(w, n - 1)
  }

  function Init(core: nat): State {
    State(core, false, core, 0, [], Repeat(Top, core), [], Absent, [], [], {})
  }

  // ---------- the steps ----------

  predicate MayWake(s: State, w: Wake) {
    match w
    case Nobody => Blocked !in s.workers && !s.closer.Waiting?
    case WakeWorker(i) => i < |s.workers| && s.workers[i] == Blocked
    case WakeCloser => s.closer.Waiting?
  }

  function Notified(s: State, w: Wake): State
    requires MayWake(s, w)
  {
    match w
    case Nobody => s
    case WakeWorker(i) => s.(workers := s.workers[i := Woken])
    case WakeCloser => s.(closer := Roused)
  }

  function WakeAll(ws: seq<Worker>): (r: seq<Worker>)
    ensures |r| == |ws|
    ensures forall i :: 0 <= i < |ws| ==> r[i] == if ws[i] == Blocked then Woken else ws[i]
  {
    if ws == [] then [] else [if ws[0] == Blocked then Woken else ws[0]] + WakeAll(ws[1..])
  }

  predicate At(s: State, i: nat, w: Worker) {
    i < |s.workers| && s.workers[i] == w
  }

  function Move(s: State, i: nat, w: Worker): State
    requires i < |s.workers|
  {
    s.(workers := s.workers[i := w])
  }

  /** The tail of the loop body, after the optional wait. */
  function Dispatch(s: State, i: nat): State
    requires i < |s.workers|
  {
    if s.queue != [] then
      Move(s, i, Running(|s.taken|)).(queue := s.queue[1..], taken := s.taken + [s.queue[0]])
    else if s.shutdown then Move(s, i, Leaving)
    else Move(s, i, Top)
  }

  function Pushed(s: State, t: Task): State {
    s.(queue := s.queue + [t], added := s.added + [t])
  }

  predicate NotifiesOnAdd(s: State) { s.waiting != 0 }

  function Departed(s: State, i: nat): State
    requires i < |s.workers|
  {
    Move(s, i, Dead).(current := s.current - 1, dead := s.dead + [i])
  }

  /** A caller from outside must not race with the destructor; a running callback
      may add to its own pool at any time. */
  predicate MayCall(s: State, c: Caller) {
    match c
    case Outside => !s.shutdown
    case Inside(i) => i < |s.workers| && s.workers[i].Running?
  }

  predicate Enabled(s: State, l: Label) {
    match l
    case Add(c, t, w) =>
      MayCall(s, c) && if NotifiesOnAdd(s) then MayWake(s, w) else w == Nobody
    case Enter(i) => At(s, i, Top)
    case Resume(i) => At(s, i, Woken)
    case Finish(i) => i < |s.workers| && s.workers[i].Running?
    case Depart(i, w) =>
      At(s, i, Leaving) &&
      if s.shutdown && s.current == 1 then MayWake(Departed(s, i), w) else w == Nobody
    case Spurious(i) => At(s, i, Blocked)
    case Destroy => s.closer.Absent?
    case CloserResume => s.closer.Roused?
    case CloserSpurious => s.closer.Waiting?
  }

  function Step(s: State, l: Label): State
    requires Enabled(s, l)
  {
    match l
    case Add(c, t, w) =>
      var p := Pushed(s, t);
      if NotifiesOnAdd(s) then Notified(p, w)
      else if s.current >= MAX_THREADS then p
      else p.(current := s.current + 1, workers := s.workers + [Top])
    case Enter(i) =>
      if !s.shutdown && s.queue == [] then
        if s.waiting >= s.core then Move(s, i, Leaving)
        else Move(s, i, Blocked).(waiting := s.waiting + 1)
      else Dispatch(s, i)
    case Resume(i) => Dispatch(s.(waiting := s.waiting - 1), i)
    case Finish(i) => Move(s, i, Top).(done := s.done + {s.workers[i].ticket})
    case Depart(i, w) =>
      var p := Departed(s, i);
      if s.shutdown && p.current == 0 then Notified(p, w) else p
    case Spurious(i) => Move(s, i, Woken)
    case Destroy =>
      s.(shutdown := true, workers := WakeAll(s.workers),
         closer := if s.current == 0 then Returned else Waiting)
    case CloserResume => s.(closer := if s.current == 0 then Returned else Waiting)
    case CloserSpurious => s.(closer := Roused)
  }

  ghost predicate Runs(s: State, ls: seq<Label>, s': State)
    decreases |ls|
  {
    if ls == [] then s == s'
    else Enabled(s, ls[0]) && Runs(Step(s, ls[0]), ls[1..], s')
  }

  ghost predicate Reachable(core: nat, s: State) {
    exists ls :: Runs(Init(core), ls, s)
  }

  // ---------- counting workers ----------

  /** The sum of a weight over the workers. */
  function Total(ws: seq<Worker>, f: Worker -> nat): nat {
    if ws == [] then 0 else f(ws[0]) + Total(ws[1..], f)
  }

  lemma {:induction false} TotalMove(ws: seq<Worker>, i: nat, w: Worker, f: Worker -> nat)
    requires i < |ws|
    ensures Total(ws[i := w], f) == Total(ws, f) - f(ws[i]) + f(w)
  {
    if i == 0 {
      assert ws[i := w][1..] == ws[1..];
    } else {
      TotalMove(ws[1..], i - 1, w, f);
      assert ws[i := w][1..] == ws[1..][i - 1 := w];
    }
  }

  lemma {:induction false} TotalAppend(ws: seq<Worker>, w: Worker, f: Worker -> nat)
    ensures Total(ws + [w], f) == Total(ws, f) + f(w)
  {
    if ws == [] {
      assert ws + [w] == [w];
    } else {
      assert (ws + [w])[1..] == ws[1..] + [w];
      TotalAppend(ws[1..], w, f);
    }
  }

  lemma {:induction false} TotalAtLeast(ws: seq<Worker>, i: nat, f: Worker -> nat)
    requires i < |ws|
    ensures Total(ws, f) >= f(ws[i])
  {
    if i > 0 { TotalAtLeast(ws[1..], i - 1, f); }
  }

  lemma {:induction false} TotalWitness(ws: seq<Worker>, f: Worker -> nat)
    requires Total(ws, f) > 0
    ensures exists i :: 0 <= i < |ws| && f(ws[i]) > 0
  {
    if f(ws[0]) == 0 {
      TotalWitness(ws[1..], f);
      var j :| 0 <= j < |ws[1..]| && f(ws[1..][j]) > 0;
      assert f(ws[j + 1]) > 0;
    }
  }

  function Active(w: Worker): nat { if w.Top? || w.Running? then 1 else 0 }
  function Asleep(w: Worker): nat { if w.Blocked? then 1 else 0 }
  function Waking(w: Worker): nat { if w.Woken? then 1 else 0 }
  function Going(w: Worker): nat { if w.Leaving? then 1 else 0 }
  function Gone(w: Worker): nat { if w.Dead? then 1 else 0 }

  datatype Tally = Tally(active: nat, blocked: nat, woken: nat, leaving: nat, dead: nat)

  function Count(ws: seq<Worker>): Tally {
    Tally(Total(ws, Active), Total(ws, Asleep), Total(ws, Waking), Total(ws, Going), Total(ws, Gone))
  }

  lemma {:induction false} CountAll(ws: seq<Worker>)
    ensures var t := Count(ws); t.active + t.blocked + t.woken + t.leaving + t.dead == |ws|
  {
    if ws != [] { CountAll(ws[1..]); }
  }

  function Moved(n: nat, x: nat, y: nat): int { n - x + y }

  lemma CountMove(ws: seq<Worker>, i: nat, w: Worker)
    requires i < |ws|
    ensures var t, t', v := Count(ws), Count(ws[i := w]), ws[i];
            && t'.active == Moved(t.active, Active(v), Active(w))
            && t'.blocked == Moved(t.blocked, Asleep(v), Asleep(w))
            && t'.woken == Moved(t.woken, Waking(v), Waking(w))
            && t'.leaving == Moved(t.leaving, Going(v), Going(w))
            && t'.dead == Moved(t.dead, Gone(v), Gone(w))
  {
    TotalMove(ws, i, w, Active);
    TotalMove(ws, i, w, Asleep);
    TotalMove(ws, i, w, Waking);
    TotalMove(ws, i, w, Going);
    TotalMove(ws, i, w, Gone);
  }

  lemma CountAppend(ws: seq<Worker>)
    ensures Count(ws + [Top]) == Count(ws).(active := Count(ws).active + 1)
  {
    TotalAppend(ws, Top, Active);
    TotalAppend(ws, Top, Asleep);
    TotalAppend(ws, Top, Waking);
    TotalAppend(ws, Top, Going);
    TotalAppend(ws, Top, Gone);
  }

  lemma {:induction false} CountWakeAll(ws: seq<Worker>)
    ensures var t := Count(ws);
            Count(WakeAll(ws)) == t.(blocked := 0, woken := t.blocked + t.woken)
  {
    if ws != [] {
      assert WakeAll(ws)[1..] == WakeAll(ws[1..]);
      CountWakeAll(ws[1..]);
    }
  }

  lemma {:induction false} CountRepeat(n: nat)
    ensures Count(Repeat(Top, n)) == Tally(n, 0, 0, 0, 0)
  {
    if n > 0 {
      assert Repeat(Top, n)[1..] == Repeat(Top, n - 1);
      CountRepeat(n - 1);
    }
  }

  lemma {:induction false} AllDead(ws: seq<Worker>)
    requires forall i :: 0 <= i < |ws| ==> ws[i] == Dead
    ensures Count(ws).dead == |ws|
  {
    if ws != [] { AllDead(ws[1..]); }
  }

  // ---------- the invariant ----------

  /** The worker will inspect the queue before it can block or leave. */
  predicate Attentive(w: Worker) { w.Top? || w.Woken? || w.Running? }

  function Limit(core: nat): nat { if core > MAX_THREADS then core else MAX_THREADS }

  predicate NoRepeats(d: seq<nat>) {
    forall j, k :: 0 <= j < k < |d| ==> d[j] != d[k]
  }

  /** `waiting_threads_`, `current_threads_` and the dead list count what their names say;
      before shutdown at least `core` threads are neither leaving nor dead. */
  ghost predicate Population(s: State) {
    var t := Count(s.workers);
    && s.waiting == t.blocked + t.woken <= s.core
    && s.current == |s.workers| - |s.dead| <= Limit(s.core)
    && |s.dead| == t.dead
    && s.current == t.active + t.blocked + t.woken + t.leaving
    && (forall k :: 0 <= k < |s.dead| ==> At(s, s.dead[k], Dead))
    && NoRepeats(s.dead)
    && (!s.shutdown ==> t.active + t.blocked + t.woken >= s.core)
  }

  ghost predicate Shutdown(s: State) {
    && (s.shutdown <==> !s.closer.Absent?)
    && (s.shutdown ==> Count(s.workers).blocked == 0)
    && (s.closer.Waiting? ==> s.current > 0)
    && (s.closer.Returned? ==> s.current == 0)
  }

  ghost predicate Attended(s: State) {
    s.queue != [] ==> Count(s.workers).active + Count(s.workers).woken >= 1
  }

  ghost predicate Numbers(s: State) {
    Population(s) && Shutdown(s) && (s.core >= 1 ==> Attended(s))
  }

  ghost predicate HeldBySomeone(s: State, k: nat) {
    exists i: nat :: At(s, i, Running(k))
  }

  /** Popped tasks followed by the queue are the add order, and every popped task
      is either finished or in the hands of exactly one worker, never both. */
  ghost predicate History(s: State) {
    && s.taken + s.queue == s.added
    && (forall k: nat :: k < |s.taken| ==> k in s.done || HeldBySomeone(s, k))
    && (forall k :: k in s.done ==> k < |s.taken|)
    && (forall i: nat, k: nat :: At(s, i, Running(k)) ==> k < |s.taken| && k !in s.done)
    && (forall i: nat, j: nat, k: nat :: At(s, i, Running(k)) && At(s, j, Running(k)) ==> i == j)
  }

  ghost predicate Inv(s: State) { Numbers(s) && History(s) }

  lemma InitNumbers(core: nat)
    ensures Numbers(Init(core))
  {
    CountRepeat(core);
  }

  lemma InitHistory(core: nat)
    ensures History(Init(core))
  {
    var s := Init(core);
    assert forall i: nat :: i < |s.workers| ==> s.workers[i] == Top;
  }

  // ---------- every step keeps the numbers ----------

  /** Moving one live worker changes two counts by one and leaves the dead list valid. */
  lemma MoveNumbers(s: State, i: nat, w: Worker)
    requires i < |s.workers| && s.workers[i] != Dead
    requires forall k :: 0 <= k < |s.dead| ==> At(s, s.dead[k], Dead)
    ensures var t, t', v := Count(s.workers), Count(s.workers[i := w]), s.workers[i];
            && t'.active == Moved(t.active, Active(v), Active(w))
            && t'.blocked == Moved(t.blocked, Asleep(v), Asleep(w))
            && t'.woken == Moved(t.woken, Waking(v), Waking(w))
            && t'.leaving == Moved(t.leaving, Going(v), Going(w))
            && t'.dead == Moved(t.dead, Gone(v), Gone(w))
    ensures forall k :: 0 <= k < |s.dead| ==> At(Move(s, i, w), s.dead[k], Dead)
  {
    CountMove(s.workers, i, w);
  }

  lemma TakeNumbers(s: State, i: nat)
    requires Numbers(s) && s.queue != [] && At(s, i, Top)
    ensures Numbers(Dispatch(s, i))
  {
    MoveNumbers(s, i, Running(|s.taken|));
    TotalAtLeast(s.workers, i, Active);
  }

  lemma LeaveNumbers(s: State, i: nat)
    requires Numbers(s) && s.queue == [] && At(s, i, Top) && (s.shutdown || s.waiting >= s.core)
    ensures Numbers(Move(s, i, Leaving))
  {
    MoveNumbers(s, i, Leaving);
  }

  lemma BlockNumbers(s: State, i: nat)
    requires Numbers(s) && s.queue == [] && At(s, i, Top) && !s.shutdown && s.waiting < s.core
    ensures Numbers(Move(s, i, Blocked).(waiting := s.waiting + 1))
  {
    MoveNumbers(s, i, Blocked);
  }

  lemma EnterNumbers(s: State, i: nat)
    requires Numbers(s) && Enabled(s, Enter(i))
    ensures Numbers(Step(s, Enter(i)))
  {
    if s.queue != [] {
      TakeNumbers(s, i);
    } else if s.shutdown || s.waiting >= s.core {
      LeaveNumbers(s, i);
    } else {
      BlockNumbers(s, i);
    }
  }

  lemma ResumeNumbers(s: State, i: nat, w: Worker)
    requires Numbers(s) && Enabled(s, Resume(i)) && w == Step(s, Resume(i)).workers[i]
    ensures Numbers(Step(s, Resume(i)))
  {
    MoveNumbers(s, i, w);
    TotalAtLeast(s.workers, i, Waking);
  }

  lemma NotifyNumbers(s: State, p: State, w: Wake)
    requires Numbers(s) && s.waiting != 0
    requires p == s.(queue := p.queue, added := p.added)
    requires MayWake(p, w)
    ensures Numbers(Notified(p, w))
  {
    match w
    case Nobody =>
      if Count(s.workers).blocked > 0 { TotalWitness(s.workers, Asleep); }
    case WakeWorker(i) =>
      MoveNumbers(s, i, Woken);
    case WakeCloser =>
      if Count(s.workers).blocked > 0 { TotalWitness(s.workers, Asleep); }
  }

  lemma SpawnNumbers(s: State, s': State)
    requires Numbers(s) && s.current < MAX_THREADS
    requires s' == s.(queue := s'.queue, added := s'.added, current := s.current + 1, workers := s.workers + [Top])
    requires s.closer.Returned? ==> Count(s.workers).active > 0
    ensures Numbers(s')
  {
    CountAppend(s.workers);
    CountAll(s.workers);
  }

  lemma AddNumbers(s: State, c: Caller, t: Task, w: Wake)
    requires Numbers(s) && Enabled(s, Add(c, t, w))
    ensures Numbers(Step(s, Add(c, t, w)))
  {
    if c.Inside? { TotalAtLeast(s.workers, c.i, Active); }
    if NotifiesOnAdd(s) {
      NotifyNumbers(s, Pushed(s, t), w);
    } else if s.current < MAX_THREADS {
      SpawnNumbers(s, Step(s, Add(c, t, w)));
    }
  }

  lemma DepartedNumbers(s: State, i: nat)
    requires Numbers(s) && At(s, i, Leaving)
    ensures var p := Departed(s, i);
            Numbers(p.(closer := if p.closer.Waiting? && p.current == 0 then Roused else p.closer))
  {
    MoveNumbers(s, i, Dead);
    CountAll(s.workers);
  }

  lemma DepartedBlocked(s: State, i: nat)
    requires Numbers(s) && At(s, i, Leaving) && s.shutdown
    ensures Blocked !in Departed(s, i).workers
  {
    forall j | 0 <= j < |s.workers| ensures s.workers[j] != Blocked { TotalAtLeast(s.workers, j, Asleep); }
  }

  lemma DepartNumbers(s: State, i: nat, w: Wake)
    requires Numbers(s) && Enabled(s, Depart(i, w))
    ensures Numbers(Step(s, Depart(i, w)))
  {
    DepartedNumbers(s, i);
    if s.shutdown { DepartedBlocked(s, i); }
  }

  lemma FinishNumbers(s: State, i: nat)
    requires Numbers(s) && Enabled(s, Finish(i))
    ensures Numbers(Step(s, Finish(i)))
  {
    MoveNumbers(s, i, Top);
  }

  lemma SpuriousNumbers(s: State, i: nat)
    requires Numbers(s) && Enabled(s, Spurious(i))
    ensures Numbers(Step(s, Spurious(i)))
  {
    MoveNumbers(s, i, Woken);
  }

  lemma DestroyNumbers(s: State)
    requires Numbers(s) && Enabled(s, Destroy)
    ensures Numbers(Step(s, Destroy))
  {
    CountWakeAll(s.workers);
  }

  lemma StepNumbers(s: State, l: Label)
    requires Numbers(s) && Enabled(s, l)
    ensures Numbers(Step(s, l))
  {
    match l
    case Add(c, t, w) => AddNumbers(s, c, t, w);
    case Enter(i) => EnterNumbers(s, i);
    case Resume(i) => ResumeNumbers(s, i, Step(s, l).workers[i]);
    case Finish(i) => FinishNumbers(s, i);
    case Depart(i, w) => DepartNumbers(s, i, w);
    case Spurious(i) => SpuriousNumbers(s, i);
    case Destroy => DestroyNumbers(s);
    case CloserResume =>
    case CloserSpurious =>
  }

  // ---------- every step keeps the history ----------

  /** A step that neither pops nor finishes a task leaves every ticket where it was. */
  lemma SameTickets(s: State, s': State)
    requires History(s)
    requires s'.taken == s.taken && s'.done == s.done && s'.taken + s'.queue == s'.added
    requires forall i: nat, k: nat :: At(s, i, Running(k)) <==> At(s', i, Running(k))
    ensures History(s')
  {
    forall k: nat | k < |s'.taken| && k !in s'.done
      ensures HeldBySomeone(s', k)
    {
      assert HeldBySomeone(s, k);
      var i: nat :| At(s, i, Running(k));
      assert At(s', i, Running(k));
    }
  }

  lemma TakeHistory(s: State, s': State, i: nat)
    requires History(s) && s.queue != []
    requires i < |s.workers| && !s.workers[i].Running?
    requires s' == Dispatch(s, i)
    ensures History(s')
  {
    assert s.queue == [s.queue[0]] + s.queue[1..];
    assert s'.taken + s'.queue == s.taken + s.queue;
    assert At(s', i, Running(|s.taken|));
    forall k: nat | k < |s'.taken| && k !in s'.done
      ensures HeldBySomeone(s', k)
    {
      if k < |s.taken| {
        assert HeldBySomeone(s, k);
        var j: nat :| At(s, j, Running(k));
        assert At(s', j, Running(k));
      }
    }
    forall j: nat, k: nat | At(s', j, Running(k)) && j != i
      ensures At(s, j, Running(k)) && k < |s.taken|
    {
      assert At(s, j, Running(k));
    }
  }

  lemma FinishHistory(s: State, i: nat)
    requires History(s) && Enabled(s, Finish(i))
    ensures History(Step(s, Finish(i)))
  {
    var s' := Step(s, Finish(i));
    assert At(s, i, Running(s.workers[i].ticket));
    forall k: nat | k < |s'.taken| && k !in s'.done
      ensures HeldBySomeone(s', k)
    {
      assert HeldBySomeone(s, k);
      var j: nat :| At(s, j, Running(k));
      assert At(s', j, Running(k));
    }
    forall j: nat, k: nat | At(s', j, Running(k))
      ensures At(s, j, Running(k)) && j != i
    {
    }
  }

  lemma ResumeHistory(s: State, i: nat)
    requires History(s) && Enabled(s, Resume(i))
    ensures History(Step(s, Resume(i)))
  {
    var r := s.(waiting := s.waiting - 1);
    SameTickets(s, r);
    if s.queue != [] {
      TakeHistory(r, Step(s, Resume(i)), i);
    } else {
      SameTickets(r, Step(s, Resume(i)));
    }
  }

  lemma AddHistory(s: State, l: Label)
    requires History(s) && Enabled(s, l) && l.Add?
    ensures History(Step(s, l))
  {
    assert s.taken + (s.queue + [l.task]) == s.taken + s.queue + [l.task];
    SameTickets(s, Step(s, l));
  }

  lemma StepHistory(s: State, l: Label)
    requires History(s) && Enabled(s, l)
    ensures History(Step(s, l))
  {
    var s' := Step(s, l);
    match l
    case Finish(i) => FinishHistory(s, i);
    case Enter(i) => if s.queue != [] { TakeHistory(s, s', i); } else { SameTickets(s, s'); }
    case Resume(i) => ResumeHistory(s, i);
    case Add(_, _, _) => AddHistory(s, l);
    case Depart(_, _) => SameTickets(s, s');
    case Spurious(_) => SameTickets(s, s');
    case Destroy => SameTickets(s, s');
    case CloserResume => SameTickets(s, s');
    case CloserSpurious => SameTickets(s, s');
  }

  /** What `add` does, case by case.  The task goes to the back.  When nobody waits, one thread more
      is alive, or there were 128 already; when somebody waits no thread is started, and before
      shutdown, if a worker is asleep, exactly one that is asleep is woken. */
  lemma AddCases(s: State, c: Caller, t: Task, w: Wake)
    requires Inv(s) && Enabled(s, Add(c, t, w))
    ensures var s' := Step(s, Add(c, t, w));
            && s'.queue == s.queue + [t]
            && (s.waiting == 0 && s.current < 128 ==> s'.workers == s.workers + [Top] && s'.current == s.current + 1)
            && (s.waiting == 0 && s.current >= 128 ==> s'.workers == s.workers && s'.current == s.current)
            && (s.waiting != 0 ==> s'.current == s.current && |s'.workers| == |s.workers|)
            && (s.waiting != 0 && Blocked in s.workers ==>
                exists i :: 0 <= i < |s.workers| && s.workers[i] == Blocked && s'.workers == s.workers[i := Woken])
  {
    if s.waiting != 0 && Blocked in s.workers {
      var j :| 0 <= j < |s.workers| && s.workers[j] == Blocked;
      TotalAtLeast(s.workers, j, Asleep);
      assert w.WakeWorker?;
      assert s.workers[w.i] == Blocked;
    }
  }

  // ---------- whole runs ----------

  lemma {:induction false} RunInv(s: State, ls: seq<Label>, s': State)
    requires Inv(s) && Runs(s, ls, s')
    ensures Inv(s') && s'.core == s.core
    decreases |ls|
  {
    if ls != [] {
      StepNumbers(s, ls[0]);
      StepHistory(s, ls[0]);
      RunInv(Step(s, ls[0]), ls[1..], s');
    }
  }

  lemma ReachableInv(core: nat, s: State)
    requires Reachable(core, s)
    ensures Inv(s) && s.core == core
  {
    var ls :| Runs(Init(core), ls, s);
    InitNumbers(core);
    InitHistory(core);
    RunInv(Init(core), ls, s);
  }

  /** The tasks handed to `add` in a run, in the order of the calls. */
  function Adds(ls: seq<Label>): seq<Task> {
    if ls == [] then [] else (if ls[0].Add? then [ls[0].task] else []) + Adds(ls[1..])
  }

  lemma {:induction false} RunAdds(s: State, ls: seq<Label>, s': State)
    requires Runs(s, ls, s')
    ensures s'.added == s.added + Adds(ls)
    decreases |ls|
  {
    if ls != [] {
      var first := if ls[0].Add? then [ls[0].task] else [];
      assert Step(s, ls[0]).added == s.added + first;
      RunAdds(Step(s, ls[0]), ls[1..], s');
      assert s.added + first + Adds(ls[1..]) == s.added + (first + Adds(ls[1..]));
    }
  }

  lemma AddsFromStart(core: nat, ls: seq<Label>, s: State)
    requires Runs(Init(core), ls, s)
    ensures Reachable(core, s) && s.added == Adds(ls)
  {
    RunAdds(Init(core), ls, s);
    assert [] + Adds(ls) == Adds(ls);
  }

  /** Worker population: the counters, the bounds and the add order, in every reachable state. */
  lemma WorkerPopulation(core: nat, ls: seq<Label>, s: State)
    requires Runs(Init(core), ls, s)
    ensures s.waiting == Count(s.workers).blocked + Count(s.workers).woken <= core
    ensures s.current == |s.workers| - Count(s.workers).dead <= Limit(core)
    ensures |s.dead| == Count(s.workers).dead && NoRepeats(s.dead)
    ensures s.taken + s.queue == Adds(ls)
    ensures !s.shutdown ==>
              |s.workers| - Count(s.workers).leaving - Count(s.workers).dead >= core
  {
    AddsFromStart(core, ls, s);
    ReachableInv(core, s);
    CountAll(s.workers);
  }

  // ---------- no stranded task ----------

  ghost predicate SomeoneAttentive(s: State) {
    exists i :: 0 <= i < |s.workers| && Attentive(s.workers[i])
  }

  lemma NoStrandedTask(core: nat, s: State)
    requires core >= 1 && Reachable(core, s) && s.queue != []
    ensures SomeoneAttentive(s)
  {
    ReachableInv(core, s);
    if Count(s.workers).active > 0 {
      TotalWitness(s.workers, Active);
    } else {
      TotalWitness(s.workers, Waking);
    }
  }

  /** What attention is worth: the worker's own next step pops the head of the queue,
      or ends its callback and brings it back to the loop head. */
  lemma AttentiveWorkerTakesHead(s: State, i: nat)
    requires i < |s.workers| && Attentive(s.workers[i]) && s.queue != []
    ensures !s.workers[i].Running? ==>
              var l := if s.workers[i].Top? then Enter(i) else Resume(i);
              && Enabled(s, l)
              && Step(s, l).queue == s.queue[1..]
              && Step(s, l).taken[|s.taken|..] == [s.queue[0]]
              && At(Step(s, l), i, Running(|s.taken|))
    ensures s.workers[i].Running? ==>
              Enabled(s, Finish(i)) && At(Step(s, Finish(i)), i, Top) && Step(s, Finish(i)).queue == s.queue
  {
    assert (s.taken + [s.queue[0]])[|s.taken|..] == [s.queue[0]];
  }

  lemma {:induction false} RunsThen(s: State, ls: seq<Label>, m: State, l: Label)
    requires Runs(s, ls, m) && Enabled(m, l)
    ensures Runs(s, ls + [l], Step(m, l))
    decreases |ls|
  {
    if ls == [] {
      assert Runs(Step(m, l), [], Step(m, l));
      assert [l][1..] == [];
    } else {
      RunsThen(Step(s, ls[0]), ls[1..], m, l);
      assert (ls + [l])[1..] == ls[1..] + [l];
    }
  }

  lemma ReachableThen(core: nat, s: State, l: Label)
    requires Reachable(core, s) && Enabled(s, l)
    ensures Reachable(core, Step(s, l))
  {
    var ls :| Runs(Init(core), ls, s);
    RunsThen(Init(core), ls, s, l);
  }

  lemma {:induction false} RunsJoin(s: State, ls: seq<Label>, m: State, ks: seq<Label>, s': State)
    requires Runs(s, ls, m) && Runs(m, ks, s')
    ensures Runs(s, ls + ks, s')
    decreases |ls|
  {
    if ls == [] {
      assert ls + ks == ks;
    } else {
      RunsJoin(Step(s, ls[0]), ls[1..], m, ks, s');
      assert (ls + ks)[1..] == ls[1..] + ks;
    }
  }

  lemma ReachableJoin(core: nat, s: State, ls: seq<Label>, s': State)
    requires Reachable(core, s) && Runs(s, ls, s')
    ensures Reachable(core, s')
  {
    var ks :| Runs(Init(core), ks, s);
    RunsJoin(Init(core), ks, s, ls, s');
  }

  /** With no core threads, `k` threads can all be past the loop and not yet deregistered. */
  lemma {:induction false} IdleCrowd(k: nat) returns (s: State)
    requires k <= MAX_THREADS
    ensures Reachable(0, s)
    ensures s.core == 0 && s.queue == [] && !s.shutdown && s.waiting == 0 && s.current == k
    ensures |s.workers| == k && forall i :: 0 <= i < k ==> s.workers[i] == Leaving
  {
    if k == 0 {
      s := Init(0);
      assert Runs(s, [], s);
    } else {
      var i := k - 1;
      s := IdleCrowd(i);
      ReachableThen(0, s, Add(Outside, 0, Nobody));
      s := Step(s, Add(Outside, 0, Nobody));
      ReachableThen(0, s, Enter(i));
      s := Step(s, Enter(i));
      ReachableThen(0, s, Finish(i));
      s := Step(s, Finish(i));
      ReachableThen(0, s, Enter(i));
      s := Step(s, Enter(i));
    }
  }

  /** `core_threads == 0` strands a task: all 128 threads are leaving, so the last
      branch of `add` neither notifies nor spawns. */
  lemma StrandedWithoutCore() returns (s: State)
    ensures Reachable(0, s) && s.queue != [] && !SomeoneAttentive(s)
  {
    s := IdleCrowd(MAX_THREADS);
    ReachableThen(0, s, Add(Outside, 0, Nobody));
    s := Step(s, Add(Outside, 0, Nobody));
  }

  /** No task is ever stranded exactly when the pool keeps at least one core thread. */
  lemma NoStrandedTaskIff(core: nat)
    ensures (forall s :: Reachable(core, s) && s.queue != [] ==> SomeoneAttentive(s)) <==> core >= 1
  {
    if core >= 1 {
      forall s | Reachable(core, s) && s.queue != [] ensures SomeoneAttentive(s) {
        NoStrandedTask(core, s);
      }
    } else {
      var s := StrandedWithoutCore();
    }
  }

  // ---------- the pool at work ----------

  predicate IsOwnStep(l: Label) { l.Enter? || l.Resume? || l.Finish? || l.Depart? }

  function Weight(w: Worker): nat {
    match w
    case Dead => 0
    case Blocked => 0
    case Leaving => 1
    case Top => 2
    case _ => 3
  }

  function Work(s: State): nat { 2 * |s.queue| + Total(s.workers, Weight) }

  lemma WorkMove(s: State, i: nat, w: Worker, s': State)
    requires i < |s.workers| && s'.workers == s.workers[i := w]
    requires 2 * |s'.queue| + Weight(w) < 2 * |s.queue| + Weight(s.workers[i])
    ensures Work(s') < Work(s)
  {
    TotalMove(s.workers, i, w, Weight);
  }

  /** Before shutdown and after it, whatever a worker does by itself lowers the work that is left. */
  lemma OwnStepDecreases(s: State, l: Label)
    requires Inv(s) && Enabled(s, l) && IsOwnStep(l)
    ensures Work(Step(s, l)) < Work(s)
  {
    match l
    case Enter(i) => WorkMove(s, i, Step(s, l).workers[i], Step(s, l));
    case Resume(i) => WorkMove(s, i, Step(s, l).workers[i], Step(s, l));
    case Finish(i) => WorkMove(s, i, Top, Step(s, l));
    case Depart(i, w) =>
      if s.shutdown { DepartedBlocked(s, i); }
      WorkMove(s, i, Dead, Step(s, l));
  }

  predicate OwnSteps(ls: seq<Label>) { forall i :: 0 <= i < |ls| ==> IsOwnStep(ls[i]) }

  /** So left to themselves the workers take a bounded number of steps, in any order... */
  lemma {:induction false} WorkTerminates(s: State, ls: seq<Label>, s': State)
    requires Inv(s) && Runs(s, ls, s') && OwnSteps(ls)
    ensures |ls| + Work(s') <= Work(s)
    decreases |ls|
  {
    if ls != [] {
      OwnStepDecreases(s, ls[0]);
      StepNumbers(s, ls[0]);
      StepHistory(s, ls[0]);
      WorkTerminates(Step(s, ls[0]), ls[1..], s');
    }
  }

  ghost predicate Idle(s: State) { forall l :: Enabled(s, l) ==> !IsOwnStep(l) }

  lemma IdleWorker(s: State, i: nat)
    requires Inv(s) && Idle(s) && i < |s.workers|
    ensures s.workers[i] == Blocked || s.workers[i] == Dead
  {
    var w := if s.shutdown && s.current == 1 && s.closer.Waiting? then WakeCloser else Nobody;
    if s.workers[i] == Leaving && s.shutdown { DepartedBlocked(s, i); }
    assert !Enabled(s, Enter(i)) && !Enabled(s, Resume(i)) && !Enabled(s, Finish(i)) && !Enabled(s, Depart(i, w));
  }

  /** ...and where they have none left, every task ever added has been popped in order and completed. */
  lemma IdleMeansAllRan(core: nat, ls: seq<Label>, s: State)
    requires core >= 1 && Runs(Init(core), ls, s) && Idle(s)
    ensures s.queue == [] && s.taken == Adds(ls)
    ensures forall k: nat :: k in s.done <==> k < |Adds(ls)|
  {
    AddsFromStart(core, ls, s);
    ReachableInv(core, s);
    forall i: nat | i < |s.workers| ensures s.workers[i] == Blocked || s.workers[i] == Dead { IdleWorker(s, i); }
    assert s.queue == [] by {
      if s.queue != [] { NoStrandedTask(core, s); assert false; }
    }
    assert s.taken == s.added;
    forall k: nat | k < |s.added| ensures k in s.done {
      assert k in s.done || HeldBySomeone(s, k);
    }
  }

  lemma RunsFirst(s: State, l: Label, ls: seq<Label>, s': State)
    requires Enabled(s, l) && Runs(Step(s, l), ls, s')
    ensures Runs(s, [l] + ls, s')
  {
    assert ([l] + ls)[1..] == ls;
  }

  lemma OwnStepRun(core: nat, pre: seq<Label>, s: State, l: Label)
    requires Runs(Init(core), pre, s) && Enabled(s, l) && IsOwnStep(l)
    ensures Runs(Init(core), pre + [l], Step(s, l)) && Adds(pre + [l]) == Adds(pre) && Work(Step(s, l)) < Work(s)
  {
    AddsFromStart(core, pre, s);
    ReachableInv(core, s);
    OwnStepDecreases(s, l);
    RunsThen(Init(core), pre, s, l);
    AddsFromStart(core, pre + [l], Step(s, l));
  }

  /** Every task is run: after every run the workers by themselves complete all that was added in it,
      in the order of the calls and in at most `Work` steps. */
  lemma {:induction false} WorkersFinishAll(core: nat, pre: seq<Label>, s: State) returns (ls: seq<Label>, s': State)
    requires core >= 1 && Runs(Init(core), pre, s)
    ensures Runs(s, ls, s') && OwnSteps(ls) && |ls| <= Work(s)
    ensures s'.queue == [] && s'.taken == Adds(pre) && forall k: nat :: k in s'.done <==> k < |Adds(pre)|
    decreases Work(s)
  {
    if l :| Enabled(s, l) && IsOwnStep(l) {
      OwnStepRun(core, pre, s, l);
      ls, s' := WorkersFinishAll(core, pre + [l], Step(s, l));
      RunsFirst(s, l, ls, s');
      ls := [l] + ls;
    } else {
      ls, s' := [], s;
      IdleMeansAllRan(core, pre, s);
    }
  }

  // ---------- shutdown ----------

  function Effort(w: Worker): nat {
    match w
    case Dead => 0
    case Leaving => 1
    case Running(_) => 3
    case _ => 2
  }

  function Measure(s: State): nat { 2 * |s.queue| + Total(s.workers, Effort) }

  predicate IsWorkerStep(l: Label) { l.Enter? || l.Resume? || l.Finish? || l.Depart? || l.Spurious? }

  lemma ShutdownMove(s: State, i: nat, w: Worker, s': State)
    requires i < |s.workers| && s'.workers == s.workers[i := w]
    requires 2 * |s'.queue| + Effort(w) < 2 * |s.queue| + Effort(s.workers[i])
    ensures Measure(s') < Measure(s)
  {
    TotalMove(s.workers, i, w, Effort);
  }

  /** After shutdown every step of a worker lowers the measure and the destructor's steps keep it. */
  lemma ShutdownStepDecreases(s: State, l: Label)
    requires Inv(s) && s.shutdown && Enabled(s, l) && !l.Add?
    ensures Step(s, l).shutdown
    ensures if IsWorkerStep(l) then Measure(Step(s, l)) < Measure(s) else Measure(Step(s, l)) == Measure(s)
  {
    match l
    case Enter(i) => ShutdownMove(s, i, Step(s, l).workers[i], Step(s, l));
    case Resume(i) => ShutdownMove(s, i, Step(s, l).workers[i], Step(s, l));
    case Finish(i) => ShutdownMove(s, i, Top, Step(s, l));
    case Depart(i, w) =>
      DepartedBlocked(s, i);
      ShutdownMove(s, i, Dead, Step(s, l));
    case Spurious(i) => TotalAtLeast(s.workers, i, Asleep);
    case Destroy =>
    case CloserResume =>
    case CloserSpurious =>
  }

  function WorkerSteps(ls: seq<Label>): nat {
    if ls == [] then 0 else (if IsWorkerStep(ls[0]) then 1 else 0) + WorkerSteps(ls[1..])
  }

  /** So a run without further adds takes at most `Measure` worker steps, whatever the schedule. */
  lemma {:induction false} ShutdownTerminates(s: State, ls: seq<Label>, s': State)
    requires Inv(s) && s.shutdown && Runs(s, ls, s')
    requires forall l :: l in ls ==> !l.Add?
    ensures WorkerSteps(ls) + Measure(s') <= Measure(s)
    decreases |ls|
  {
    if ls != [] {
      ShutdownStepDecreases(s, ls[0]);
      StepNumbers(s, ls[0]);
      StepHistory(s, ls[0]);
      ShutdownTerminates(Step(s, ls[0]), ls[1..], s');
    }
  }

  /** Every worker that is still alive after shutdown has a step of its own to take: none is blocked. */
  lemma ShutdownNobodyStuck(core: nat, s: State, i: nat)
    requires Reachable(core, s) && s.shutdown && i < |s.workers| && s.workers[i] != Dead
    ensures exists l :: IsWorkerStep(l) && Enabled(s, l) && l.i == i
  {
    ReachableInv(core, s);
    TotalAtLeast(s.workers, i, Asleep);
    match s.workers[i]
    case Top => assert Enabled(s, Enter(i));
    case Woken => assert Enabled(s, Resume(i));
    case Running(_) => assert Enabled(s, Finish(i));
    case Leaving =>
      var p := Departed(s, i);
      var w := if s.shutdown && s.current == 1 && s.closer.Waiting? then WakeCloser else Nobody;
      DepartedBlocked(s, i);
      assert Enabled(s, Depart(i, w));
  }

  /** When the destructor has returned, every thread is dead and listed for the reaper,
      and every task ever added has been popped in order and run to completion. */
  lemma ReturnedMeansAllRan(core: nat, ls: seq<Label>, s: State)
    requires core >= 1 && Runs(Init(core), ls, s) && s.closer.Returned?
    ensures forall i :: 0 <= i < |s.workers| ==> s.workers[i] == Dead
    ensures |s.dead| == |s.workers| && NoRepeats(s.dead)
    ensures s.queue == [] && s.taken == Adds(ls)
    ensures forall k: nat :: k in s.done <==> k < |Adds(ls)|
  {
    AddsFromStart(core, ls, s);
    ReachableInv(core, s);
    CountAll(s.workers);
    forall i | 0 <= i < |s.workers| ensures s.workers[i] == Dead {
      TotalAtLeast(s.workers, i, Active);
      TotalAtLeast(s.workers, i, Asleep);
      TotalAtLeast(s.workers, i, Waking);
      TotalAtLeast(s.workers, i, Going);
    }
    assert s.queue == [] by {
      if s.queue != [] { NoStrandedTask(core, s); assert false; }
    }
    assert s.taken == s.added;
    forall k: nat | k < |s.added| ensures k in s.done {
      assert k in s.done || HeldBySomeone(s, k);
    }
  }

  /** Without core threads the crowd of `IdleCrowd` can depart past a task that nobody will run. */
  lemma {:induction false} Exodus(k: nat) returns (s: State)
    requires k <= MAX_THREADS
    ensures Reachable(0, s) && s.queue != [] && !s.shutdown && s.current == MAX_THREADS - k
    ensures |s.workers| == MAX_THREADS
    ensures forall i :: k <= i < MAX_THREADS ==> s.workers[i] == Leaving
  {
    if k == 0 {
      s := IdleCrowd(MAX_THREADS);
      ReachableThen(0, s, Add(Outside, 0, Nobody));
      s := Step(s, Add(Outside, 0, Nobody));
    } else {
      s := Exodus(k - 1);
      ReachableThen(0, s, Depart(k - 1, Nobody));
      s := Step(s, Depart(k - 1, Nobody));
    }
  }

  /** The destructor leaves no task behind exactly when the pool keeps at least one core thread. */
  lemma NoAbandonedTaskIff(core: nat)
    ensures (forall s :: Reachable(core, s) && s.closer.Returned? ==> s.queue == []) <==> core >= 1
  {
    if core >= 1 {
      forall s | Reachable(core, s) && s.closer.Returned? ensures s.queue == [] {
        var ls :| Runs(Init(core), ls, s);
        ReturnedMeansAllRan(core, ls, s);
      }
    } else {
      var s := Exodus(MAX_THREADS);
      ReachableInv(0, s);
      ReachableThen(0, s, Destroy);
      assert Step(s, Destroy).closer.Returned? && Step(s, Destroy).queue != [];
    }
  }

  /** Once all workers are dead the destructor is not asleep: it has returned,
      or it is awake and returns at its next step.  It never waits unnotified. */
  lemma DestructorReturns(core: nat, s: State)
    requires Reachable(core, s) && s.shutdown
    requires forall i :: 0 <= i < |s.workers| ==> s.workers[i] == Dead
    ensures s.closer.Returned? || (Enabled(s, CloserResume) && Step(s, CloserResume).closer.Returned?)
  {
    ReachableInv(core, s);
    AllDead(s.workers);
  }

  predicate NoAdds(ls: seq<Label>) { forall i :: 0 <= i < |ls| ==> !ls[i].Add? }

  lemma {:induction false} StaysShut(s: State, ls: seq<Label>, s': State)
    requires s.shutdown && Runs(s, ls, s') && NoAdds(ls)
    ensures s'.shutdown && s'.added == s.added
    decreases |ls|
  {
    if ls != [] {
      assert Step(s, ls[0]).shutdown && Step(s, ls[0]).added == s.added;
      StaysShut(Step(s, ls[0]), ls[1..], s');
    }
  }

  /** Shutdown completes: from every reachable state after the destructor has started, the threads
      left to themselves bring it to its return. */
  lemma {:induction false} ShutdownCompletes(core: nat, s: State) returns (ls: seq<Label>, s': State)
    requires Reachable(core, s) && s.shutdown
    ensures Runs(s, ls, s') && NoAdds(ls) && s'.closer.Returned?
    decreases Measure(s)
  {
    ReachableInv(core, s);
    if i :| 0 <= i < |s.workers| && s.workers[i] != Dead {
      ShutdownNobodyStuck(core, s, i);
      var l :| IsWorkerStep(l) && Enabled(s, l) && l.i == i;
      ShutdownStepDecreases(s, l);
      ReachableThen(core, s, l);
      ls, s' := ShutdownCompletes(core, Step(s, l));
      RunsFirst(s, l, ls, s');
      ls := [l] + ls;
    } else {
      ls, s' := [], s;
      DestructorReturns(core, s);
      if !s.closer.Returned? {
        s' := Step(s, CloserResume);
        assert Runs(s', [], s');
        RunsFirst(s, CloserResume, [], s');
        ls := [CloserResume] + [];
      }
    }
  }

  /** No run, however the scheduler has arranged it, can keep the destructor from returning: it
      can always be continued to its return, and then every task ever added has been completed. */
  lemma ShutdownFinishesEverything(core: nat, pre: seq<Label>, s: State, ls: seq<Label>, m: State)
    returns (ks: seq<Label>, s': State)
    requires core >= 1 && Runs(Init(core), pre, s) && s.shutdown && Runs(s, ls, m) && NoAdds(ls)
    ensures Runs(s, ls + ks, s') && NoAdds(ls + ks) && WorkerSteps(ls + ks) <= Measure(s)
    ensures s'.closer.Returned? && s'.taken == Adds(pre)
    ensures forall k: nat :: k in s'.done <==> k < |Adds(pre)|
  {
    AddsFromStart(core, pre, s);
    ReachableInv(core, s);
    ReachableJoin(core, s, ls, m);
    StaysShut(s, ls, m);
    ks, s' := ShutdownCompletes(core, m);
    StaysShut(m, ks, s');
    RunsJoin(s, ls, m, ks, s');
    ShutdownTerminates(s, ls + ks, s');
    RunsJoin(Init(core), pre, s, ls + ks, s');
    AddsFromStart(core, pre + (ls + ks), s');
    ReturnedMeansAllRan(core, pre + (ls + ks), s');
  }

  // ---------- the pool object ----------

  /** The pool as the code has it: each method is one critical section, proved to be
      one step of the transition system and to keep the invariant. */
  class DynamicThreadPool {
    const coreThreads: nat
    var shutdown: bool
    var currentThreads: int
    var waitingThreads: int
    var callbacks: seq<Task>
    var threads: seq<Worker>
    var deadThreads: seq<nat>
    var closer: Closer
    ghost var added: seq<Task>
    var taken: seq<Task>
    ghost var done: set<nat>

    ghost function View(): State
      reads this
    {
      State(coreThreads, shutdown, currentThreads, waitingThreads, callbacks, threads, deadThreads,
            closer, added, taken, done)
    }

    constructor (core: nat)
      ensures View() == Init(core) && Inv(View())
    {
      coreThreads, shutdown, currentThreads, waitingThreads := core, false, 0, 0;
      callbacks, threads, deadThreads, closer := [], [], [], Absent;
      added, taken, done := [], [], {};
      new;
      var i := 0;
      while i < core
        invariant i <= core && currentThreads == i && threads == Repeat(Top, i)
        invariant View() == Init(core).(current := i, workers := Repeat(Top, i))
      {
        currentThreads := currentThreads + 1;
        threads := threads + [Top];
        i := i + 1;
        assert threads == Repeat(Top, i);
      }
      InitNumbers(core);
      InitHistory(core);
    }

    method NotifyOne(w: Wake)
      requires MayWake(View(), w)
      modifies this
      ensures View() == Notified(old(View()), w)
    {
      match w
      case Nobody =>
      case WakeWorker(i) => threads := threads[i := Woken];
      case WakeCloser => closer := Roused;
    }

    method Add(caller: Caller, callback: Task, wake: Wake)
      requires Inv(View()) && Enabled(View(), Label.Add(caller, callback, wake))
      modifies this
      ensures View() == Step(old(View()), Label.Add(caller, callback, wake)) && Inv(View())
    {
      StepNumbers(View(), Label.Add(caller, callback, wake));
      StepHistory(View(), Label.Add(caller, callback, wake));
      callbacks := callbacks + [callback];
      added := added + [callback];
      if waitingThreads == 0 && currentThreads >= MAX_THREADS {
        return;
      } else if waitingThreads == 0 {
        currentThreads := currentThreads + 1;
        threads := threads + [Top];
      } else {
        NotifyOne(wake);
      }
    }

    /** The loop body from the lock at its head to the next unlock, or to the wait. */
    method ExecuterEnter(i: nat)
      requires Inv(View()) && Enabled(View(), Enter(i))
      modifies this
      ensures View() == Step(old(View()), Enter(i)) && Inv(View())
    {
      StepNumbers(View(), Enter(i));
      StepHistory(View(), Enter(i));
      if !shutdown && callbacks == [] {
        if waitingThreads >= coreThreads {
          threads := threads[i := Leaving];
          return;
        }
        waitingThreads := waitingThreads + 1;
        threads := threads[i := Blocked];
      } else {
        DispatchFront(i);
      }
    }

    /** The loop body from the return of the wait. */
    method ExecuterResume(i: nat)
      requires Inv(View()) && Enabled(View(), Resume(i))
      modifies this
      ensures View() == Step(old(View()), Resume(i)) && Inv(View())
    {
      StepNumbers(View(), Resume(i));
      StepHistory(View(), Resume(i));
      waitingThreads := waitingThreads - 1;
      DispatchFront(i);
    }

    method DispatchFront(i: nat)
      requires i < |threads|
      modifies this
      ensures View() == Dispatch(old(View()), i)
    {
      if callbacks != [] {
        threads := threads[i := Running(|taken|)];
        taken := taken + [callbacks[0]];
        callbacks := callbacks[1..];
      } else if shutdown {
        threads := threads[i := Leaving];
      } else {
        threads := threads[i := Top];
      }
    }

    /** What a pool thread does after its loop. */
    method ExecuterDepart(i: nat, wake: Wake)
      requires Inv(View()) && Enabled(View(), Depart(i, wake))
      modifies this
      ensures View() == Step(old(View()), Depart(i, wake)) && Inv(View())
    {
      StepNumbers(View(), Depart(i, wake));
      StepHistory(View(), Depart(i, wake));
      currentThreads := currentThreads - 1;
      deadThreads := deadThreads + [i];
      threads := threads[i := Dead];
      if shutdown && currentThreads == 0 {
        NotifyOne(wake);
      }
    }

    /** The destructor up to its first wait, or to the reaper when no thread is left. */
    method Destroy()
      requires Inv(View()) && Enabled(View(), Label.Destroy)
      modifies this
      ensures View() == Step(old(View()), Label.Destroy) && Inv(View())
    {
      StepNumbers(View(), Label.Destroy);
      StepHistory(View(), Label.Destroy);
      shutdown := true;
      threads := WakeAll(threads);
      closer := if currentThreads != 0 then Waiting else Returned;
    }

    /** One turn of the destructor's wait loop. */
    method DestroyResume()
      requires Inv(View()) && Enabled(View(), CloserResume)
      modifies this
      ensures View() == Step(old(View()), CloserResume) && Inv(View())
    {
      StepNumbers(View(), CloserResume);
      StepHistory(View(), CloserResume);
      closer := if currentThreads != 0 then Waiting else Returned;
    }
  }
}
