// The worker pool: a queue under a mutex, a condition variable, threads that add tasks and threads that
// run them (src/executor.rs). A step is one access to the mutex, the condition variable or the queue;
// a run is any interleaving of steps, with any number of adding threads and any spurious wakeups.
module WorkerPool {
  import opened Options

  // ---- The threads -----------------------------------------------------------------------------

  // A worker: before lock() at the top of its loop; holding the lock before is_empty(); in wait();
  // out of wait() but not holding the lock yet; holding the lock before pop_front(); holding the lock
  // and a task; running the task.
  datatype Worker = Acquiring | Holding | Waiting | Woken | Popping | Popped(call: nat) | Running(call: nat)

  // A call of add_boxed: before lock(); before push_back(); before the guard is dropped; before
  // notify_one(); after it.
  datatype Adder = Locking | Pushing | Pushed | Notifying | Returned

  datatype Agent = AnAdder(call: nat) | AWorker(worker: nat)

  // Calls of add_boxed are numbered, and so are the tasks they add. `pushed`, `popped` and `finished` are history.
  datatype State = State(tasks: seq<nat>, lock: Option<Agent>, workers: seq<Worker>, adders: seq<Adder>,
                         pushed: seq<nat>, popped: seq<nat>, finished: set<nat>)

  datatype Step =
    | Call
    | AdderLock(call: nat)
    | PushBack(call: nat)
    | AdderUnlock(call: nat)
    | NotifyOne(call: nat, woken: Option<nat>)
    | WorkerLock(worker: nat)
    | CheckEmpty(worker: nat)
    | PopFront(worker: nat)
    | WorkerUnlock(worker: nat)
    | Finish(worker: nat)
    | WakeSpuriously(worker: nat)

  function Init(numThreads: nat): State {
    State([], None, seq(numThreads, _ => Acquiring), [], [], [], {})
  }

  predicate AdderAt(s: State, c: nat, at: Adder) { c < |s.adders| && s.adders[c] == at }

  predicate WorkerAt(s: State, w: nat, at: Worker) { w < |s.workers| && s.workers[w] == at }

  predicate Enabled(s: State, step: Step) {
    match step
    case Call => true
    case AdderLock(c) => AdderAt(s, c, Locking) && s.lock == None
    case PushBack(c) => AdderAt(s, c, Pushing)
    case AdderUnlock(c) => AdderAt(s, c, Pushed)
    case NotifyOne(c, None) => AdderAt(s, c, Notifying) && Waiting !in s.workers
    case NotifyOne(c, Some(w)) => AdderAt(s, c, Notifying) && WorkerAt(s, w, Waiting)
    case WorkerLock(w) => (WorkerAt(s, w, Acquiring) || WorkerAt(s, w, Woken)) && s.lock == None
    case CheckEmpty(w) => WorkerAt(s, w, Holding)
    case PopFront(w) => WorkerAt(s, w, Popping) && s.tasks != []
    case WorkerUnlock(w) => w < |s.workers| && s.workers[w].Popped?
    case Finish(w) => w < |s.workers| && s.workers[w].Running?
    case WakeSpuriously(w) => WorkerAt(s, w, Waiting)
  }

  function Apply(s: State, step: Step): State
    requires Enabled(s, step)
  {
    match step
    case Call => s.(adders := s.adders + [Locking])
    case AdderLock(c) => s.(lock := Some(AnAdder(c)), adders := s.adders[c := Pushing])
    case PushBack(c) => s.(tasks := s.tasks + [c], pushed := s.pushed + [c], adders := s.adders[c := Pushed])
    case AdderUnlock(c) => s.(lock := None, adders := s.adders[c := Notifying])
    case NotifyOne(c, None) => s.(adders := s.adders[c := Returned])
    case NotifyOne(c, Some(w)) => s.(adders := s.adders[c := Returned], workers := s.workers[w := Woken])
    case WorkerLock(w) => s.(lock := Some(AWorker(w)), workers := s.workers[w := Holding])
    case CheckEmpty(w) =>
      if s.tasks == [] then s.(lock := None, workers := s.workers[w := Waiting])
      else s.(workers := s.workers[w := Popping])
    case PopFront(w) =>
      s.(tasks := s.tasks[1..], popped := s.popped + [s.tasks[0]], workers := s.workers[w := Popped(s.tasks[0])])
    case WorkerUnlock(w) => s.(lock := None, workers := s.workers[w := Running(s.workers[w].call)])
    case Finish(w) => s.(finished := s.finished + {s.workers[w].call}, workers := s.workers[w := Acquiring])
    case WakeSpuriously(w) => s.(workers := s.workers[w := Woken])
  }

  // ---- Sums over threads -----------------------------------------------------------------------

  function Sum<T>(s: seq<T>, f: T -> nat): (n: nat) {
    if s == [] then 0 else f(s[0]) + Sum(s[1..], f)
  }

  lemma {:induction false} SumUpdate<T>(s: seq<T>, i: nat, x: T, f: T -> nat)
    requires i < |s|
    ensures Sum(s[i := x], f) + f(s[i]) == Sum(s, f) + f(x)
  {
    if i == 0 {
      assert s[i := x][1..] == s[1..];
    } else {
      assert s[i := x][1..] == s[1..][i - 1 := x];
      SumUpdate(s[1..], i - 1, x, f);
    }
  }

  lemma {:induction false} SumAppend<T>(s: seq<T>, x: T, f: T -> nat)
    ensures Sum(s + [x], f) == Sum(s, f) + f(x)
  {
    if s == [] {
      assert s + [x] == [x];
    } else {
      assert (s + [x])[1..] == s[1..] + [x];
      SumAppend(s[1..], x, f);
    }
  }

  lemma {:induction false} SumPositive<T>(s: seq<T>, f: T -> nat) returns (i: nat)
    requires Sum(s, f) > 0
    ensures i < |s| && f(s[i]) > 0
  {
    if f(s[0]) > 0 {
      i := 0;
    } else {
      i := SumPositive(s[1..], f);
      i := i + 1;
    }
  }

  // ---- Invariant -------------------------------------------------------------------------------

  predicate WorkerHolds(w: Worker) { w.Holding? || w.Popping? || w.Popped? }

  predicate AdderHolds(a: Adder) { a.Pushing? || a.Pushed? }

  // The lock is held by exactly the thread that is in its critical section.
  ghost predicate Mutex(s: State) {
    && (forall w :: 0 <= w < |s.workers| ==> (WorkerHolds(s.workers[w]) <==> s.lock == Some(AWorker(w))))
    && (forall c :: 0 <= c < |s.adders| ==> (AdderHolds(s.adders[c]) <==> s.lock == Some(AnAdder(c))))
    && (match s.lock
        case None => true
        case Some(AWorker(w)) => w < |s.workers|
        case Some(AnAdder(c)) => c < |s.adders|)
  }

  // pop_front() finds a task.
  ghost predicate PopFinds(s: State) {
    forall w :: 0 <= w < |s.workers| && s.workers[w].Popping? ==> s.tasks != []
  }

  ghost predicate Distinct<T(!new)>(s: seq<T>) {
    forall i, j :: 0 <= i < j < |s| ==> s[i] != s[j]
  }

  // First in, first out; a call has pushed its task once it is past push_back().
  ghost predicate Fifo(s: State) {
    && s.pushed == s.popped + s.tasks && Distinct(s.pushed)
    && (forall c :: c in s.pushed ==> c < |s.adders|)
    && (forall c :: 0 <= c < |s.adders| ==> (c in s.pushed <==> !s.adders[c].Locking? && !s.adders[c].Pushing?))
  }

  predicate HasTask(w: Worker) { w.Popped? || w.Running? }

  // A worker has a task that was popped and is not finished, and no two have the same.
  ghost predicate Taken(s: State) {
    && (forall w :: 0 <= w < |s.workers| && HasTask(s.workers[w]) ==>
          s.workers[w].call in s.popped && s.workers[w].call !in s.finished)
    && (forall v, w :: 0 <= v < w < |s.workers| && HasTask(s.workers[v]) && HasTask(s.workers[w]) ==>
          s.workers[v].call != s.workers[w].call)
    && (forall c :: c in s.finished ==> c in s.popped)
  }

  predicate Has(w: Worker, c: nat) { HasTask(w) && w.call == c }

  // A popped task is finished, or a worker has it.
  ghost predicate NoneLost(s: State) {
    forall c :: c in s.popped && c !in s.finished ==> exists w :: 0 <= w < |s.workers| && Has(s.workers[w], c)
  }

  // A notification that is still to come.
  function Notices(a: Adder): nat { if a.Pushed? || a.Notifying? then 1 else 0 }

  // A worker on its way to look at the queue.
  function Comes(w: Worker): nat { if w.Acquiring? || w.Holding? || w.Woken? || w.Popping? then 1 else 0 }

  // No wakeup is lost: while a worker waits, every queued task has a notification or a worker of its own coming.
  ghost predicate Attended(s: State) {
    Waiting in s.workers ==> |s.tasks| <= Sum(s.adders, Notices) + Sum(s.workers, Comes)
  }

  ghost predicate Inv(s: State) {
    |s.workers| > 0 && Mutex(s) && PopFinds(s) && Fifo(s) && Taken(s) && NoneLost(s) && Attended(s)
  }

  lemma InitInv(numThreads: nat)
    requires numThreads > 0
    ensures Inv(Init(numThreads))
  {
  }

  lemma {:induction false} MutexKept(s: State, step: Step)
    requires Mutex(s) && PopFinds(s) && Enabled(s, step)
    ensures Mutex(Apply(s, step)) && PopFinds(Apply(s, step))
  {
  }

  lemma {:induction false} FifoKept(s: State, step: Step)
    requires Mutex(s) && Fifo(s) && Enabled(s, step)
    ensures Fifo(Apply(s, step))
  {
  }

  lemma {:induction false} TakenKept(s: State, step: Step)
    requires Fifo(s) && Taken(s) && Enabled(s, step)
    ensures Taken(Apply(s, step))
  {
    if step.PopFront? {
      NotYetPopped(s);
    }
    hide Fifo;
  }

  lemma {:induction false} NoneLostKept(s: State, step: Step)
    requires NoneLost(s) && Enabled(s, step)
    ensures NoneLost(Apply(s, step))
  {
    var t := Apply(s, step);
    forall c | c in t.popped && c !in t.finished
      ensures exists w :: 0 <= w < |t.workers| && Has(t.workers[w], c)
    {
      if step.PopFront? && c == s.tasks[0] {
        assert Has(t.workers[step.worker], c);
      } else {
        var w :| 0 <= w < |s.workers| && Has(s.workers[w], c);
        assert Has(t.workers[w], c);
      }
    }
  }

  lemma NotYetPopped(s: State)
    requires Fifo(s) && s.tasks != []
    ensures s.tasks[0] !in s.popped
  {
    forall k | 0 <= k < |s.popped| ensures s.popped[k] != s.tasks[0] {
      assert s.pushed[k] != s.pushed[|s.popped|];
    }
  }

  lemma {:induction false} AttendedKept(s: State, step: Step)
    requires Attended(s) && Enabled(s, step)
    ensures Attended(Apply(s, step))
  {
    var t := Apply(s, step);
    AdderSum(s, step, Notices);
    WorkerSum(s, step, Comes);
    if Waiting in t.workers && !step.CheckEmpty? {
      StillWaiting(s, step);
    }
  }

  lemma StillWaiting(s: State, step: Step)
    requires Enabled(s, step) && !step.CheckEmpty? && Waiting in Apply(s, step).workers
    ensures Waiting in s.workers
  {
    var w :| 0 <= w < |s.workers| && Apply(s, step).workers[w] == Waiting;
    assert s.workers[w] == Waiting;
  }

  // How a step changes a sum over the adders, and over the workers.
  function AdderOf(step: Step): Option<nat> {
    match step
    case AdderLock(c) => Some(c)
    case PushBack(c) => Some(c)
    case AdderUnlock(c) => Some(c)
    case NotifyOne(c, _) => Some(c)
    case _ => None
  }

  function WorkerOf(step: Step): Option<nat> {
    match step
    case NotifyOne(_, woken) => woken
    case WorkerLock(w) => Some(w)
    case CheckEmpty(w) => Some(w)
    case PopFront(w) => Some(w)
    case WorkerUnlock(w) => Some(w)
    case Finish(w) => Some(w)
    case WakeSpuriously(w) => Some(w)
    case _ => None
  }

  lemma {:induction false} AdderSum(s: State, step: Step, f: Adder -> nat)
    requires Enabled(s, step)
    ensures
      var before, after := s.adders, Apply(s, step).adders;
      match AdderOf(step)
      case None => Sum(after, f) == Sum(before, f) + if step.Call? then f(Locking) else 0
      case Some(c) => c < |before| == |after| && Sum(after, f) + f(before[c]) == Sum(before, f) + f(after[c])
  {
    hide Sum;
    SumAppend(s.adders, Locking, f);
    match AdderOf(step)
    case None =>
    case Some(c) =>
      SumUpdate(s.adders, c, Apply(s, step).adders[c], f);
  }

  lemma {:induction false} WorkerSum(s: State, step: Step, f: Worker -> nat)
    requires Enabled(s, step)
    ensures
      var before, after := s.workers, Apply(s, step).workers;
      match WorkerOf(step)
      case None => after == before
      case Some(w) => w < |before| == |after| && Sum(after, f) + f(before[w]) == Sum(before, f) + f(after[w])
  {
    hide Sum;
    match WorkerOf(step)
    case None =>
    case Some(w) =>
      SumUpdate(s.workers, w, Apply(s, step).workers[w], f);
  }

  lemma InvKept(s: State, step: Step)
    requires Inv(s) && Enabled(s, step)
    ensures Inv(Apply(s, step))
  {
    hide Mutex, PopFinds, Fifo, Taken, NoneLost, Attended;
    MutexKept(s, step);
    FifoKept(s, step);
    TakenKept(s, step);
    NoneLostKept(s, step);
    AttendedKept(s, step);
  }

  // ---- Runs ------------------------------------------------------------------------------------

  predicate IsRun(s: State, steps: seq<Step>)
    decreases |steps|
  {
    steps == [] || (Enabled(s, steps[0]) && IsRun(Apply(s, steps[0]), steps[1..]))
  }

  function End(s: State, steps: seq<Step>): State
    requires IsRun(s, steps)
    decreases |steps|
  {
    if steps == [] then s else End(Apply(s, steps[0]), steps[1..])
  }

  // Every reachable state: the invariant holds, and tasks leave in the order they came, each once.
  lemma {:induction false} RunsKeepInv(s: State, steps: seq<Step>)
    requires Inv(s) && IsRun(s, steps)
    ensures Inv(End(s, steps)) && s.popped <= End(s, steps).popped && s.pushed <= End(s, steps).pushed
    decreases |steps|
  {
    hide Inv;
    if steps != [] {
      InvKept(s, steps[0]);
      RunsKeepInv(Apply(s, steps[0]), steps[1..]);
    }
  }

  // The tasks popped over a run, by the workers that popped them.
  function PoppedIn(s: State, steps: seq<Step>): seq<nat>
    requires IsRun(s, steps)
    decreases |steps|
  {
    if steps == [] then [] else
      (if steps[0].PopFront? then [s.tasks[0]] else []) + PoppedIn(Apply(s, steps[0]), steps[1..])
  }

  function PushedIn(steps: seq<Step>): seq<nat> {
    if steps == [] then [] else (if steps[0].PushBack? then [steps[0].call] else []) + PushedIn(steps[1..])
  }

  // Over any run from the start, the tasks popped are a prefix of the tasks pushed, in the order they
  // were pushed, none twice; the rest is in the queue.
  lemma ExactlyOnceInOrder(numThreads: nat, steps: seq<Step>)
    requires numThreads > 0 && IsRun(Init(numThreads), steps)
    ensures PushedIn(steps) == PoppedIn(Init(numThreads), steps) + End(Init(numThreads), steps).tasks
    ensures Distinct(PushedIn(steps))
  {
    hide Sum, IsRun, End, PoppedIn, PushedIn;
    var s := Init(numThreads);
    InitInv(numThreads);
    RunsKeepInv(s, steps);
    HistoryIs(s, steps);
    assert [] + PushedIn(steps) == PushedIn(steps);
    assert [] + PoppedIn(s, steps) == PoppedIn(s, steps);
  }

  lemma {:induction false} HistoryIs(s: State, steps: seq<Step>)
    requires IsRun(s, steps)
    ensures End(s, steps).pushed == s.pushed + PushedIn(steps) && End(s, steps).popped == s.popped + PoppedIn(s, steps)
    decreases |steps|
  {
    if steps != [] {
      HistoryIs(Apply(s, steps[0]), steps[1..]);
    }
  }

  // ---- Wakeups and progress --------------------------------------------------------------------

  // A nonempty queue leaves a worker that is not waiting, or an adder that is about to notify.
  lemma NoLostWakeup(s: State)
    requires Inv(s) && s.tasks != []
    ensures
      || (exists w :: 0 <= w < |s.workers| && s.workers[w] != Waiting)
      || (exists c :: 0 <= c < |s.adders| && Notices(s.adders[c]) == 1)
  {
    if Waiting !in s.workers {
      assert s.workers[0] != Waiting;
    } else if Sum(s.adders, Notices) > 0 {
      var c := SumPositive(s.adders, Notices);
    } else {
      var w := SumPositive(s.workers, Comes);
    }
  }

  // The steps of the pool itself: not a new call, not a spurious wakeup.
  predicate Internal(step: Step) { !step.Call? && !step.WakeSpuriously? }

  function AdderWork(a: Adder): nat {
    match a
    case Locking => 14
    case Pushing => 13
    case Pushed => 7
    case Notifying => 6
    case Returned => 0
  }

  function WorkerWork(w: Worker): nat {
    match w
    case Waiting => 0
    case Popping => 3
    case Holding => 4
    case Acquiring => 5
    case Woken => 5
    case Running(_) => 6
    case Popped(_) => 7
  }

  function Work(s: State): nat { Sum(s.adders, AdderWork) + Sum(s.workers, WorkerWork) + 5 * |s.tasks| }

  lemma WorkShrinks(s: State, step: Step)
    requires Enabled(s, step) && Internal(step)
    ensures Work(Apply(s, step)) < Work(s)
  {
    hide Sum;
    AdderSum(s, step, AdderWork);
    WorkerSum(s, step, WorkerWork);
  }

  // Without new calls and spurious wakeups a run ends.
  lemma {:induction false} RunsEnd(s: State, steps: seq<Step>)
    requires IsRun(s, steps) && forall i :: 0 <= i < |steps| ==> Internal(steps[i])
    ensures |steps| <= Work(s)
    decreases |steps|
  {
    if steps != [] {
      WorkShrinks(s, steps[0]);
      RunsEnd(Apply(s, steps[0]), steps[1..]);
    }
  }

  // All that was added is done.
  ghost predicate AllDone(s: State) {
    && s.tasks == [] && s.lock == None && (forall w :: 0 <= w < |s.workers| ==> s.workers[w] == Waiting)
    && (forall c :: 0 <= c < |s.adders| ==> s.adders[c] == Returned && c in s.finished)
  }

  ghost predicate Stuck(s: State) {
    forall step :: Internal(step) ==> !Enabled(s, step)
  }

  // It ends only when every task is done: otherwise some thread can make a step.
  lemma StuckIffDone(s: State)
    requires Inv(s)
    ensures Stuck(s) <==> AllDone(s)
  {
    if Stuck(s) {
      NobodyHolds(s);
      WorkersWait(s);
      AddersReturned(s);
      EverythingFinished(s);
    }
  }

  lemma {:induction false} NobodyHolds(s: State)
    requires Mutex(s) && PopFinds(s) && Stuck(s)
    ensures s.lock == None
  {
    if s.lock.Some? {
      var step := HolderMoves(s);
    }
  }

  // The thread that holds the lock can always go on.
  lemma HolderMoves(s: State) returns (step: Step)
    requires Mutex(s) && PopFinds(s) && s.lock.Some?
    ensures Internal(step) && Enabled(s, step)
  {
    match s.lock.value
    case AnAdder(c) =>
      step := if s.adders[c].Pushing? then PushBack(c) else AdderUnlock(c);
    case AWorker(w) =>
      step := match s.workers[w]
        case Holding => CheckEmpty(w)
        case Popping => PopFront(w)
        case _ => WorkerUnlock(w);
  }

  lemma {:induction false} WorkersWait(s: State)
    requires Mutex(s) && s.lock == None && Stuck(s)
    ensures forall w :: 0 <= w < |s.workers| ==> s.workers[w] == Waiting
  {
    forall w | 0 <= w < |s.workers| ensures s.workers[w] == Waiting {
      assert !Enabled(s, WorkerLock(w)) && !Enabled(s, Finish(w));
    }
  }

  lemma {:induction false} AddersReturned(s: State)
    requires Mutex(s) && s.lock == None && Stuck(s) && |s.workers| > 0
    requires forall w :: 0 <= w < |s.workers| ==> s.workers[w] == Waiting
    ensures forall c :: 0 <= c < |s.adders| ==> s.adders[c] == Returned
  {
    forall c | 0 <= c < |s.adders| ensures s.adders[c] == Returned {
      assert !Enabled(s, AdderLock(c)) && !Enabled(s, NotifyOne(c, Some(0)));
    }
  }

  lemma {:induction false} EverythingFinished(s: State)
    requires Inv(s) && forall w :: 0 <= w < |s.workers| ==> s.workers[w] == Waiting
    requires forall c :: 0 <= c < |s.adders| ==> s.adders[c] == Returned
    ensures s.tasks == [] && forall c :: 0 <= c < |s.adders| ==> c in s.finished
  {
    assert s.workers[0] == Waiting;
    if s.tasks != [] {
      if Sum(s.adders, Notices) > 0 {
        var c := SumPositive(s.adders, Notices);
      } else {
        var w := SumPositive(s.workers, Comes);
      }
    }
    forall c | 0 <= c < |s.adders| ensures c in s.finished {
      assert c in s.pushed && c in s.popped;
    }
  }

  // ---- The pool as an object -------------------------------------------------------------------

  class Executor {
    var tasks: seq<nat>
    var lock: Option<Agent>
    var workers: seq<Worker>
    var adders: seq<Adder>
    ghost var pushed: seq<nat>
    ghost var popped: seq<nat>
    ghost var finished: set<nat>

    ghost function View(): State
      reads this
    {
      State(tasks, lock, workers, adders, pushed, popped, finished)
    }

    constructor (numThreads: nat)
      requires numThreads > 0
      ensures View() == Init(numThreads) && Inv(View())
    {
      tasks := [];
      lock := None;
      workers := seq(numThreads, _ => Acquiring);
      adders := [];
      pushed := [];
      popped := [];
      finished := {};
      new;
      InitInv(numThreads);
    }

    // One step of add_boxed in the thread of call c.
    method AddBoxed(c: nat, woken: Option<nat>, ghost step: Step)
      requires Inv(View()) && Enabled(View(), step) && AdderOf(step) == Some(c)
      requires step.NotifyOne? ==> step.woken == woken
      modifies this`tasks, this`lock, this`workers, this`adders, this`pushed
      ensures View() == Apply(old(View()), step) && Inv(View())
    {
      hide Inv;
      InvKept(View(), step);
      match adders[c]
      case Locking =>
        lock := Some(AnAdder(c));
        adders := adders[c := Pushing];
      case Pushing =>
        tasks := tasks + [c];
        pushed := pushed + [c];
        adders := adders[c := Pushed];
      case Pushed =>
        lock := None;
        adders := adders[c := Notifying];
      case Notifying =>
        if woken.Some? {
          workers := workers[woken.value := Woken];
        }
        adders := adders[c := Returned];
    }

    // One step of worker_thread in worker w.
    method WorkerThread(w: nat, ghost step: Step)
      requires Inv(View()) && Enabled(View(), step) && WorkerOf(step) == Some(w) && !step.NotifyOne?
      modifies this`tasks, this`lock, this`workers, this`popped, this`finished
      ensures View() == Apply(old(View()), step) && Inv(View())
    {
      hide Inv;
      InvKept(View(), step);
      match workers[w]
      case Acquiring =>
        lock := Some(AWorker(w));
        workers := workers[w := Holding];
      case Holding =>
        if tasks == [] {
          lock := None;
          workers := workers[w := Waiting];
        } else {
          workers := workers[w := Popping];
        }
      case Waiting =>
        workers := workers[w := Woken];
      case Woken =>
        lock := Some(AWorker(w));
        workers := workers[w := Holding];
      case Popping =>
        var task := tasks[0];
        tasks := tasks[1..];
        popped := popped + [task];
        workers := workers[w := Popped(task)];
      case Popped(task) =>
        lock := None;
        workers := workers[w := Running(task)];
      case Running(task) =>
        finished := finished + {task};
        workers := workers[w := Acquiring];
    }

    // Any interleaving.
    method Run(schedule: seq<Step>)
      requires Inv(View()) && IsRun(View(), schedule)
      modifies this
      ensures View() == End(old(View()), schedule) && Inv(View())
    {
      hide Inv, Apply;
      for i := 0 to |schedule|
        invariant Inv(View()) && IsRun(View(), schedule[i..])
        invariant End(View(), schedule[i..]) == End(old(View()), schedule)
      {
        var step, rest := schedule[i], schedule[i..];
        assert rest[0] == step && rest[1..] == schedule[i + 1..];
        match AdderOf(step)
        case Some(c) =>
          AddBoxed(c, WorkerOf(step), step);
        case None =>
          match WorkerOf(step)
          case Some(w) =>
            WorkerThread(w, step);
          case None =>
            CallAdd();
      }
    }

    // A thread calls add_boxed.
    method CallAdd()
      requires Inv(View())
      modifies this`adders
      ensures View() == Apply(old(View()), Call) && Inv(View())
    {
      InvKept(View(), Call);
      adders := adders + [Locking];
    }
  }
}
