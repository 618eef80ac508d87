/** The thread pool (Code/liuting1/lt_thread_pool/thread_pool.c) as a protocol over atomic steps,
    for any number of workers and of threads that push tasks. The pool is not stopped. */
module ThreadPool {
  import opened Counting

  type Task = nat

  /** Where a worker is in `thread_work`. */
  datatype Worker =
    | Unborn               // not yet created by thread_pool_start
    | Checking             // at the outer `while (is_start)`
    | Locking              // about to take the mutex
    | Testing              // holds the mutex, at the inner `while`
    | Asleep               // inside pthread_cond_wait
    | Waking               // woken, taking the mutex back
    | Popping              // holds the mutex, past the inner `while`
    | Leaving(task: Task)  // holds the mutex, has popped
    | Running(task: Task)

  /** Where a caller is in `thread_pool_pushtask`. */
  datatype Pusher =
    | Idle
    | Ready(task: Task)    // about to take the mutex
    | Pushing(task: Task)  // holds the mutex
    | Unlocking            // holds the mutex, has pushed
    | Signalling           // has released the mutex, has not signalled

  datatype Owner = Free | ByWorker(w: nat) | ByPusher(p: nat)

  /** `pushed`, `popped` and `finished` record what has happened. `crashed` is set when
      `Queue_pop` is called on an empty queue. */
  datatype Pool = Pool(
    started: bool, queue: seq<Task>, owner: Owner, workers: seq<Worker>, pushers: seq<Pusher>,
    pushed: seq<Task>, popped: seq<Task>, finished: multiset<Task>, crashed: bool)

  datatype WorkerAct = Create | Check | LockIt | Test | Relock | Pop | UnlockIt | Finish | Spurious

  /** `Signal` wakes worker `woken` when some worker sleeps. A signal that wakes several
      is one `Signal` and some `Spurious`. */
  datatype PusherAct = Call(task: Task) | Lock | Push | Unlock | Signal(woken: nat)

  datatype Step = Start | Work(w: nat, act: WorkerAct) | Submit(p: nat, todo: PusherAct)

  function Init(threads: nat, callers: nat): Pool {
    Pool(false, [], Free, seq(threads, _ => Unborn), seq(callers, _ => Idle), [], [], multiset{}, false)
  }

  predicate AnyAsleep(ws: seq<Worker>) {
    exists w :: 0 <= w < |ws| && ws[w] == Asleep
  }

  // ---------- A worker's steps ----------

  /** Where a worker must be to take the step. */
  predicate Fits(at: Worker, act: WorkerAct) {
    match act
    case Create => at == Unborn
    case Check => at == Checking
    case LockIt => at == Locking
    case Test => at == Testing
    case Relock => at == Waking
    case Pop => at == Popping
    case UnlockIt => at.Leaving?
    case Finish => at.Running?
    case Spurious => at == Asleep
  }

  predicate WorkerEnabled(s: Pool, w: nat, act: WorkerAct) {
    && w < |s.workers| && Fits(s.workers[w], act)
    && (act.Create? ==> s.started && (w > 0 ==> s.workers[w - 1] != Unborn))
    && (act.LockIt? || act.Relock? ==> s.owner == Free)
  }

  function NextWorker(at: Worker, queue: seq<Task>, act: WorkerAct): Worker
    requires Fits(at, act)
  {
    match act
    case Create => Checking
    case Check => Locking
    case LockIt => Testing
    case Test => if |queue| < 1 then Asleep else Popping
    case Relock => Testing
    case Pop => if queue == [] then at else Leaving(queue[0])
    case UnlockIt => Running(at.task)
    case Finish => Checking
    case Spurious => Waking
  }

  /** Waiting on the condition variable releases the mutex. */
  function NextOwner(owner: Owner, queue: seq<Task>, w: nat, act: WorkerAct): Owner {
    match act
    case LockIt => ByWorker(w)
    case Relock => ByWorker(w)
    case Test => if |queue| < 1 then Free else owner
    case UnlockIt => Free
    case _ => owner
  }

  function ApplyWorker(s: Pool, w: nat, act: WorkerAct): Pool
    requires WorkerEnabled(s, w, act)
  {
    s.(workers := s.workers[w := NextWorker(s.workers[w], s.queue, act)],
       owner := NextOwner(s.owner, s.queue, w, act),
       queue := if act.Pop? && s.queue != [] then s.queue[1..] else s.queue,
       popped := if act.Pop? && s.queue != [] then s.popped + [s.queue[0]] else s.popped,
       finished := if act.Finish? then s.finished + multiset{s.workers[w].task} else s.finished,
       crashed := s.crashed || (act.Pop? && s.queue == []))
  }

  // ---------- A pusher's steps ----------

  predicate FitsPusher(at: Pusher, todo: PusherAct) {
    match todo
    case Call(_) => at == Idle
    case Lock => at.Ready?
    case Push => at.Pushing?
    case Unlock => at == Unlocking
    case Signal(_) => at == Signalling
  }

  predicate PusherEnabled(s: Pool, p: nat, todo: PusherAct) {
    && p < |s.pushers| && FitsPusher(s.pushers[p], todo)
    && (todo.Lock? ==> s.owner == Free)
    && (todo.Signal? && AnyAsleep(s.workers) ==>
          todo.woken < |s.workers| && s.workers[todo.woken] == Asleep)
  }

  function NextPusher(at: Pusher, todo: PusherAct): Pusher
    requires FitsPusher(at, todo)
  {
    match todo
    case Call(task) => Ready(task)
    case Lock => Pushing(at.task)
    case Push => Unlocking
    case Unlock => Signalling
    case Signal(_) => Idle
  }

  function ApplyPusher(s: Pool, p: nat, todo: PusherAct): Pool
    requires PusherEnabled(s, p, todo)
  {
    s.(pushers := s.pushers[p := NextPusher(s.pushers[p], todo)],
       owner := if todo.Lock? then ByPusher(p) else if todo.Unlock? then Free else s.owner,
       queue := if todo.Push? then s.queue + [s.pushers[p].task] else s.queue,
       pushed := if todo.Push? then s.pushed + [s.pushers[p].task] else s.pushed,
       workers := if todo.Signal? && AnyAsleep(s.workers) then s.workers[todo.woken := Waking] else s.workers)
  }

  // ---------- Steps and runs ----------

  predicate Enabled(s: Pool, step: Step) {
    match step
    case Start => !s.started
    case Work(w, act) => WorkerEnabled(s, w, act)
    case Submit(p, todo) => PusherEnabled(s, p, todo)
  }

  function Apply(s: Pool, step: Step): Pool
    requires Enabled(s, step)
  {
    match step
    case Start => s.(started := true)
    case Work(w, act) => ApplyWorker(s, w, act)
    case Submit(p, todo) => ApplyPusher(s, p, todo)
  }

  ghost predicate IsRun(s: Pool, steps: seq<Step>, t: Pool)
    decreases |steps|
  {
    if steps == [] then s == t
    else Enabled(s, steps[0]) && IsRun(Apply(s, steps[0]), steps[1..], t)
  }

  // ---------- Adding up over threads ----------

  ghost function Holds(w: Worker, t: Task): nat {
    if (w.Leaving? || w.Running?) && w.task == t then 1 else 0
  }

  /** Counts the workers that have popped task `t` and not finished it. */
  ghost function Holding(t: Task): Worker -> nat {
    w => Holds(w, t)
  }

  // ---------- The invariant ----------

  ghost predicate HoldsLock(w: Worker) {
    w.Testing? || w.Popping? || w.Leaving?
  }

  ghost predicate PusherHolds(p: Pusher) {
    p.Pushing? || p.Unlocking?
  }

  ghost function Up(w: Worker): nat {
    if w.Asleep? || w.Unborn? then 0 else 1
  }

  ghost function Owes(p: Pusher): nat {
    if p.Unlocking? || p.Signalling? then 1 else 0
  }

  ghost predicate Mutex(s: Pool) {
    && (forall w :: 0 <= w < |s.workers| ==> (HoldsLock(s.workers[w]) <==> s.owner == ByWorker(w)))
    && (forall p :: 0 <= p < |s.pushers| ==> (PusherHolds(s.pushers[p]) <==> s.owner == ByPusher(p)))
    && (s.owner.ByWorker? ==> s.owner.w < |s.workers|)
    && (s.owner.ByPusher? ==> s.owner.p < |s.pushers|)
  }

  /** While anyone sleeps, every queued task has a signal on its way or an awake worker. */
  ghost predicate Covered(s: Pool) {
    AnyAsleep(s.workers) ==> |s.queue| <= Tally(Owes, s.pushers) + Tally(Up, s.workers)
  }

  /** Every popped task is held by a worker or finished. */
  ghost predicate Accounted(s: Pool) {
    forall t :: multiset(s.popped)[t] == s.finished[t] + Tally(Holding(t), s.workers)
  }

  ghost predicate Inv(s: Pool) {
    && Mutex(s)
    && Covered(s)
    && !s.crashed
    && (forall w :: 0 <= w < |s.workers| && s.workers[w] == Popping ==> s.queue != [])
    && s.pushed == s.popped + s.queue
    && Accounted(s)
  }

  lemma InitInv(threads: nat, callers: nat)
    ensures Inv(Init(threads, callers))
  {
    forall t ensures Tally(Holding(t), Init(threads, callers).workers) == 0 {
      TallyConstant(Holding(t), Init(threads, callers).workers, 0);
    }
  }

  /** A worker's step, as far as the mutex is concerned. */
  lemma MutexWorker(s: Pool, w: nat, act: WorkerAct)
    requires Mutex(s) && WorkerEnabled(s, w, act)
    ensures Mutex(ApplyWorker(s, w, act))
  {
    var t := ApplyWorker(s, w, act);
    assert HoldsLock(s.workers[w]) <==> s.owner == ByWorker(w);
    assert HoldsLock(t.workers[w]) <==> t.owner == ByWorker(w);
  }

  lemma MutexPusher(s: Pool, p: nat, todo: PusherAct)
    requires Mutex(s) && PusherEnabled(s, p, todo)
    ensures Mutex(ApplyPusher(s, p, todo))
  {
    var t := ApplyPusher(s, p, todo);
    assert PusherHolds(s.pushers[p]) <==> s.owner == ByPusher(p);
    assert PusherHolds(t.pushers[p]) <==> t.owner == ByPusher(p);
  }

  lemma CoveredWorker(s: Pool, w: nat, act: WorkerAct)
    requires Inv(s) && WorkerEnabled(s, w, act)
    ensures Covered(ApplyWorker(s, w, act))
  {
    var t := ApplyWorker(s, w, act);
    TallyUpdate(Up, s.workers, w, t.workers[w]);
    if x :| 0 <= x < |t.workers| && t.workers[x] == Asleep {
      assert x == w || s.workers[x] == Asleep;
    }
  }

  lemma CoveredPusher(s: Pool, p: nat, todo: PusherAct)
    requires Inv(s) && PusherEnabled(s, p, todo)
    ensures Covered(ApplyPusher(s, p, todo))
  {
    var t := ApplyPusher(s, p, todo);
    TallyUpdate(Owes, s.pushers, p, t.pushers[p]);
    if todo.Signal? && AnyAsleep(s.workers) {
      TallyUpdate(Up, s.workers, todo.woken, Waking);
    }
  }

  lemma HoldsNext(at: Worker, queue: seq<Task>, act: WorkerAct, t: Task)
    requires Fits(at, act) && (act.Pop? ==> queue != [])
    ensures Holds(NextWorker(at, queue, act), t) + (if act.Finish? && at.task == t then 1 else 0)
         == Holds(at, t) + (if act.Pop? && queue[0] == t then 1 else 0)
  {
  }

  /** What a worker takes from the queue it holds until it has finished it. */
  lemma AccountedWorker(s: Pool, w: nat, act: WorkerAct)
    requires Inv(s) && WorkerEnabled(s, w, act)
    ensures Accounted(ApplyWorker(s, w, act))
  {
    var x, u := NextWorker(s.workers[w], s.queue, act), ApplyWorker(s, w, act);
    forall t ensures multiset(u.popped)[t] == u.finished[t] + Tally(Holding(t), u.workers) {
      TallyUpdate(Holding(t), s.workers, w, x);
      HoldsNext(s.workers[w], s.queue, act, t);
    }
  }

  lemma AccountedPusher(s: Pool, p: nat, todo: PusherAct)
    requires Inv(s) && PusherEnabled(s, p, todo)
    ensures Accounted(ApplyPusher(s, p, todo))
  {
    if todo.Signal? && AnyAsleep(s.workers) {
      forall t ensures Tally(Holding(t), s.workers[todo.woken := Waking]) == Tally(Holding(t), s.workers) {
        TallyUpdate(Holding(t), s.workers, todo.woken, Waking);
      }
    }
  }

  /** Nobody else can empty the queue between a worker's test and its pop. */
  lemma PoppingWorker(s: Pool, w: nat, act: WorkerAct)
    requires Inv(s) && WorkerEnabled(s, w, act)
    ensures var t := ApplyWorker(s, w, act);
            forall v :: 0 <= v < |t.workers| && t.workers[v] == Popping ==> t.queue != []
  {
    var t := ApplyWorker(s, w, act);
    if act.Pop? {
      forall v | 0 <= v < |t.workers| ensures t.workers[v] != Popping {
        assert HoldsLock(s.workers[w]) <==> s.owner == ByWorker(w);
        assert HoldsLock(s.workers[v]) <==> s.owner == ByWorker(v);
      }
    }
  }

  lemma FifoWorker(s: Pool, w: nat, act: WorkerAct)
    requires Inv(s) && WorkerEnabled(s, w, act)
    ensures var t := ApplyWorker(s, w, act); !t.crashed && t.pushed == t.popped + t.queue
  {
    if act.Pop? {
      assert s.queue == [s.queue[0]] + s.queue[1..];
    }
  }

  lemma WorkerInv(s: Pool, w: nat, act: WorkerAct)
    requires Inv(s) && WorkerEnabled(s, w, act)
    ensures Inv(ApplyWorker(s, w, act))
  {
    MutexWorker(s, w, act);
    CoveredWorker(s, w, act);
    AccountedWorker(s, w, act);
    PoppingWorker(s, w, act);
    FifoWorker(s, w, act);
  }

  lemma PusherInv(s: Pool, p: nat, todo: PusherAct)
    requires Inv(s) && PusherEnabled(s, p, todo)
    ensures Inv(ApplyPusher(s, p, todo))
  {
    MutexPusher(s, p, todo);
    CoveredPusher(s, p, todo);
    AccountedPusher(s, p, todo);
  }

  lemma StepInv(s: Pool, step: Step)
    requires Inv(s) && Enabled(s, step)
    ensures Inv(Apply(s, step))
    ensures |Apply(s, step).workers| == |s.workers| && |Apply(s, step).pushers| == |s.pushers|
  {
    match step
    case Start =>
    case Work(w, act) => WorkerInv(s, w, act);
    case Submit(p, todo) => PusherInv(s, p, todo);
  }

  lemma {:induction false} RunInv(s: Pool, steps: seq<Step>, t: Pool)
    requires Inv(s) && IsRun(s, steps, t)
    ensures Inv(t)
    ensures |t.workers| == |s.workers| && |t.pushers| == |s.pushers|
    decreases |steps|
  {
    if steps != [] {
      StepInv(s, steps[0]);
      RunInv(Apply(s, steps[0]), steps[1..], t);
    }
  }

  ghost predicate Leads(s: Pool, step: Step, t: Pool) {
    Enabled(s, step) && Apply(s, step) == t
  }

  lemma TwoSteps(s: Pool, x: Step, a: Pool, y: Step, b: Pool)
    requires Leads(s, x, a) && Leads(a, y, b)
    ensures IsRun(s, [x, y], b)
  {
    assert IsRun(b, [], b) && [y][1..] == [];
    assert IsRun(a, [y], b) && [x, y][1..] == [y];
  }

  lemma ThreeSteps(s: Pool, x: Step, a: Pool, y: Step, b: Pool, z: Step, c: Pool)
    requires Leads(s, x, a) && Leads(a, y, b) && Leads(b, z, c)
    ensures IsRun(s, [x, y, z], c)
  {
    TwoSteps(a, y, b, z, c);
    assert [x, y, z][1..] == [y, z];
  }

  // ---------- One turn of each loop ----------

  /** With the mutex free and a task waiting, a worker comes to hold the mutex with the queue
      before it. */
  lemma WorkerTakes(s: Pool, w: nat)
    requires w < |s.workers| && s.workers[w] == Checking && s.owner == Free && s.queue != []
    ensures IsRun(s, [Work(w, Check), Work(w, LockIt), Work(w, Test)],
                  s.(workers := s.workers[w := Popping], owner := ByWorker(w)))
  {
    var a := s.(workers := s.workers[w := Locking]);
    var b := s.(workers := s.workers[w := Testing], owner := ByWorker(w));
    var c := s.(workers := s.workers[w := Popping], owner := ByWorker(w));
    assert a.workers[w := Testing] == b.workers && b.workers[w := Popping] == c.workers;
    assert Leads(s, Work(w, Check), a);
    assert Leads(a, Work(w, LockIt), b);
    assert Leads(b, Work(w, Test), c);
    ThreeSteps(s, Work(w, Check), a, Work(w, LockIt), b, Work(w, Test), c);
  }

  /** It then takes the first task out, lets the mutex go, runs that task, and is back where the
      loop begins. */
  lemma WorkerRuns(s: Pool, w: nat)
    requires w < |s.workers| && s.workers[w] == Popping && s.queue != []
    ensures var task := s.queue[0];
            IsRun(s, [Work(w, Pop), Work(w, UnlockIt), Work(w, Finish)],
                  s.(workers := s.workers[w := Checking], owner := Free, queue := s.queue[1..],
                     popped := s.popped + [task], finished := s.finished + multiset{task}))
  {
    var task := s.queue[0];
    var a := s.(workers := s.workers[w := Leaving(task)], queue := s.queue[1..], popped := s.popped + [task]);
    var b := a.(workers := s.workers[w := Running(task)], owner := Free);
    var c := b.(workers := s.workers[w := Checking], finished := s.finished + multiset{task});
    assert a.workers[w := Running(task)] == b.workers && b.workers[w := Checking] == c.workers;
    assert Leads(s, Work(w, Pop), a);
    assert Leads(a, Work(w, UnlockIt), b);
    assert Leads(b, Work(w, Finish), c);
    ThreeSteps(s, Work(w, Pop), a, Work(w, UnlockIt), b, Work(w, Finish), c);
  }

  /** A call comes to hold the mutex and puts its own task last. */
  lemma CallPushes(s: Pool, p: nat, task: Task)
    requires p < |s.pushers| && s.pushers[p] == Idle && s.owner == Free
    ensures IsRun(s, [Submit(p, Call(task)), Submit(p, Lock), Submit(p, Push)],
                  s.(pushers := s.pushers[p := Unlocking], owner := ByPusher(p),
                     queue := s.queue + [task], pushed := s.pushed + [task]))
  {
    var a := s.(pushers := s.pushers[p := Ready(task)]);
    var b := s.(pushers := s.pushers[p := Pushing(task)], owner := ByPusher(p));
    var c := b.(pushers := s.pushers[p := Unlocking], queue := s.queue + [task], pushed := s.pushed + [task]);
    assert a.pushers[p := Pushing(task)] == b.pushers && b.pushers[p := Unlocking] == c.pushers;
    assert Leads(s, Submit(p, Call(task)), a);
    assert Leads(a, Submit(p, Lock), b);
    assert Leads(b, Submit(p, Push), c);
    ThreeSteps(s, Submit(p, Call(task)), a, Submit(p, Lock), b, Submit(p, Push), c);
  }

  /** It then lets the mutex go and wakes a worker, whichever it may be, if one sleeps. */
  lemma CallSignals(s: Pool, p: nat, woken: nat)
    requires p < |s.pushers| && s.pushers[p] == Unlocking
    requires AnyAsleep(s.workers) ==> woken < |s.workers| && s.workers[woken] == Asleep
    ensures IsRun(s, [Submit(p, Unlock), Submit(p, Signal(woken))],
                  s.(pushers := s.pushers[p := Idle], owner := Free,
                     workers := if AnyAsleep(s.workers) then s.workers[woken := Waking] else s.workers))
  {
    var a := s.(pushers := s.pushers[p := Signalling], owner := Free);
    var b := a.(pushers := s.pushers[p := Idle],
                workers := if AnyAsleep(s.workers) then s.workers[woken := Waking] else s.workers);
    assert a.pushers[p := Idle] == b.pushers;
    assert Leads(s, Submit(p, Unlock), a);
    assert Leads(a, Submit(p, Signal(woken)), b);
    TwoSteps(s, Submit(p, Unlock), a, Submit(p, Signal(woken)), b);
  }

  // ---------- What was called is what gets pushed ----------

  ghost function Called(step: Step): seq<Task> {
    if IsCall(step) then [step.todo.task] else []
  }

  /** The tasks of the calls made, in order. */
  ghost function Calls(steps: seq<Step>): seq<Task> {
    if steps == [] then [] else Called(steps[0]) + Calls(steps[1..])
  }

  ghost function Carries(p: Pusher, x: Task): nat {
    if (p.Ready? || p.Pushing?) && p.task == x then 1 else 0
  }

  /** Counts the callers that have been called with task `x` and not pushed it yet. */
  ghost function Carrying(x: Task): Pusher -> nat {
    p => Carries(p, x)
  }

  ghost function TimesIn(s: Pool, x: Task): nat {
    multiset(s.pushed)[x] + Tally(Carrying(x), s.pushers)
  }

  lemma CarriedStep(s: Pool, step: Step, x: Task)
    requires Enabled(s, step)
    ensures TimesIn(Apply(s, step), x) == TimesIn(s, x) + if IsCall(step) && step.todo.task == x then 1 else 0
  {
    if step.Submit? {
      TallyUpdate(Carrying(x), s.pushers, step.p, NextPusher(s.pushers[step.p], step.todo));
    }
  }

  lemma {:induction false} CarriedRun(s: Pool, steps: seq<Step>, t: Pool, x: Task)
    requires IsRun(s, steps, t)
    ensures TimesIn(t, x) == TimesIn(s, x) + multiset(Calls(steps))[x]
    decreases |steps|
  {
    if steps != [] {
      CarriedStep(s, steps[0], x);
      CarriedRun(Apply(s, steps[0]), steps[1..], t, x);
    }
  }

  /** Every task called for is pushed once, or its caller still has it; nothing else is pushed. */
  lemma PushedAsCalled(threads: nat, callers: nat, steps: seq<Step>, t: Pool)
    requires IsRun(Init(threads, callers), steps, t)
    ensures forall x :: multiset(t.pushed)[x] + Tally(Carrying(x), t.pushers) == multiset(Calls(steps))[x]
  {
    var s := Init(threads, callers);
    forall x ensures multiset(t.pushed)[x] + Tally(Carrying(x), t.pushers) == multiset(Calls(steps))[x] {
      TallyConstant(Carrying(x), s.pushers, 0);
      CarriedRun(s, steps, t, x);
    }
  }

  // ---------- What holds in every reachable state ----------

  /** No lost wakeup: with every worker asleep, each queued task has its signal on the way. */
  lemma NoLostWakeup(threads: nat, callers: nat, steps: seq<Step>, t: Pool)
    requires threads > 0 && IsRun(Init(threads, callers), steps, t)
    requires forall w :: 0 <= w < |t.workers| ==> t.workers[w] == Asleep
    ensures |t.queue| <= Tally(Owes, t.pushers)
  {
    InitInv(threads, callers);
    RunInv(Init(threads, callers), steps, t);
    TallyConstant(Up, t.workers, 0);
    assert t.workers[0] == Asleep;
  }

  /** Tasks leave the queue in push order, each at most once, `Queue_pop` never meets an empty
      queue, and every task called for is with its caller, queued, being run, or finished. */
  lemma TasksConserved(threads: nat, callers: nat, steps: seq<Step>, t: Pool)
    requires IsRun(Init(threads, callers), steps, t)
    ensures !t.crashed
    ensures t.popped <= t.pushed && t.queue == t.pushed[|t.popped|..]
    ensures forall x :: multiset(t.pushed)[x] == multiset(t.queue)[x] + Tally(Holding(x), t.workers) + t.finished[x]
    ensures forall x :: multiset(Calls(steps))[x] == Tally(Carrying(x), t.pushers) + multiset(t.pushed)[x]
  {
    InitInv(threads, callers);
    RunInv(Init(threads, callers), steps, t);
    PushedAsCalled(threads, callers, steps, t);
  }

  /** Workers are created one after the other, in order. */
  ghost predicate BornInOrder(s: Pool) {
    forall w :: 0 < w < |s.workers| && s.workers[w - 1] == Unborn ==> s.workers[w] == Unborn
  }

  lemma CreateInOrder(s: Pool, step: Step)
    requires BornInOrder(s) && Enabled(s, step)
    ensures BornInOrder(Apply(s, step))
  {
  }

  lemma {:induction false} CreatedInOrder(s: Pool, steps: seq<Step>, t: Pool)
    requires IsRun(s, steps, t) && BornInOrder(s)
    ensures BornInOrder(t)
    decreases |steps|
  {
    if steps != [] {
      CreateInOrder(s, steps[0]);
      CreatedInOrder(Apply(s, steps[0]), steps[1..], t);
    }
  }

  /** At most one thread is inside the critical section. */
  lemma MutualExclusion(threads: nat, callers: nat, steps: seq<Step>, t: Pool)
    requires IsRun(Init(threads, callers), steps, t)
    ensures forall v, w | 0 <= v < |t.workers| && 0 <= w < |t.workers| ::
              HoldsLock(t.workers[v]) && HoldsLock(t.workers[w]) ==> v == w
    ensures forall p, q | 0 <= p < |t.pushers| && 0 <= q < |t.pushers| ::
              PusherHolds(t.pushers[p]) && PusherHolds(t.pushers[q]) ==> p == q
    ensures forall w, p | 0 <= w < |t.workers| && 0 <= p < |t.pushers| ::
              !(HoldsLock(t.workers[w]) && PusherHolds(t.pushers[p]))
  {
    InitInv(threads, callers);
    RunInv(Init(threads, callers), steps, t);
  }

  // ---------- Progress ----------

  ghost predicate IsCall(step: Step) {
    step.Submit? && step.todo.Call?
  }

  ghost predicate IsSpurious(step: Step) {
    step.Work? && step.act.Spurious?
  }

  /** New calls and spurious wakeups come from outside; every other step is the pool's own. */
  ghost predicate Own(step: Step) {
    !IsCall(step) && !IsSpurious(step)
  }

  ghost function WorkLeft(w: Worker): nat {
    match w
    case Asleep => 0 case Popping => 0 case Testing => 1 case Locking => 2 case Waking => 2
    case Checking => 3 case Running(_) => 4 case Unborn => 4 case Leaving(_) => 5
  }

  ghost function CallLeft(p: Pusher): nat {
    match p
    case Idle => 0 case Signalling => 3 case Unlocking => 4 case Pushing(_) => 11 case Ready(_) => 12
  }

  ghost function Measure(s: Pool): nat {
    (if s.started then 0 else 1) + 6 * |s.queue| + Tally(WorkLeft, s.workers) + Tally(CallLeft, s.pushers)
  }

  /** A worker's step brings it closer to sleep, unless it pops a task or is woken. */
  lemma WorkShrinks(at: Worker, queue: seq<Task>, act: WorkerAct)
    requires Fits(at, act) && (act.Pop? ==> queue != [])
    ensures var x := WorkLeft(NextWorker(at, queue, act));
            if act.Spurious? then x == WorkLeft(at) + 2
            else if act.Pop? then x < WorkLeft(at) + 6 else x < WorkLeft(at)
  {
  }

  lemma MeasureWorker(s: Pool, w: nat, act: WorkerAct)
    requires Inv(s) && WorkerEnabled(s, w, act)
    ensures var t := ApplyWorker(s, w, act);
            if act.Spurious? then Measure(t) == Measure(s) + 2 else Measure(t) < Measure(s)
  {
    TallyUpdate(WorkLeft, s.workers, w, NextWorker(s.workers[w], s.queue, act));
    WorkShrinks(s.workers[w], s.queue, act);
    var t := ApplyWorker(s, w, act);
    assert |t.queue| == |s.queue| - if act.Pop? then 1 else 0;
  }

  lemma MeasurePusher(s: Pool, p: nat, todo: PusherAct)
    requires Inv(s) && PusherEnabled(s, p, todo)
    ensures var t := ApplyPusher(s, p, todo);
            if todo.Call? then Measure(t) == Measure(s) + 12 else Measure(t) < Measure(s)
  {
    TallyUpdate(CallLeft, s.pushers, p, NextPusher(s.pushers[p], todo));
    if todo.Signal? && AnyAsleep(s.workers) {
      TallyUpdate(WorkLeft, s.workers, todo.woken, Waking);
    }
  }

  lemma MeasureStep(s: Pool, step: Step)
    requires Inv(s) && Enabled(s, step)
    ensures Own(step) ==> Measure(Apply(s, step)) < Measure(s)
    ensures IsCall(step) ==> Measure(Apply(s, step)) == Measure(s) + 12
    ensures IsSpurious(step) ==> Measure(Apply(s, step)) == Measure(s) + 2
  {
    match step
    case Start =>
    case Work(w, act) => MeasureWorker(s, w, act);
    case Submit(p, todo) => MeasurePusher(s, p, todo);
  }

  ghost function CountOwn(steps: seq<Step>): nat {
    if steps == [] then 0 else CountOwn(steps[1..]) + if Own(steps[0]) then 1 else 0
  }

  ghost function CountCalls(steps: seq<Step>): nat {
    if steps == [] then 0 else CountCalls(steps[1..]) + if IsCall(steps[0]) then 1 else 0
  }

  ghost function CountSpurious(steps: seq<Step>): nat {
    if steps == [] then 0 else CountSpurious(steps[1..]) + if IsSpurious(steps[0]) then 1 else 0
  }

  lemma {:induction false} RunBound(s: Pool, steps: seq<Step>, t: Pool)
    requires Inv(s) && IsRun(s, steps, t)
    ensures CountOwn(steps) + Measure(t) <= Measure(s) + 12 * CountCalls(steps) + 2 * CountSpurious(steps)
    decreases |steps|
  {
    if steps != [] {
      StepInv(s, steps[0]);
      MeasureStep(s, steps[0]);
      RunBound(Apply(s, steps[0]), steps[1..], t);
    }
  }

  /** The pool takes a bounded number of steps of its own per call and spurious wakeup: it can
      neither spin nor pass the lock around for ever. */
  lemma BoundedWork(threads: nat, callers: nat, steps: seq<Step>, t: Pool)
    requires IsRun(Init(threads, callers), steps, t)
    ensures CountOwn(steps) <= 1 + 4 * threads + 12 * CountCalls(steps) + 2 * CountSpurious(steps)
  {
    var s := Init(threads, callers);
    InitInv(threads, callers);
    TallyConstant(WorkLeft, s.workers, 4);
    TallyConstant(CallLeft, s.pushers, 0);
    RunBound(s, steps, t);
  }

  ghost predicate Quiescent(s: Pool) {
    forall step :: Own(step) ==> !Enabled(s, step)
  }

  lemma QuiescentIsFree(s: Pool)
    requires Inv(s) && Quiescent(s)
    ensures s.owner == Free
  {
    var w := if s.owner.ByWorker? then s.owner.w else 0;
    assert !Enabled(s, Work(w, Test)) && !Enabled(s, Work(w, Pop)) && !Enabled(s, Work(w, UnlockIt));
    var p := if s.owner.ByPusher? then s.owner.p else 0;
    assert !Enabled(s, Submit(p, Push)) && !Enabled(s, Submit(p, Unlock));
  }

  lemma {:induction false} QuiescentWorker(s: Pool, w: nat)
    requires Inv(s) && Quiescent(s) && w < |s.workers|
    ensures s.workers[w] == Asleep
  {
    QuiescentIsFree(s);
    if w > 0 { QuiescentWorker(s, w - 1); }
    assert !Enabled(s, Start) && !Enabled(s, Work(w, Create)) && !Enabled(s, Work(w, Check));
    assert !Enabled(s, Work(w, LockIt)) && !Enabled(s, Work(w, Relock)) && !Enabled(s, Work(w, Finish));
    assert !Enabled(s, Work(w, Test)) && !Enabled(s, Work(w, Pop)) && !Enabled(s, Work(w, UnlockIt));
  }

  lemma QuiescentPusher(s: Pool, p: nat)
    requires Inv(s) && Quiescent(s) && p < |s.pushers|
    ensures s.pushers[p] == Idle
  {
    QuiescentIsFree(s);
    assert !Enabled(s, Submit(p, Lock)) && !Enabled(s, Submit(p, Push)) && !Enabled(s, Submit(p, Unlock));
    if s.pushers[p] == Signalling {
      var woken := if x :| 0 <= x < |s.workers| && s.workers[x] == Asleep then x else 0;
      assert Enabled(s, Submit(p, Signal(woken)));
      assert Own(Submit(p, Signal(woken)));
    }
  }

  ghost predicate AllRest(s: Pool) {
    && (forall w :: 0 <= w < |s.workers| ==> s.workers[w] == Asleep)
    && (forall p :: 0 <= p < |s.pushers| ==> s.pushers[p] == Idle)
  }

  lemma QuiescentRests(s: Pool)
    requires Inv(s) && Quiescent(s)
    ensures AllRest(s)
  {
    forall w | 0 <= w < |s.workers| ensures s.workers[w] == Asleep {
      QuiescentWorker(s, w);
    }
    forall p | 0 <= p < |s.pushers| ensures s.pushers[p] == Idle {
      QuiescentPusher(s, p);
    }
  }

  lemma RestHoldsNothing(s: Pool, x: Task)
    requires AllRest(s)
    ensures Tally(Up, s.workers) == Tally(Owes, s.pushers) == 0
    ensures Tally(Holding(x), s.workers) == Tally(Carrying(x), s.pushers) == 0
  {
    TallyConstant(Up, s.workers, 0);
    TallyConstant(Owes, s.pushers, 0);
    TallyConstant(Holding(x), s.workers, 0);
    TallyConstant(Carrying(x), s.pushers, 0);
  }

  lemma RestIsDone(s: Pool)
    requires Inv(s) && AllRest(s) && |s.workers| > 0
    ensures s.queue == [] && s.popped == s.pushed && s.finished == multiset(s.pushed)
  {
    RestHoldsNothing(s, 0);
    assert s.workers[0] == Asleep;
    assert s.popped + s.queue == s.popped;
    forall x ensures multiset(s.popped)[x] == s.finished[x] {
      RestHoldsNothing(s, x);
    }
  }

  /** No deadlock and no task forgotten: when nothing but new calls and spurious wakeups can
      happen, the tasks run to their end are those called for, each as often as it was. */
  lemma NothingLeftBehind(threads: nat, callers: nat, steps: seq<Step>, t: Pool)
    requires threads > 0 && IsRun(Init(threads, callers), steps, t)
    requires Quiescent(t)
    ensures t.queue == [] && t.popped == t.pushed && t.finished == multiset(t.pushed)
    ensures t.finished == multiset(Calls(steps))
  {
    InitInv(threads, callers);
    RunInv(Init(threads, callers), steps, t);
    QuiescentRests(t);
    RestIsDone(t);
    RestIsCalled(threads, callers, steps, t);
  }

  lemma RestIsCalled(threads: nat, callers: nat, steps: seq<Step>, t: Pool)
    requires IsRun(Init(threads, callers), steps, t) && AllRest(t)
    ensures multiset(t.pushed) == multiset(Calls(steps))
  {
    PushedAsCalled(threads, callers, steps, t);
    forall x ensures multiset(t.pushed)[x] == multiset(Calls(steps))[x] {
      RestHoldsNothing(t, x);
    }
  }

  // ---------- Any tasks can be run ----------

  lemma StepThen(s: Pool, step: Step, rest: seq<Step>, t: Pool)
    requires Enabled(s, step) && IsRun(Apply(s, step), rest, t)
    ensures IsRun(s, [step] + rest, t) && Calls([step] + rest) == Called(step) + Calls(rest)
  {
    assert ([step] + rest)[1..] == rest;
  }

  /** The pool goes on by itself as long as it can, and is called with the next task when it is
      at rest. */
  lemma {:induction false} Drive(s: Pool, tasks: seq<Task>) returns (steps: seq<Step>, t: Pool)
    requires Inv(s) && |s.pushers| > 0
    ensures IsRun(s, steps, t) && Calls(steps) == tasks && Quiescent(t)
    decreases |tasks|, Measure(s)
  {
    if step :| Own(step) && Enabled(s, step) {
      StepInv(s, step);
      MeasureStep(s, step);
      var rest;
      rest, t := Drive(Apply(s, step), tasks);
      StepThen(s, step, rest, t);
      steps := [step] + rest;
    } else if tasks == [] {
      steps, t := [], s;
    } else {
      QuiescentPusher(s, 0);
      var call := Submit(0, Call(tasks[0]));
      StepInv(s, call);
      var rest;
      rest, t := Drive(Apply(s, call), tasks[1..]);
      StepThen(s, call, rest, t);
      steps := [call] + rest;
    }
  }

  /** With a worker and a caller, the pool can be called with any tasks in any order, and then
      finishes them all. */
  lemma AnyTasksGetDone(threads: nat, callers: nat, tasks: seq<Task>) returns (steps: seq<Step>, t: Pool)
    requires threads > 0 && callers > 0
    ensures IsRun(Init(threads, callers), steps, t) && Quiescent(t)
    ensures Calls(steps) == tasks && t.finished == multiset(tasks)
  {
    InitInv(threads, callers);
    steps, t := Drive(Init(threads, callers), tasks);
    NothingLeftBehind(threads, callers, steps, t);
  }

  /** A worker woken for nothing goes back to sleep, and nothing has changed. */
  lemma SpuriousIsHarmless(s: Pool, w: nat)
    requires Inv(s) && Quiescent(s) && w < |s.workers|
    ensures IsRun(s, [Work(w, Spurious), Work(w, Relock), Work(w, Test)], s)
  {
    QuiescentRests(s);
    RestIsDone(s);
    QuiescentIsFree(s);
    SleepAgain(s, w);
  }

  lemma SleepAgain(s: Pool, w: nat)
    requires w < |s.workers| && s.workers[w] == Asleep && s.owner == Free && s.queue == []
    ensures IsRun(s, [Work(w, Spurious), Work(w, Relock), Work(w, Test)], s)
  {
    var a := s.(workers := s.workers[w := Waking]);
    var b := s.(workers := s.workers[w := Testing], owner := ByWorker(w));
    assert a.workers[w := Testing] == b.workers && b.workers[w := Asleep] == s.workers;
    assert Leads(s, Work(w, Spurious), a);
    assert Leads(a, Work(w, Relock), b);
    assert Leads(b, Work(w, Test), s);
    ThreeSteps(s, Work(w, Spurious), a, Work(w, Relock), b, Work(w, Test), s);
  }
}
