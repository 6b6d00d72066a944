/** thread_pool: a controller and its workers, each pair meeting over two
    auto-reset events. */
module ThreadPool {

  /** A function with its parameter, as passed to thread_run. */
  type Task = int

  /** Where the worker is in thread_run_loop. `Checking`: woken, about to look at
      the abort flag. `Calling`: the flag was down, about to read the slot and
      call. `Signalling`: the task is over, its event not yet set. `Leaving`: the
      flag was up, the event not yet set. */
  datatype Worker = Sleeping | Checking | Calling | Running(task: Task) | Signalling | Leaving | Gone

  /** Where the controller is with this worker. `Writing`: the slot is filled, the
      control event not yet set. `Awaiting`: after thread_run, before the end of
      thread_waitfinished. `Aborting`: the flag is up, the control event not yet set. */
  datatype Controller = Free | Writing | Awaiting | Aborting | Aborted

  /** One entry of the _threads array with its worker. The logs record what was
      submitted, started and finished; `afterAbort` counts the tasks started once
      the abort flag was up. */
  datatype Cell = Cell(
    slot: Task, control: bool, done: bool, abort: bool, w: Worker, c: Controller,
    submitted: seq<Task>, started: seq<Task>, finished: seq<Task>, afterAbort: nat)

  const NEW_CELL := Cell(0, false, false, false, Sleeping, Free, [], [], [], 0)

  datatype Event =
    | RunWrite(task: Task) | RunSignal | WaitDone
    | AbortSet | AbortSignal
    | Wake | Check | Start | Finish | SignalDone | Leave

  /** thread_run and thread_waitfinished alternate; abort may come instead of either. */
  predicate Enabled(k: Cell, e: Event) {
    match e
    case RunWrite(_) => k.c.Free?
    case RunSignal => k.c.Writing?
    case WaitDone => k.c.Awaiting? && k.done
    case AbortSet => k.c.Free? || k.c.Awaiting?
    case AbortSignal => k.c.Aborting?
    case Wake => k.w.Sleeping? && k.control
    case Check => k.w.Checking?
    case Start => k.w.Calling?
    case Finish => k.w.Running?
    case SignalDone => k.w.Signalling?
    case Leave => k.w.Leaving?
  }

  function Step(k: Cell, e: Event): Cell
    requires Enabled(k, e)
  {
    match e
    case RunWrite(task) => k.(slot := task, c := Writing)
    case RunSignal => k.(control := true, c := Awaiting, submitted := k.submitted + [k.slot])
    case WaitDone => k.(done := false, c := Free)
    case AbortSet => k.(abort := true, c := Aborting)
    case AbortSignal => k.(control := true, c := Aborted)
    case Wake => k.(control := false, w := Checking)
    case Check => k.(w := if k.abort then Leaving else Calling)
    case Start =>
      k.(w := Running(k.slot), started := k.started + [k.slot],
         afterAbort := k.afterAbort + if k.abort then 1 else 0)
    case Finish => k.(w := Signalling, finished := k.finished + [k.w.task])
    case SignalDone => k.(w := Sleeping, done := true)
    case Leave => k.(w := Gone, done := true)
  }

  // ---- before abort ----

  predicate Busy(k: Cell) { k.w.Checking? || k.w.Calling? || k.w.Running? || k.w.Signalling? }

  predicate AtMostOne(a: bool, b: bool, c: bool) { !(a && b) && !(a && c) && !(b && c) }

  /** The task in hand is the last one submitted; all before it have run. */
  predicate Pending(k: Cell) {
    && k.submitted != [] && k.submitted[|k.submitted| - 1] == k.slot
    && var before := k.submitted[..|k.submitted| - 1];
      if k.w.Running? then k.w.task == k.slot && k.finished == before && k.started == k.submitted
      else if k.control || k.w.Checking? || k.w.Calling? then k.started == before && k.finished == before
      else k.started == k.submitted && k.finished == k.submitted
  }

  /** Exactly one of control set, worker busy, done set holds while the controller
      awaits, and none of them otherwise. */
  predicate Handshake(k: Cell) {
    && !k.abort && k.afterAbort == 0 && !k.w.Leaving? && !k.w.Gone?
    && AtMostOne(k.control, Busy(k), k.done)
    && (k.c.Awaiting? <==> k.control || Busy(k) || k.done)
    && if k.c.Awaiting? then Pending(k) else k.started == k.submitted && k.finished == k.submitted
  }

  // ---- after abort ----

  /** A worker past its check starts one more task; nobody starts a second one. */
  predicate Winding(k: Cell) {
    && k.abort
    && k.afterAbort + (if k.w.Calling? then 1 else 0) <= 1
    && (k.w.Gone? ==> k.done)
    && (k.c.Aborted? && (k.w.Sleeping? || k.w.Calling? || k.w.Running? || k.w.Signalling?) ==> k.control)
  }

  predicate Inv(k: Cell) {
    if k.c.Aborting? || k.c.Aborted? then Winding(k) else Handshake(k)
  }

  lemma StepKeeps(k: Cell, e: Event)
    requires Inv(k) && Enabled(k, e)
    ensures Inv(Step(k, e))
  {
    if e.RunSignal? {
      assert Step(k, e).submitted[..|k.submitted|] == k.submitted;
    }
    if e.Start? && !k.abort {
      assert k.submitted == k.submitted[..|k.submitted| - 1] + [k.slot];
    }
    if e.Finish? && !k.abort {
      assert k.submitted == k.submitted[..|k.submitted| - 1] + [k.slot];
    }
  }

  // ---- waits end ----

  /** The worker's own next step, or the end of the controller's wait. */
  function Next(k: Cell): Event {
    match k.w
    case Sleeping => if k.control then Wake else WaitDone
    case Checking => Check
    case Calling => Start
    case Running(_) => Finish
    case Signalling => SignalDone
    case Leaving => Leave
    case Gone => WaitDone
  }

  /** How many such steps lie ahead. */
  function Distance(k: Cell): nat {
    match k.w
    case Sleeping => if k.abort then 3 else if k.control then 6 else if k.done then 1 else 0
    case Checking => if k.abort then 2 else 5
    case Calling => if k.abort then 6 else 4
    case Running(_) => if k.abort then 5 else 3
    case Signalling => if k.abort then 4 else 2
    case Leaving => 1
    case Gone => 0
  }

  /** A thread_waitfinished always has a next step, its own or the worker's, and is
      one step nearer to its end after it; after abort the same holds of a
      worker on its way out. */
  lemma WaitsEnd(k: Cell)
    requires Inv(k)
    requires k.c.Awaiting? || (k.c.Aborted? && !k.w.Gone?)
    ensures Enabled(k, Next(k)) && Distance(Step(k, Next(k))) == Distance(k) - 1
    ensures Next(k).WaitDone? ==> !k.c.Aborted? && k.finished == k.submitted
  {
  }

  // ---- the pool ----

  datatype PoolEvent = At(n: int, e: Event)

  predicate Run(pool: seq<Cell>, es: seq<PoolEvent>)
    decreases |es|
  {
    es == [] || (
      && 0 <= es[0].n < |pool|
      && Enabled(pool[es[0].n], es[0].e)
      && Run(pool[es[0].n := Step(pool[es[0].n], es[0].e)], es[1..]))
  }

  function End(pool: seq<Cell>, es: seq<PoolEvent>): (r: seq<Cell>)
    requires Run(pool, es)
    ensures |r| == |pool|
    decreases |es|
  {
    if es == [] then pool else End(pool[es[0].n := Step(pool[es[0].n], es[0].e)], es[1..])
  }

  lemma {:induction false} RunKeeps(pool: seq<Cell>, es: seq<PoolEvent>)
    requires Run(pool, es) && forall i :: 0 <= i < |pool| ==> Inv(pool[i])
    ensures forall i :: 0 <= i < |pool| ==> Inv(End(pool, es)[i])
    decreases |es|
  {
    if es == [] {
    } else {
      StepKeeps(pool[es[0].n], es[0].e);
      RunKeeps(pool[es[0].n := Step(pool[es[0].n], es[0].e)], es[1..]);
    }
  }

  /** The tasks given to worker `n` by thread_run, in order. */
  function Tasks(es: seq<PoolEvent>, n: int): seq<Task> {
    if es == [] then []
    else (if es[0].n == n && es[0].e.RunWrite? then [es[0].e.task] else []) + Tasks(es[1..], n)
  }

  /** What has been given to the worker: what is logged, and the task in the slot while
      the control event is still to be set. */
  function Given(k: Cell): seq<Task> { k.submitted + if k.c.Writing? then [k.slot] else [] }

  lemma {:induction false} TasksAreGiven(pool: seq<Cell>, es: seq<PoolEvent>, n: int)
    requires Run(pool, es) && 0 <= n < |pool|
    ensures Given(End(pool, es)[n]) == Given(pool[n]) + Tasks(es, n)
    decreases |es|
  {
    if es == [] {
      assert Given(pool[n]) + [] == Given(pool[n]);
    } else {
      var pool' := pool[es[0].n := Step(pool[es[0].n], es[0].e)];
      TasksAreGiven(pool', es[1..], n);
      var first := if es[0].n == n && es[0].e.RunWrite? then [es[0].e.task] else [];
      assert Given(pool'[n]) == Given(pool[n]) + first;
      assert Given(pool[n]) + first + Tasks(es[1..], n) == Given(pool[n]) + (first + Tasks(es[1..], n));
    }
  }

  lemma SubmittedAreTasks(threads: nat, es: seq<PoolEvent>, n: int)
    requires Run(seq(threads, _ => NEW_CELL), es) && 0 <= n < threads
    ensures var k := End(seq(threads, _ => NEW_CELL), es)[n];
      && Tasks(es, n) == k.submitted + (if k.c.Writing? then [k.slot] else [])
      && k.submitted <= Tasks(es, n) && (!k.c.Writing? ==> k.submitted == Tasks(es, n))
  {
    var pool := seq(threads, _ => NEW_CELL);
    TasksAreGiven(pool, es, n);
    assert Given(pool[n]) == [] && [] + Tasks(es, n) == Tasks(es, n);
  }

  /** For any number of workers and any interleaving: at most one of control set,
      busy and done set; the tasks started and finished are those given to thread_run,
      each once and in order; a wait that can return finds all of them run to their
      ends; and after abort a worker starts at most one more task. */
  lemma EachTaskRunsOnce(threads: nat, es: seq<PoolEvent>, n: int)
    requires Run(seq(threads, _ => NEW_CELL), es) && 0 <= n < threads
    ensures var k := End(seq(threads, _ => NEW_CELL), es)[n];
      && k.afterAbort <= 1
      && (!k.abort ==>
            && AtMostOne(k.control, Busy(k), k.done)
            && (k.c.Free? || Enabled(k, WaitDone) ==> k.started == k.submitted && k.finished == k.submitted)
            && k.finished <= k.started <= k.submitted && |k.submitted| <= |k.finished| + 1
            && k.finished <= k.started <= Tasks(es, n)
            && (k.c.Free? || Enabled(k, WaitDone) ==> k.started == k.finished == Tasks(es, n)))
      && Tasks(es, n) == k.submitted + if k.c.Writing? then [k.slot] else []
  {
    RunKeeps(seq(threads, _ => NEW_CELL), es);
    var k := End(seq(threads, _ => NEW_CELL), es)[n];
    SubmittedAreTasks(threads, es, n);
    assert Inv(k);
  }
}
