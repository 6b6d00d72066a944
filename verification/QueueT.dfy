/** queueT: the unbounded queue over one auto-reset event. Whatever runs under
    the mutex is one step; the mutex is released between going to wait and
    waking, and again taken only after the wake-up. */
module QueueT {

  /** `event` is the state of the auto-reset event _cond_not_empty. */
  datatype QState<T> = QState(items: seq<T>, count: int, stop: bool, event: bool)

  datatype Answer<T> = Got(item: T) | NotReady | Stopped | MustWait

  function DoPut<T>(q: QState<T>, p: T): QState<T> {
    if q.stop then q else q.(items := q.items + [p], count := q.count + 1, event := true)
  }

  /** get up to its first wait. */
  function DoGet<T>(q: QState<T>, wait: bool): (QState<T>, Answer<T>)
    requires q.count == |q.items|
  {
    if q.stop then (q, Stopped)
    else if q.count != 0 then
      (q.(items := q.items[1..], count := q.count - 1, event := q.event && q.count != 1), Got(q.items[0]))
    else if !wait then (q, NotReady)
    else (q, MustWait)
  }

  /** get from the moment it holds the mutex again; no reset on this path. */
  function DoResume<T>(q: QState<T>): (QState<T>, Answer<T>)
    requires q.count == |q.items|
  {
    if q.stop then (q, Stopped)
    else if q.count == 0 then (q, MustWait)
    else (q.(items := q.items[1..], count := q.count - 1), Got(q.items[0]))
  }

  function DoQuit<T>(q: QState<T>): QState<T> {
    q.(stop := true, event := true)
  }

  class Queue<T> {
    var items: seq<T>
    var count: int
    var stop: bool
    var event: bool

    ghost predicate Valid()
      reads this
    {
      count == |items|
    }

    ghost function View(): QState<T>
      reads this
    {
      QState(items, count, stop, event)
    }

    constructor ()
      ensures Valid() && View() == QState([], 0, false, false)
    {
      items, count, stop, event := [], 0, false, false;
    }

    method Size() returns (n: int)
      requires Valid()
      ensures n == if stop then 0 else |items|
    {
      if stop {
        return 0;
      }
      return count;
    }

    method Put(p: T) returns (r: int)
      requires Valid()
      modifies this
      ensures Valid() && View() == DoPut(old(View()), p)
      ensures r == if old(stop) then -1 else 1
      ensures items == old(items) + (if old(stop) then [] else [p]) && stop == old(stop)
      ensures event <==> old(event) || !old(stop)
    {
      if stop {
        return -1;
      }
      items := items + [p];
      count := count + 1;
      event := true;
      return 1;
    }

    method Get(wait: bool) returns (a: Answer<T>)
      requires Valid()
      modifies this
      ensures Valid() && (View(), a) == DoGet(old(View()), wait)
      ensures stop == old(stop)
      ensures if stop then a == Stopped && items == old(items) && event == old(event)
        else if old(items) != []
        then a == Got(old(items)[0]) && items == old(items)[1..] && (event <==> old(event) && items != [])
        else a == (if wait then MustWait else NotReady) && items == [] && event == old(event)
    {
      if stop {
        return Stopped;
      }
      if count != 0 {
        a := Got(items[0]);
        items := items[1..];
        count := count - 1;
        if count == 0 {
          event := false;
        }
        return;
      }
      if !wait {
        return NotReady;
      }
      return MustWait;
    }

    method Resume() returns (a: Answer<T>)
      requires Valid()
      modifies this
      ensures Valid() && (View(), a) == DoResume(old(View()))
      ensures stop == old(stop) && event == old(event)
      ensures if stop then a == Stopped && items == old(items)
        else if old(items) != [] then a == Got(old(items)[0]) && items == old(items)[1..]
        else a == MustWait && items == []
    {
      if stop {
        return Stopped;
      }
      if count == 0 {
        return MustWait;
      }
      count := count - 1;
      a := Got(items[0]);
      items := items[1..];
    }

    method Quit()
      requires Valid()
      modifies this
      ensures Valid() && View() == DoQuit(old(View()))
      ensures stop && event && items == old(items)
    {
      stop := true;
      event := true;
    }
  }

  // ---- threads ----

  /** `Blocked`: between the unlock and the wake-up. `Woken`: the event let the
      thread through and it wants the mutex. */
  datatype Pc = Out | Blocked | Woken

  /** Any number of producers, and one program counter for each consumer. The two
      logs record all puts taken in and all items handed out. */
  datatype System<T> = System(q: QState<T>, pcs: seq<Pc>, putLog: seq<T>, gotLog: seq<T>)

  datatype Action<T> = Put(p: T) | Get(c: int, wait: bool) | Wake(c: int) | Resume(c: int) | Quit

  function Init<T>(n: nat): System<T> {
    System(QState([], 0, false, false), seq(n, _ => Out), [], [])
  }

  ghost predicate FifoInv<T>(s: System<T>) {
    s.q.count == |s.q.items| && s.putLog == s.gotLog + s.q.items
  }

  predicate Enabled<T>(s: System<T>, a: Action<T>) {
    match a
    case Put(_) => true
    case Get(c, _) => 0 <= c < |s.pcs| && s.pcs[c].Out?
    case Wake(c) => 0 <= c < |s.pcs| && s.pcs[c].Blocked? && s.q.event
    case Resume(c) => 0 <= c < |s.pcs| && s.pcs[c].Woken?
    case Quit => true
  }

  function Answered<T>(s: System<T>, c: int, qa: (QState<T>, Answer<T>)): System<T>
    requires 0 <= c < |s.pcs|
  {
    s.(q := qa.0,
       pcs := s.pcs[c := if qa.1.MustWait? then Blocked else Out],
       gotLog := s.gotLog + if qa.1.Got? then [qa.1.item] else [])
  }

  /** Passing the auto-reset event resets it. */
  function Step<T>(s: System<T>, a: Action<T>): System<T>
    requires s.q.count == |s.q.items| && Enabled(s, a)
  {
    match a
    case Put(p) => s.(q := DoPut(s.q, p), putLog := s.putLog + if s.q.stop then [] else [p])
    case Get(c, wait) => Answered(s, c, DoGet(s.q, wait))
    case Wake(c) => s.(q := s.q.(event := false), pcs := s.pcs[c := Woken])
    case Resume(c) => Answered(s, c, DoResume(s.q))
    case Quit => s.(q := DoQuit(s.q))
  }

  predicate Run<T>(s: System<T>, acts: seq<Action<T>>)
    requires s.q.count == |s.q.items|
    decreases |acts|
  {
    acts == [] || (Enabled(s, acts[0]) && Run(Step(s, acts[0]), acts[1..]))
  }

  function End<T>(s: System<T>, acts: seq<Action<T>>): (e: System<T>)
    requires s.q.count == |s.q.items| && Run(s, acts)
    ensures |e.pcs| == |s.pcs| && e.q.count == |e.q.items|
    decreases |acts|
  {
    if acts == [] then s else End(Step(s, acts[0]), acts[1..])
  }

  /** First in, first out and nothing lost, for any number of consumers. */
  lemma {:induction false} Fifo<T>(s: System<T>, acts: seq<Action<T>>)
    requires FifoInv(s) && Run(s, acts)
    ensures FifoInv(End(s, acts))
    decreases |acts|
  {
    if acts == [] {
    } else {
      Fifo(Step(s, acts[0]), acts[1..]);
    }
  }

  /** Once quit has been called nothing is put or taken any more. */
  lemma {:induction false} NothingAfterQuit<T>(s: System<T>, acts: seq<Action<T>>)
    requires s.q.count == |s.q.items| && s.q.stop && Run(s, acts)
    ensures var e := End(s, acts);
      e.q.stop && e.putLog == s.putLog && e.gotLog == s.gotLog && e.q.items == s.q.items
    decreases |acts|
  {
    if acts == [] {
    } else {
      NothingAfterQuit(Step(s, acts[0]), acts[1..]);
    }
  }

  /** What one get or resume does for its consumer: the oldest item put and not yet
      taken, or sleep, which a get that must not wait never does. */
  lemma GetOutcome<T>(s: System<T>, c: int, wait: bool)
    requires FifoInv(s) && 0 <= c < |s.pcs| && !s.q.stop
    ensures Enabled(s, Get(c, wait)) ==>
      var e := Step(s, Get(c, wait));
      if |s.gotLog| < |s.putLog| then e.pcs[c].Out? && e.gotLog == s.gotLog + [s.putLog[|s.gotLog|]]
      else e.gotLog == s.gotLog && e.pcs[c] == if wait then Blocked else Out
    ensures Enabled(s, Resume(c)) ==>
      var e := Step(s, Resume(c));
      if |s.gotLog| < |s.putLog| then e.pcs[c].Out? && e.gotLog == s.gotLog + [s.putLog[|s.gotLog|]]
      else e.gotLog == s.gotLog && e.pcs[c] == Blocked
  {
  }

  /** How many gets have been called that may not come back empty-handed before quit. */
  function Asked<T>(s: System<T>, acts: seq<Action<T>>): nat
    requires s.q.count == |s.q.items| && Run(s, acts)
    decreases |acts|
  {
    if acts == [] then 0
    else (if acts[0].Get? && (acts[0].wait || s.q.items != []) then 1 else 0) + Asked(Step(s, acts[0]), acts[1..])
  }

  /** How many consumers are inside a get. */
  function Inside(pcs: seq<Pc>): nat {
    if pcs == [] then 0 else (if pcs[0].Out? then 0 else 1) + Inside(pcs[1..])
  }

  lemma {:induction false} InsideUpdate(pcs: seq<Pc>, c: int, pc: Pc)
    requires 0 <= c < |pcs|
    ensures Inside(pcs[c := pc]) == Inside(pcs) - (if pcs[c].Out? then 0 else 1) + if pc.Out? then 0 else 1
    decreases |pcs|
  {
    if c == 0 {
      assert pcs[0 := pc][1..] == pcs[1..];
    } else {
      InsideUpdate(pcs[1..], c - 1, pc);
      assert pcs[c := pc][1..] == pcs[1..][c - 1 := pc];
    }
  }

  /** Before quit every get that has been called has its item or still sleeps: none
      gives up. */
  lemma {:induction false} GetsAreServed<T>(s: System<T>, acts: seq<Action<T>>)
    requires s.q.count == |s.q.items| && Run(s, acts) && !End(s, acts).q.stop
    ensures |End(s, acts).gotLog| + Inside(End(s, acts).pcs) == |s.gotLog| + Inside(s.pcs) + Asked(s, acts)
    decreases |acts|
  {
    if acts == [] {
    } else {
      var a, s' := acts[0], Step(s, acts[0]);
      if s.q.stop {
        NothingAfterQuit(s, acts);
      }
      if a.Get? || a.Wake? || a.Resume? {
        InsideUpdate(s.pcs, a.c, s'.pcs[a.c]);
        assert s'.pcs == s.pcs[a.c := s'.pcs[a.c]];
      }
      GetsAreServed(s', acts[1..]);
    }
  }

  predicate Ready<T>(s: System<T>) { s.q.count > 0 || s.q.stop }

  /** A consumer sleeps although there is something for it, and the event that
      should wake it is not set. */
  predicate LostWakeup<T>(s: System<T>) {
    exists c :: 0 <= c < |s.pcs| && s.pcs[c].Blocked? && Ready(s) && !s.q.event
  }

  /** The inductive invariant for at most one consumer. */
  predicate WakeInv<T>(s: System<T>) {
    && s.q.count == |s.q.items| && |s.pcs| <= 1
    && (s.q.event ==> Ready(s))
    && (|s.pcs| == 1 && s.pcs[0].Blocked? && Ready(s) ==> s.q.event)
    && (|s.pcs| == 1 && s.pcs[0].Woken? ==> Ready(s) && (s.q.event && !s.q.stop ==> s.q.count >= 2))
  }

  lemma {:induction false} WakeInvHolds<T>(s: System<T>, acts: seq<Action<T>>)
    requires WakeInv(s) && Run(s, acts)
    ensures WakeInv(End(s, acts))
    decreases |acts|
  {
    if acts == [] {
    } else {
      WakeInvHolds(Step(s, acts[0]), acts[1..]);
    }
  }

  /** The run that loses a wakeup: two consumers sleep, two puts set the event
      once, and one consumer takes it. */
  function LosingRun<T>(x: T): seq<Action<T>> {
    [Get(0, true), Get(1, true), Put(x), Put(x), Wake(0), Resume(0)]
  }

  lemma TwoConsumersLose<T>(n: nat, x: T)
    requires n >= 2
    ensures Run(Init(n), LosingRun(x))
    ensures var s := End(Init(n), LosingRun(x));
      LostWakeup(s) && forall c :: 0 <= c < n ==> !s.pcs[c].Woken?
  {
    var s0 := Init<T>(n);
    var acts := LosingRun(x);
    var s1 := Step(s0, acts[0]);
    var s2 := Step(s1, acts[1]);
    var s3 := Step(s2, acts[2]);
    var s4 := Step(s3, acts[3]);
    var s5 := Step(s4, acts[4]);
    var s6 := Step(s5, acts[5]);
    Unroll(s5, acts[5..], s6);
    Unroll(s4, acts[4..], s6);
    Unroll(s3, acts[3..], s6);
    Unroll(s2, acts[2..], s6);
    Unroll(s1, acts[1..], s6);
    Unroll(s0, acts, s6);
    assert s6.pcs[1].Blocked? && s6.q.count == 1;
  }

  lemma Unroll<T>(s: System<T>, acts: seq<Action<T>>, end: System<T>)
    requires s.q.count == |s.q.items| && acts != [] && Enabled(s, acts[0])
    requires Run(Step(s, acts[0]), acts[1..]) && End(Step(s, acts[0]), acts[1..]) == end
    ensures Run(s, acts) && End(s, acts) == end
  {
  }

  ghost predicate NeverLoses<T(!new)>(n: nat) {
    forall acts: seq<Action<T>> :: Run(Init<T>(n), acts) ==> !LostWakeup(End(Init<T>(n), acts))
  }

  /** queueT loses no wakeup exactly when it has at most one consumer. */
  lemma NoLostWakeupIffOneConsumer<T(!new)>(n: nat, x: T)
    ensures NeverLoses<T>(n) <==> n <= 1
  {
    if n <= 1 {
      forall acts: seq<Action<T>> | Run(Init<T>(n), acts)
        ensures !LostWakeup(End(Init<T>(n), acts))
      {
        WakeInvHolds(Init<T>(n), acts);
      }
    } else {
      TwoConsumersLose(n, x);
    }
  }

  /** With one consumer a wait ends for good: once the condition holds the sleeper
      can wake, and once awake it returns without going to sleep again. */
  lemma OneWaitPerGet<T>(acts: seq<Action<T>>)
    requires Run(Init<T>(1), acts)
    ensures var s := End(Init<T>(1), acts);
      && (s.pcs[0].Blocked? && Ready(s) ==> Enabled(s, Wake(0)))
      && (s.pcs[0].Woken? ==> Step(s, Resume(0)).pcs[0].Out?)
      && (s.q.event ==> Ready(s))
  {
    WakeInvHolds(Init<T>(1), acts);
  }

  /** A consumer that has seen a non-zero size gets the oldest item without
      waiting, whatever the producers do in between. */
  lemma {:induction false} PeekThenGet<T>(s: System<T>, acts: seq<Action<T>>)
    requires s.q.count == |s.q.items| > 0 && !s.q.stop
    requires Run(s, acts) && forall i :: 0 <= i < |acts| ==> acts[i].Put?
    ensures DoGet(End(s, acts).q, true).1 == Got(s.q.items[0])
    decreases |acts|
  {
    if acts == [] {
    } else {
      PeekThenGet(Step(s, acts[0]), acts[1..]);
    }
  }
}
