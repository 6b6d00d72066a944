/** queue_boundedT and ringbufT: bounded queues over two manual-reset events.
    What runs under the mutex is one step, as in QueueT. */
module BoundedQueues {
  import opened IoBuffer

  /** `Deque` is queue_boundedT, `Ring` is ringbufT. They differ in when they look
      at the stop flag and in whether they ever reset an event. */
  datatype Kind = Deque | Ring

  datatype BState<T> = BState(kind: Kind, items: seq<T>, bound: int, stop: bool, notFull: bool, notEmpty: bool) {
    predicate Full() { |items| == bound }
  }

  /** `Done` carries the return value of put, `Got` that of get. */
  datatype Answer<T> = Done(r: int) | Got(item: T, r: int) | NotReady | Stopped | MustWait

  function TryPut<T>(q: BState<T>, p: T, wait: bool): (BState<T>, Answer<T>) {
    if q.kind.Ring? && q.stop then (q, Stopped)
    else if q.Full() then (q, if q.kind.Ring? && !wait then NotReady else MustWait)
    else if q.stop then (q, Stopped)
    else
      var q' := q.(items := q.items + [p], notEmpty := true);
      (q'.(notFull := q.notFull && !(q.kind.Deque? && q'.Full())), Done(if q.kind.Deque? then |q'.items| else 1))
  }

  function TryGet<T>(q: BState<T>, wait: bool): (BState<T>, Answer<T>) {
    if q.kind.Ring? && q.stop then (q, Stopped)
    else if q.items == [] then (q, if q.kind.Ring? && !wait then NotReady else MustWait)
    else if q.stop then (q, Stopped)
    else
      var q' := q.(items := q.items[1..], notFull := true);
      (q'.(notEmpty := q.notEmpty && !(q.kind.Deque? && q'.items == [])),
       Got(q.items[0], if q.kind.Deque? then |q'.items| else 1))
  }

  /** After a wake-up the stop flag is looked at before the loop test. */
  function ResumePut<T>(q: BState<T>, p: T): (BState<T>, Answer<T>) {
    if q.stop then (q, Stopped) else TryPut(q, p, true)
  }

  function ResumeGet<T>(q: BState<T>): (BState<T>, Answer<T>) {
    if q.stop then (q, Stopped) else TryGet(q, true)
  }

  function DoPeek<T>(q: BState<T>, remove: bool): (BState<T>, Answer<T>) {
    if q.items == [] then (q, Done(0))
    else (if remove then q.(items := q.items[1..], notFull := true) else q, Got(q.items[0], |q.items|))
  }

  function DoStop<T>(q: BState<T>): BState<T> {
    q.(stop := true, notEmpty := true, notFull := true)
  }

  /** queue_boundedT. */
  class BoundedQueue<T> {
    const bound: int
    var count: int
    var stop: bool
    var items: seq<T>
    var notFull: bool
    var notEmpty: bool

    ghost predicate Valid()
      reads this
    {
      count == |items| <= bound && 1 <= bound
    }

    ghost function View(): BState<T>
      reads this
    {
      BState(Deque, items, bound, stop, notFull, notEmpty)
    }

    constructor (n: int)
      requires 1 <= n
      ensures Valid() && View() == BState(Deque, [], n, false, false, false)
    {
      bound, count, stop, items, notFull, notEmpty := n, 0, false, [], false, false;
    }

    /** put from its loop test on; `woken` after a wake-up. */
    method Put(p: T, woken: bool) returns (a: Answer<T>)
      requires Valid()
      modifies this
      ensures Valid() && (View(), a) == if woken then ResumePut(old(View()), p) else TryPut(old(View()), p, true)
      ensures stop == old(stop)
      ensures if stop && (woken || |old(items)| < bound) then a == Stopped
        else if |old(items)| == bound then a == MustWait
        else a == Done(|items|)
      ensures items == old(items) + if a.Done? then [p] else []
      ensures notEmpty <==> old(notEmpty) || a.Done?
      ensures notFull <==> old(notFull) && !(a.Done? && |items| == bound)
    {
      if woken && stop {
        return Stopped;
      }
      if count == bound {
        return MustWait;
      }
      if stop {
        return Stopped;
      }
      items := items + [p];
      count := count + 1;
      a := Done(count);
      if count == bound {
        notFull := false;
      }
      notEmpty := true;
    }

    method Get(woken: bool) returns (a: Answer<T>)
      requires Valid()
      modifies this
      ensures Valid() && (View(), a) == if woken then ResumeGet(old(View())) else TryGet(old(View()), true)
      ensures stop == old(stop)
      ensures if stop && (woken || old(items) != []) then a == Stopped
        else if old(items) == [] then a == MustWait
        else a == Got(old(items)[0], |items|)
      ensures old(items) == (if a.Got? then [a.item] else []) + items
      ensures notFull <==> old(notFull) || a.Got?
      ensures notEmpty <==> old(notEmpty) && !(a.Got? && items == [])
    {
      if woken && stop {
        return Stopped;
      }
      if count == 0 {
        return MustWait;
      }
      if stop {
        return Stopped;
      }
      count := count - 1;
      if count == 0 {
        notEmpty := false;
      }
      a := Got(items[0], count);
      items := items[1..];
      notFull := true;
    }

    method Peek(remove: bool) returns (a: Answer<T>)
      requires Valid()
      modifies this
      ensures Valid() && (View(), a) == DoPeek(old(View()), remove)
      ensures stop == old(stop) && notEmpty == old(notEmpty)
      ensures a == if old(items) == [] then Done(0) else Got(old(items)[0], |old(items)|)
      ensures items == if remove && old(items) != [] then old(items)[1..] else old(items)
      ensures notFull <==> old(notFull) || (remove && old(items) != [])
    {
      if count <= 0 {
        return Done(count);
      }
      a := Got(items[0], count);
      if remove {
        items := items[1..];
        count := count - 1;
        notFull := true;
      }
    }

    method Quit()
      requires Valid()
      modifies this
      ensures Valid() && View() == DoStop(old(View()))
      ensures stop && notEmpty && notFull && items == old(items)
    {
      stop := true;
      notEmpty := true;
      notFull := true;
    }
  }

  /** ringbufT after init: one array slot more than the capacity. `first` is where
      the next item goes, `last` is the slot before the oldest one. */
  class RingBuf<T(0)> {
    var buf: array<T>
    var first: int
    var last: int
    var n: int
    var stop: bool
    var notFull: bool
    var notEmpty: bool

    ghost predicate Valid()
      reads this
    {
      2 <= n == buf.Length && 0 <= first < n && 0 <= last < n
    }

    ghost function Oldest(): int
      reads this
    {
      Wrap(last + 1, n)
    }

    ghost function Contents(): seq<T>
      requires Valid()
      reads this, buf
    {
      Window(buf[..], Oldest(), if first >= Oldest() then first - Oldest() else first - Oldest() + n)
    }

    ghost function View(): BState<T>
      requires Valid()
      reads this, buf
    {
      BState(Ring, Contents(), n - 1, stop, notFull, notEmpty)
    }

    constructor (capacity: int)
      requires 1 <= capacity
      ensures Valid() && fresh(buf) && View() == BState(Ring, [], capacity, false, false, false)
    {
      n := capacity + 1;
      first := 0;
      last := capacity;
      buf := new T[capacity + 1];
      stop, notEmpty, notFull := false, false, false;
    }

    method Size() returns (size: int)
      requires Valid()
      ensures size == |Contents()| <= n - 1
    {
      ModIsWrap(first - last - 1 + n, n);
      size := (first - last - 1 + n) % n;
    }

    method IsFull() returns (full: bool)
      requires Valid()
      ensures full <==> |Contents()| == n - 1
    {
      full := first == last;
    }

    method PutSlot(t: T)
      requires Valid() && |Contents()| < n - 1
      modifies `first, buf
      ensures Valid() && Contents() == old(Contents()) + [t]
    {
      buf[first] := t;
      ModIsWrap(first + 1, n);
      first := (first + 1) % n;
      assert forall i :: 0 <= i < |Contents()| ==> Contents()[i] == (old(Contents()) + [t])[i];
    }

    method GetSlot() returns (t: T)
      requires Valid() && 0 < |Contents()|
      modifies `last
      ensures Valid() && [t] + Contents() == old(Contents())
    {
      ModIsWrap(last + 1, n);
      last := (last + 1) % n;
      t := buf[last];
      WindowTail(buf[..], last, |old(Contents())|);
    }

    method Put(t: T, wait: bool, woken: bool) returns (a: Answer<T>)
      requires Valid()
      modifies this, buf
      ensures Valid() && buf == old(buf)
      ensures (View(), a) == if woken then ResumePut(old(View()), t) else TryPut(old(View()), t, wait || woken)
      ensures n == old(n) && stop == old(stop) && notFull == old(notFull)
      ensures if stop then a == Stopped
        else if |old(Contents())| < n - 1 then a == Done(1)
        else a == if wait || woken then MustWait else NotReady
      ensures Contents() == old(Contents()) + if a.Done? then [t] else []
      ensures notEmpty <==> old(notEmpty) || a.Done?
    {
      if stop {
        return Stopped;
      }
      var full := IsFull();
      if full {
        return if !(wait || woken) then NotReady else MustWait;
      }
      PutSlot(t);
      notEmpty := true;
      return Done(1);
    }

    method Get(wait: bool, woken: bool) returns (a: Answer<T>)
      requires Valid()
      modifies this
      ensures Valid() && buf == old(buf)
      ensures (View(), a) == if woken then ResumeGet(old(View())) else TryGet(old(View()), wait || woken)
      ensures n == old(n) && stop == old(stop) && notEmpty == old(notEmpty)
      ensures if stop then a == Stopped
        else if old(Contents()) != [] then a == Got(old(Contents())[0], 1)
        else a == if wait || woken then MustWait else NotReady
      ensures old(Contents()) == (if a.Got? then [a.item] else []) + Contents()
      ensures notFull <==> old(notFull) || a.Got?
    {
      if stop {
        return Stopped;
      }
      var size := Size();
      if size == 0 {
        return if !(wait || woken) then NotReady else MustWait;
      }
      var t := GetSlot();
      assert old(Contents())[0] == t && old(Contents())[1..] == Contents();
      notFull := true;
      return Got(t, 1);
    }

    method Stop()
      requires Valid()
      modifies this
      ensures Valid() && View() == DoStop(old(View()))
      ensures stop && notEmpty && notFull && Contents() == old(Contents()) && n == old(n)
    {
      stop := true;
      notEmpty := true;
      notFull := true;
    }
  }

  // ---- threads ----

  /** Where a thread is with respect to its waits; a producer keeps its item. */
  datatype Pc<T> = Out | PutBlocked(p: T) | PutWoken(p: T) | GetBlocked | GetWoken

  datatype System<T> = System(q: BState<T>, pcs: seq<Pc<T>>, putLog: seq<T>, gotLog: seq<T>)

  datatype Action<T> =
    | Put(t: int, p: T, wait: bool) | PutWake(t: int) | PutResume(t: int)
    | Get(t: int, wait: bool) | GetWake(t: int) | GetResume(t: int)
    | Peek(t: int, remove: bool) | Stop(t: int)

  /** A manual-reset event lets everybody through while it is set. */
  predicate Enabled<T>(s: System<T>, a: Action<T>) {
    && 0 <= a.t < |s.pcs|
    && match a
       case PutWake(t) => s.pcs[t].PutBlocked? && s.q.notFull
       case PutResume(t) => s.pcs[t].PutWoken?
       case GetWake(t) => s.pcs[t].GetBlocked? && s.q.notEmpty
       case GetResume(t) => s.pcs[t].GetWoken?
       case Peek(t, _) => s.pcs[t].Out? && s.q.kind.Deque?
       case _ => s.pcs[a.t].Out?
  }

  function AnsweredPut<T>(s: System<T>, t: int, p: T, qa: (BState<T>, Answer<T>)): System<T>
    requires 0 <= t < |s.pcs|
  {
    s.(q := qa.0,
       pcs := s.pcs[t := if qa.1.MustWait? then PutBlocked(p) else Out],
       putLog := s.putLog + if qa.1.Done? then [p] else [])
  }

  function AnsweredGet<T>(s: System<T>, t: int, qa: (BState<T>, Answer<T>), taken: bool): System<T>
    requires 0 <= t < |s.pcs|
  {
    s.(q := qa.0,
       pcs := s.pcs[t := if qa.1.MustWait? then GetBlocked else Out],
       gotLog := s.gotLog + if qa.1.Got? && taken then [qa.1.item] else [])
  }

  function Step<T>(s: System<T>, a: Action<T>): System<T>
    requires Enabled(s, a)
  {
    match a
    case Put(t, p, wait) => AnsweredPut(s, t, p, TryPut(s.q, p, wait))
    case PutWake(t) => s.(pcs := s.pcs[t := PutWoken(s.pcs[t].p)])
    case PutResume(t) => AnsweredPut(s, t, s.pcs[t].p, ResumePut(s.q, s.pcs[t].p))
    case Get(t, wait) => AnsweredGet(s, t, TryGet(s.q, wait), true)
    case GetWake(t) => s.(pcs := s.pcs[t := GetWoken])
    case GetResume(t) => AnsweredGet(s, t, ResumeGet(s.q), true)
    case Peek(t, remove) => AnsweredGet(s, t, DoPeek(s.q, remove), remove)
    case Stop(t) => s.(q := DoStop(s.q))
  }

  predicate Run<T>(s: System<T>, acts: seq<Action<T>>)
    decreases |acts|
  {
    acts == [] || (Enabled(s, acts[0]) && Run(Step(s, acts[0]), acts[1..]))
  }

  function End<T>(s: System<T>, acts: seq<Action<T>>): System<T>
    requires Run(s, acts)
    decreases |acts|
  {
    if acts == [] then s else End(Step(s, acts[0]), acts[1..])
  }

  function Init<T>(kind: Kind, bound: nat, threads: nat): System<T> {
    System(BState(kind, [], bound, false, false, false), seq(threads, _ => Out), [], [])
  }

  /** Capacity, order, and the two wake-up promises. */
  ghost predicate Inv<T>(s: System<T>) {
    && 1 <= s.q.bound && |s.q.items| <= s.q.bound
    && s.putLog == s.gotLog + s.q.items
    && (s.q.stop ==> s.q.notFull && s.q.notEmpty)
    && (forall t :: 0 <= t < |s.pcs| && s.pcs[t].PutBlocked? && !s.q.Full() ==> s.q.notFull)
    && (forall t :: 0 <= t < |s.pcs| && s.pcs[t].GetBlocked? && s.q.items != [] ==> s.q.notEmpty)
  }

  lemma PutKeeps<T>(s: System<T>, t: int, p: T, qa: (BState<T>, Answer<T>), wait: bool)
    requires Inv(s) && 0 <= t < |s.pcs|
    requires qa == TryPut(s.q, p, wait) || qa == ResumePut(s.q, p)
    ensures Inv(AnsweredPut(s, t, p, qa))
  {
  }

  lemma GetKeeps<T>(s: System<T>, t: int, qa: (BState<T>, Answer<T>), wait: bool)
    requires Inv(s) && 0 <= t < |s.pcs|
    requires qa == TryGet(s.q, wait) || qa == ResumeGet(s.q)
    ensures Inv(AnsweredGet(s, t, qa, true))
  {
    if qa.1.Got? {
      assert s.q.items == [s.q.items[0]] + s.q.items[1..];
    }
  }

  lemma PeekKeeps<T>(s: System<T>, t: int, remove: bool)
    requires Inv(s) && 0 <= t < |s.pcs|
    ensures Inv(AnsweredGet(s, t, DoPeek(s.q, remove), remove))
  {
    if s.q.items != [] {
      assert s.q.items == [s.q.items[0]] + s.q.items[1..];
    }
  }

  lemma StepKeeps<T>(s: System<T>, a: Action<T>)
    requires Inv(s) && Enabled(s, a)
    ensures Inv(Step(s, a))
    ensures |Step(s, a).pcs| == |s.pcs| && Step(s, a).q.bound == s.q.bound
  {
    match a
    case Put(t, p, wait) => PutKeeps(s, t, p, TryPut(s.q, p, wait), wait);
    case PutResume(t) => PutKeeps(s, t, s.pcs[t].p, ResumePut(s.q, s.pcs[t].p), true);
    case Get(t, wait) => GetKeeps(s, t, TryGet(s.q, wait), wait);
    case GetResume(t) => GetKeeps(s, t, ResumeGet(s.q), true);
    case Peek(t, remove) => PeekKeeps(s, t, remove);
    case PutWake(t) =>
    case GetWake(t) =>
    case Stop(t) =>
  }

  lemma {:induction false} RunKeeps<T>(s: System<T>, acts: seq<Action<T>>)
    requires Inv(s) && Run(s, acts)
    ensures Inv(End(s, acts))
    ensures |End(s, acts).pcs| == |s.pcs| && End(s, acts).q.bound == s.q.bound
    decreases |acts|
  {
    if acts == [] {
    } else {
      StepKeeps(s, acts[0]);
      RunKeeps(Step(s, acts[0]), acts[1..]);
    }
  }

  /** For both queues, any bound of at least 1 and any threads: items come out in
      the order they went in and never exceed the bound; a sleeper whose condition
      holds, or that stop has freed, finds its event set; and a sleeping producer
      and a sleeping consumer are never both left without an event. */
  lemma NoLostWakeup<T>(kind: Kind, bound: nat, threads: nat, acts: seq<Action<T>>, t: int, u: int)
    requires 1 <= bound && Run(Init<T>(kind, bound, threads), acts)
    requires 0 <= t < threads && 0 <= u < threads
    ensures var s := End(Init<T>(kind, bound, threads), acts);
      && |s.pcs| == threads
      && s.putLog == s.gotLog + s.q.items && |s.q.items| <= bound
      && (s.pcs[t].PutBlocked? && (|s.q.items| < bound || s.q.stop) ==> Enabled(s, PutWake(t)))
      && (s.pcs[u].GetBlocked? && (|s.q.items| > 0 || s.q.stop) ==> Enabled(s, GetWake(u)))
      && (s.pcs[t].PutBlocked? && s.pcs[u].GetBlocked? ==> Enabled(s, PutWake(t)) || Enabled(s, GetWake(u)))
  {
    RunKeeps(Init<T>(kind, bound, threads), acts);
  }

  // ---- nothing is lost ----

  /** What a put does for its thread before stop: it appends, and returns the count
      (queue_boundedT) or 1 (ringbufT); on a full queue it sleeps with its item, and
      only a put to ringbufT that must not wait comes back without having put it. */
  lemma PutOutcome<T>(s: System<T>, t: int, p: T, wait: bool)
    requires Inv(s) && !s.q.stop && Enabled(s, Put(t, p, wait))
    ensures var e, r := Step(s, Put(t, p, wait)), TryPut(s.q, p, wait).1;
      if |s.q.items| < s.q.bound then
        && e.pcs == s.pcs && e.putLog == s.putLog + [p] && e.q.items == s.q.items + [p]
        && r == Done(if s.q.kind.Deque? then |s.putLog| + 1 - |s.gotLog| else 1)
      else
        && e.putLog == s.putLog && e.q == s.q
        && e.pcs == s.pcs[t := if wait || s.q.kind.Deque? then PutBlocked(p) else Out]
        && (r == NotReady <==> !wait && s.q.kind.Ring?)
  {
    assert s.pcs[t := Out] == s.pcs;
  }

  /** What a get does for its thread before stop: the oldest item put and not taken,
      with the count left (queue_boundedT) or 1 (ringbufT), or sleep. */
  lemma GetOutcome<T>(s: System<T>, t: int, wait: bool)
    requires Inv(s) && !s.q.stop && Enabled(s, Get(t, wait))
    ensures var e, r := Step(s, Get(t, wait)), TryGet(s.q, wait).1;
      if |s.gotLog| < |s.putLog| then
        && e.pcs == s.pcs && e.gotLog == s.gotLog + [s.putLog[|s.gotLog|]]
        && r == Got(s.putLog[|s.gotLog|], if s.q.kind.Deque? then |s.putLog| - |s.gotLog| - 1 else 1)
      else
        && e.gotLog == s.gotLog && e.q == s.q
        && e.pcs == s.pcs[t := if wait || s.q.kind.Deque? then GetBlocked else Out]
        && (r == NotReady <==> !wait && s.q.kind.Ring?)
  {
    assert s.pcs[t := Out] == s.pcs;
  }

  /** A peek shows the oldest item put and not taken, and how many there are; only a
      removing one takes it. */
  lemma PeekOutcome<T>(s: System<T>, t: int, remove: bool)
    requires Inv(s) && Enabled(s, Peek(t, remove))
    ensures var e, r := Step(s, Peek(t, remove)), DoPeek(s.q, remove).1;
      if |s.gotLog| < |s.putLog| then
        && r == Got(s.putLog[|s.gotLog|], |s.putLog| - |s.gotLog|)
        && e.gotLog == s.gotLog + if remove then [s.putLog[|s.gotLog|]] else []
      else r == Done(0) && e.gotLog == s.gotLog && e.q == s.q
  {
  }

  /** How often `x` has been given to a put that may not give up. */
  function Offered<T(==)>(s: System<T>, acts: seq<Action<T>>, x: T): nat
    requires Run(s, acts)
    decreases |acts|
  {
    if acts == [] then 0 else OfferedBy(s, acts[0], x) + Offered(Step(s, acts[0]), acts[1..], x)
  }

  function OfferedBy<T(==)>(s: System<T>, a: Action<T>, x: T): nat {
    if a.Put? && a.p == x && (a.wait || s.q.kind.Deque? || |s.q.items| < s.q.bound) then 1 else 0
  }

  function HeldBy<T(==)>(pc: Pc<T>, x: T): nat {
    if (pc.PutBlocked? || pc.PutWoken?) && pc.p == x then 1 else 0
  }

  /** How many producers sleep, or have just been woken, with item `x`. */
  function Held<T(==)>(pcs: seq<Pc<T>>, x: T): nat {
    if pcs == [] then 0 else HeldBy(pcs[0], x) + Held(pcs[1..], x)
  }

  lemma {:induction false} HeldUpdate<T>(pcs: seq<Pc<T>>, t: int, pc: Pc<T>, x: T)
    requires 0 <= t < |pcs|
    ensures Held(pcs[t := pc], x) == Held(pcs, x) - HeldBy(pcs[t], x) + HeldBy(pc, x)
    decreases |pcs|
  {
    if t == 0 {
      assert pcs[0 := pc][1..] == pcs[1..];
    } else {
      HeldUpdate(pcs[1..], t - 1, pc, x);
      assert pcs[t := pc][1..] == pcs[1..][t - 1 := pc];
    }
  }

  /** What one step puts, leaves with its thread, and is offered. */
  lemma StepLosesNothing<T>(s: System<T>, a: Action<T>, x: T)
    requires Inv(s) && Enabled(s, a) && !Step(s, a).q.stop
    ensures var s' := Step(s, a);
      multiset(s'.putLog)[x] + Held(s'.pcs, x) == multiset(s.putLog)[x] + Held(s.pcs, x) + OfferedBy(s, a, x)
  {
    var s' := Step(s, a);
    HeldUpdate(s.pcs, a.t, s'.pcs[a.t], x);
    assert s'.pcs == s.pcs[a.t := s'.pcs[a.t]];
  }

  /** Before stop no put loses its item: each has been put, or is with a sleeping
      producer, as often as it has been offered. */
  lemma {:induction false} PutsLoseNothing<T>(s: System<T>, acts: seq<Action<T>>, x: T)
    requires Inv(s) && Run(s, acts) && !End(s, acts).q.stop
    ensures var e := End(s, acts);
      multiset(e.putLog)[x] + Held(e.pcs, x) == multiset(s.putLog)[x] + Held(s.pcs, x) + Offered(s, acts, x)
    decreases |acts|
  {
    if acts == [] {
    } else {
      var s' := Step(s, acts[0]);
      StepKeeps(s, acts[0]);
      if s'.q.stop {
        StopStays(s', acts[1..]);
      }
      StepLosesNothing(s, acts[0], x);
      PutsLoseNothing(s', acts[1..], x);
    }
  }

  lemma {:induction false} StopStays<T>(s: System<T>, acts: seq<Action<T>>)
    requires s.q.stop && Run(s, acts)
    ensures End(s, acts).q.stop
    decreases |acts|
  {
    if acts == [] {
    } else {
      StopStays(Step(s, acts[0]), acts[1..]);
    }
  }

  /** From the start of either queue. */
  lemma NoPutIsLost<T>(kind: Kind, bound: nat, threads: nat, acts: seq<Action<T>>, x: T)
    requires 1 <= bound && Run(Init<T>(kind, bound, threads), acts)
    requires !End(Init<T>(kind, bound, threads), acts).q.stop
    ensures var s, e := Init<T>(kind, bound, threads), End(Init<T>(kind, bound, threads), acts);
      Offered(s, acts, x) == multiset(e.putLog)[x] + Held(e.pcs, x)
  {
    PutsLoseNothing(Init<T>(kind, bound, threads), acts, x);
    NobodyHolds(threads, x);
  }

  lemma {:induction false} NobodyHolds<T>(threads: nat, x: T)
    ensures Held(seq(threads, _ => Pc<T>.Out), x) == 0
  {
    if threads == 0 {
    } else {
      NobodyHolds(threads - 1, x);
      assert seq(threads, _ => Pc<T>.Out)[1..] == seq(threads - 1, _ => Pc<T>.Out);
    }
  }

  /** How many gets have been called that may not come back empty-handed. */
  function Asked<T>(s: System<T>, acts: seq<Action<T>>): nat
    requires Run(s, acts)
    decreases |acts|
  {
    if acts == [] then 0
    else (if Asks(s, acts[0]) then 1 else 0) + Asked(Step(s, acts[0]), acts[1..])
  }

  /** A get that must have an item sooner or later, or a removing peek that finds one. */
  predicate Asks<T>(s: System<T>, a: Action<T>) {
    || (a.Get? && (a.wait || s.q.kind.Deque? || s.q.items != []))
    || (a.Peek? && a.remove && s.q.items != [])
  }

  /** How many consumers are inside a get. */
  function Sleepers<T>(pcs: seq<Pc<T>>): nat {
    if pcs == [] then 0 else (if pcs[0].GetBlocked? || pcs[0].GetWoken? then 1 else 0) + Sleepers(pcs[1..])
  }

  lemma {:induction false} SleepersUpdate<T>(pcs: seq<Pc<T>>, t: int, pc: Pc<T>)
    requires 0 <= t < |pcs|
    ensures Sleepers(pcs[t := pc]) == Sleepers(pcs)
      - (if pcs[t].GetBlocked? || pcs[t].GetWoken? then 1 else 0) + if pc.GetBlocked? || pc.GetWoken? then 1 else 0
    decreases |pcs|
  {
    if t == 0 {
      assert pcs[0 := pc][1..] == pcs[1..];
    } else {
      SleepersUpdate(pcs[1..], t - 1, pc);
      assert pcs[t := pc][1..] == pcs[1..][t - 1 := pc];
    }
  }

  /** Before stop every get that has been called has its item or still sleeps. */
  lemma {:induction false} GetsAreServed<T>(s: System<T>, acts: seq<Action<T>>)
    requires Inv(s) && Run(s, acts) && !End(s, acts).q.stop
    ensures var e := End(s, acts);
      |e.gotLog| + Sleepers(e.pcs) == |s.gotLog| + Sleepers(s.pcs) + Asked(s, acts)
    decreases |acts|
  {
    if acts == [] {
    } else {
      var a, s' := acts[0], Step(s, acts[0]);
      StepKeeps(s, a);
      if s'.q.stop {
        StopStays(s', acts[1..]);
      }
      SleepersUpdate(s.pcs, a.t, s'.pcs[a.t]);
      assert s'.pcs == s.pcs[a.t := s'.pcs[a.t]];
      GetsAreServed(s', acts[1..]);
    }
  }

  predicate NoRemovingPeek<T>(acts: seq<Action<T>>) {
    forall i :: 0 <= i < |acts| && acts[i].Peek? ==> !acts[i].remove
  }

  /** Once stop has been called both events stay set, nothing goes in through put or
      out through get, and every sleeping call can come back with -1. Only a removing
      peek still takes items. */
  lemma {:induction false} StopFreesEverybody<T>(s: System<T>, acts: seq<Action<T>>, t: int)
    requires Inv(s) && s.q.stop && Run(s, acts) && 0 <= t < |s.pcs|
    ensures var e := End(s, acts);
      && |e.pcs| == |s.pcs| && e.q.stop && e.q.notFull && e.q.notEmpty && e.putLog == s.putLog
      && (NoRemovingPeek(acts) ==> e.gotLog == s.gotLog && e.q.items == s.q.items)
      && (e.pcs[t].PutBlocked? ==>
            && Run(e, [PutWake(t), PutResume(t)])
            && End(e, [PutWake(t), PutResume(t)]) == e.(pcs := e.pcs[t := Out]))
      && (e.pcs[t].GetBlocked? ==>
            && Run(e, [GetWake(t), GetResume(t)])
            && End(e, [GetWake(t), GetResume(t)]) == e.(pcs := e.pcs[t := Out]))
    decreases |acts|
  {
    if acts != [] {
      StepKeeps(s, acts[0]);
      assert forall i :: 0 <= i < |acts[1..]| ==> acts[1..][i] == acts[i + 1];
      StopFreesEverybody(Step(s, acts[0]), acts[1..], t);
    } else {
      if s.pcs[t].PutBlocked? {
        var s1 := Step(s, PutWake(t));
        TwoSteps(s, PutWake(t), PutResume(t));
        assert s1.pcs[t := Out] == s.pcs[t := Out];
      }
      if s.pcs[t].GetBlocked? {
        var s1 := Step(s, GetWake(t));
        TwoSteps(s, GetWake(t), GetResume(t));
        assert s1.pcs[t := Out] == s.pcs[t := Out];
      }
    }
  }

  lemma TwoSteps<T>(s: System<T>, a: Action<T>, b: Action<T>)
    requires Enabled(s, a) && Enabled(Step(s, a), b)
    ensures Run(s, [a, b]) && End(s, [a, b]) == Step(Step(s, a), b)
  {
    var s1 := Step(s, a);
    var s2 := Step(s1, b);
    assert Run(s2, []) && End(s2, []) == s2;
    assert [b][0] == b && [b][1..] == [];
    assert Run(s1, [b]) && End(s1, [b]) == s2;
    assert [a, b][1..] == [b];
  }

  // ---- set events without a reason ----

  /** An event that is set promises something, so no wait is passed for nothing. */
  predicate EventsHonest<T>(q: BState<T>) {
    && (q.notFull ==> !q.Full() || q.stop)
    && (q.notEmpty ==> q.items != [] || q.stop)
  }

  /** What a dishonest event costs: the sleeper wakes, finds nothing, and is back
      where it was, with the event still set. */
  lemma SpinsIffNothingThere<T>(s: System<T>, t: int)
    requires Inv(s) && 0 <= t < |s.pcs| && s.pcs[t].GetBlocked? && s.q.notEmpty
    ensures Run(s, [GetWake(t), GetResume(t)])
    ensures End(s, [GetWake(t), GetResume(t)]) == s <==> s.q.items == [] && !s.q.stop
  {
    TwoSteps(s, GetWake(t), GetResume(t));
    var e := Step(Step(s, GetWake(t)), GetResume(t));
    if s.q.items == [] && !s.q.stop {
      assert e.pcs == s.pcs && e.gotLog == s.gotLog;
    } else {
      assert e.pcs[t].Out?;
    }
  }

  predicate AlwaysHonest<T>(s: System<T>, acts: seq<Action<T>>)
    requires Run(s, acts)
    decreases |acts|
  {
    EventsHonest(s.q) && (acts == [] || AlwaysHonest(Step(s, acts[0]), acts[1..]))
  }

  /** A removing peek that is about to take the last item. */
  predicate Spoils<T>(q: BState<T>, a: Action<T>) {
    a.Peek? && a.remove && |q.items| == 1 && !q.stop
  }

  predicate NoneSpoils<T>(s: System<T>, acts: seq<Action<T>>)
    requires Run(s, acts)
    decreases |acts|
  {
    acts == [] || (!Spoils(s.q, acts[0]) && NoneSpoils(Step(s, acts[0]), acts[1..]))
  }

  /** A queue_boundedT whose events say exactly what they should: not_empty is set
      whenever there is an item, and neither is set for nothing. */
  predicate Marked<T>(q: BState<T>) {
    q.kind.Deque? && EventsHonest(q) && (q.items != [] ==> q.notEmpty)
  }

  /** Every step but such a peek keeps them so. */
  lemma PeekHonestIff<T>(s: System<T>, a: Action<T>)
    requires Inv(s) && Marked(s.q) && Enabled(s, a)
    ensures EventsHonest(Step(s, a).q) <==> !Spoils(s.q, a)
    ensures EventsHonest(Step(s, a).q) ==> Marked(Step(s, a).q)
  {
    if |s.q.items| > 0 {
      assert |s.q.items[1..]| == |s.q.items| - 1;
    }
  }

  lemma {:induction false} HonestIffNoneSpoils<T>(s: System<T>, acts: seq<Action<T>>)
    requires Inv(s) && Marked(s.q) && Run(s, acts)
    ensures AlwaysHonest(s, acts) <==> NoneSpoils(s, acts)
    ensures NoRemovingPeek(acts) ==> NoneSpoils(s, acts)
    decreases |acts|
  {
    if acts == [] {
    } else {
      var s' := Step(s, acts[0]);
      StepKeeps(s, acts[0]);
      PeekHonestIff(s, acts[0]);
      assert forall i :: 0 <= i < |acts[1..]| ==> acts[1..][i] == acts[i + 1];
      if EventsHonest(s'.q) {
        HonestIffNoneSpoils(s', acts[1..]);
      }
    }
  }

  /** In a run of queue_boundedT no wait is passed for nothing exactly as long as no
      removing peek takes the last item before stop. */
  lemma NoIdleWakeupIff<T>(bound: nat, threads: nat, acts: seq<Action<T>>)
    requires 1 <= bound && Run(Init<T>(Deque, bound, threads), acts)
    ensures AlwaysHonest(Init(Deque, bound, threads), acts) <==> NoneSpoils(Init(Deque, bound, threads), acts)
    ensures NoRemovingPeek(acts) ==> AlwaysHonest(Init(Deque, bound, threads), acts)
  {
    HonestIffNoneSpoils(Init(Deque, bound, threads), acts);
  }

  /** One put and one removing peek are enough, whatever the bound. */
  lemma PeekLeavesEventSet<T>(bound: nat, threads: nat, p: T)
    requires 1 <= bound && 1 <= threads
    ensures var s, acts := Init<T>(Deque, bound, threads), [Put(0, p, true), Peek(0, true)];
      && Run(s, acts) && !NoneSpoils(s, acts) && !AlwaysHonest(s, acts)
      && End(s, acts).q.items == [] && End(s, acts).q.notEmpty
  {
    var s, a, b := Init<T>(Deque, bound, threads), Put(0, p, true), Peek(0, true);
    TwoSteps(s, a, b);
    assert [a, b][1..] == [b];
    HonestIffNoneSpoils(s, [a, b]);
  }

  /** ringbufT resets no event: each only remembers that its end of the queue has
      been used once. */
  predicate EventsRemember<T>(s: System<T>) {
    && s.q.kind.Ring?
    && (s.q.notEmpty <==> s.putLog != [] || s.q.stop)
    && (s.q.notFull <==> s.gotLog != [] || s.q.stop)
  }

  lemma {:induction false} RingRemembers<T>(s: System<T>, acts: seq<Action<T>>)
    requires Inv(s) && EventsRemember(s) && Run(s, acts)
    ensures EventsRemember(End(s, acts))
    decreases |acts|
  {
    if acts == [] {
    } else {
      StepKeeps(s, acts[0]);
      RingRemembers(Step(s, acts[0]), acts[1..]);
    }
  }

  /** After any run of ringbufT its events are honest exactly when, before stop, it
      is not full again after a get and not empty again after a put. */
  lemma RingHonestIff<T>(bound: nat, threads: nat, acts: seq<Action<T>>)
    requires 1 <= bound && Run(Init<T>(Ring, bound, threads), acts)
    ensures var e := End(Init<T>(Ring, bound, threads), acts);
      EventsHonest(e.q) <==> e.q.stop || ((e.gotLog == [] || !e.q.Full()) && (e.putLog == [] || e.q.items != []))
  {
    RunKeeps(Init<T>(Ring, bound, threads), acts);
    RingRemembers(Init<T>(Ring, bound, threads), acts);
  }

  /** One put and one get leave not_empty set on an empty ring. */
  lemma RingLeavesEventSet<T>(bound: nat, threads: nat, p: T)
    requires 1 <= bound && 1 <= threads
    ensures var s, acts := Init<T>(Ring, bound, threads), [Put(0, p, true), Get(0, true)];
      && Run(s, acts) && !EventsHonest(End(s, acts).q)
      && End(s, acts).q.items == [] && End(s, acts).q.notEmpty
  {
    TwoSteps(Init<T>(Ring, bound, threads), Put(0, p, true), Get(0, true));
  }
}
