/** Sessions from their join to their removal, as steps of any number of threads:
    thread 0 runs the consumer loop, the others are completion workers and
    joiners. One step is one access to something shared: the package queue, a
    socket, the kernel's set of outstanding operations, or the boss list under
    its lock. */
module Lifecycle {
  import opened Boss
  import Framing
  import opened IoBuffer
  import QueueT
  import SessionIo

  datatype Op = Send | Recv | Quit

  /** What a thread is about to do. */
  datatype Pc =
    | Idle
    | JoinPut(s: Sid)                      // session_join: put connected; lock held
    | JoinPush(s: Sid)                     // session_join: push_back; lock held
    | Handling(s: Sid, op: Op)             // send_package / recv_package
    | Posting(s: Sid, op: Op)              // WSASend / WSARecv
    | Notifying(s: Sid, status: Status)    // socket seen open: put the notification
    | Failing(s: Sid, op: Op)              // send_error / recv_error: look at the socket
    | ErrorPut(s: Sid, op: Op)             // socket seen open: put the error
    | Closing(s: Sid)                      // disconected: close_socket
    | DiscPut(s: Sid)                      // disconected: put disconnected
    | Removing(s: Sid)                     // disconected: session_remove

  /** `log` is every package put so far and `dispatched` how many of them the
      consumer has taken; the queue is the rest. `granted`: sessions for which the
      application has been told that its last operation is over and has started
      no new one. `lock`: the thread in session_join, or -1. */
  datatype State = State(
    pcs: seq<Pc>, kernel: set<(Sid, Op)>, log: seq<Package>, dispatched: nat, granted: set<Sid>,
    open: set<Sid>, list: seq<Sid>, removed: set<Sid>, lock: int, next: nat, connectCount: int)

  function Init(threads: nat): State {
    State(seq(threads, _ => Idle), {}, [], 0, {}, {}, [], {}, -1, 0, 0)
  }

  datatype Action =
    | JoinBegin(t: int) | JoinRefused(t: int) | JoinConnected(t: int) | JoinPushed(t: int)
    | Pick(t: int, s: Sid, op: Op, zero: bool)   // GetQueuedCompletionStatus; `zero`: trans == 0
    | Handle(t: int, again: bool, status: Status)
    | Post(t: int, ok: bool)
    | Notify(t: int) | Fail(t: int) | PutError(t: int)
    | Close(t: int) | PutDisconnected(t: int) | Remove(t: int)
    | Dispatch | AppSend(s: Sid) | AppRecv(s: Sid) | AppQuit(s: Sid)
    | OwnerClose(s: Sid)                         // sessions_close_sockets

  /** Packages after which the application may start an operation on the session;
      error handlers start none. */
  predicate Grants(st: Status) {
    st.Connected? || st.SendFinished? || st.RecvFinished? || st.RecvFailed? || st.ProtocolError?
  }

  predicate Outcome(op: Op, st: Status) {
    match op
    case Send => st.SendFinished?
    case Recv => st.RecvFinished? || st.RecvFailed? || st.ProtocolError?
    case Quit => false
  }

  predicate At(st: State, t: int) { 0 <= t < |st.pcs| }

  predicate Enabled(st: State, a: Action) {
    match a
    case JoinBegin(t) => At(st, t) && st.pcs[t].Idle? && st.lock == -1
    case JoinRefused(t) => At(st, t) && st.pcs[t].Idle? && st.lock == -1
    case JoinConnected(t) => At(st, t) && st.pcs[t].JoinPut?
    case JoinPushed(t) => At(st, t) && st.pcs[t].JoinPush?
    case Pick(t, s, op, _) => At(st, t) && t != 0 && st.pcs[t].Idle? && (s, op) in st.kernel
    case Handle(t, again, status) =>
      At(st, t) && st.pcs[t].Handling? && !st.pcs[t].op.Quit? && (again || Outcome(st.pcs[t].op, status))
    case Post(t, _) => At(st, t) && st.pcs[t].Posting?
    case Notify(t) => At(st, t) && st.pcs[t].Notifying?
    case Fail(t) => At(st, t) && st.pcs[t].Failing?
    case PutError(t) => At(st, t) && st.pcs[t].ErrorPut?
    case Close(t) => At(st, t) && st.pcs[t].Closing?
    case PutDisconnected(t) => At(st, t) && st.pcs[t].DiscPut?
    case Remove(t) => At(st, t) && st.pcs[t].Removing? && st.lock == -1
    case Dispatch => At(st, 0) && st.pcs[0].Idle? && st.dispatched < |st.log|
    case AppSend(s) => At(st, 0) && st.pcs[0].Idle? && s in st.granted
    case AppRecv(s) => At(st, 0) && st.pcs[0].Idle? && s in st.granted
    case AppQuit(s) => At(st, 0) && st.pcs[0].Idle? && s in st.granted
    case OwnerClose(s) => s in st.list
  }

  function Put(st: State, s: Sid, status: Status): State {
    st.(log := st.log + [Package(s, status)])
  }

  function Goto(st: State, t: int, pc: Pc): State
    requires At(st, t)
  {
    st.(pcs := st.pcs[t := pc])
  }

  function Step(st: State, a: Action): State
    requires Enabled(st, a)
  {
    match a
    case JoinBegin(t) =>
      Goto(st, t, JoinPut(st.next)).(open := st.open + {st.next}, next := st.next + 1, lock := t)
    case JoinRefused(t) => st.(next := st.next + 1)
    case JoinConnected(t) => Put(Goto(st, t, JoinPush(st.pcs[t].s)), st.pcs[t].s, Connected)
    case JoinPushed(t) => Goto(st, t, Idle).(list := st.list + [st.pcs[t].s], lock := -1)
    case Pick(t, s, op, zero) =>
      Goto(st, t, if op.Quit? then Closing(s) else if zero then Failing(s, op) else Handling(s, op))
        .(kernel := st.kernel - {(s, op)})
    case Handle(t, again, status) =>
      var s := st.pcs[t].s;
      Goto(st, t, if again then Posting(s, st.pcs[t].op) else if s in st.open then Notifying(s, status) else Idle)
    case Post(t, ok) =>
      var s, op := st.pcs[t].s, st.pcs[t].op;
      if ok then Goto(st, t, Idle).(kernel := st.kernel + {(s, op)}) else Goto(st, t, Failing(s, op))
    case Notify(t) => Put(Goto(st, t, Idle), st.pcs[t].s, st.pcs[t].status)
    case Fail(t) =>
      var s := st.pcs[t].s;
      Goto(st, t, if s in st.open then ErrorPut(s, st.pcs[t].op) else Closing(s))
    case PutError(t) =>
      Put(Goto(st, t, Closing(st.pcs[t].s)), st.pcs[t].s, if st.pcs[t].op.Send? then SendError else RecvError)
    case Close(t) => Goto(st, t, DiscPut(st.pcs[t].s)).(open := st.open - {st.pcs[t].s})
    case PutDisconnected(t) => Put(Goto(st, t, Removing(st.pcs[t].s)), st.pcs[t].s, Disconnected)
    case Remove(t) => Goto(st, t, Idle).(list := Erase(st.list, st.pcs[t].s), removed := st.removed + {st.pcs[t].s})
    case Dispatch =>
      var p := st.log[st.dispatched];
      st.(dispatched := st.dispatched + 1,
          connectCount := CountAfter(st.connectCount, p.status),
          granted := if Grants(p.status) then st.granted + {p.sid} else st.granted)
    case AppSend(s) => Goto(st, 0, Posting(s, Send)).(granted := st.granted - {s})
    case AppRecv(s) => Goto(st, 0, Handling(s, Recv)).(granted := st.granted - {s})
    case AppQuit(s) => st.(granted := st.granted - {s}, kernel := st.kernel + {(s, Quit)})
    case OwnerClose(s) => st.(open := st.open - {s})
  }

  predicate Run(st: State, acts: seq<Action>)
    decreases |acts|
  {
    acts == [] || (Enabled(st, acts[0]) && Run(Step(st, acts[0]), acts[1..]))
  }

  function End(st: State, acts: seq<Action>): State
    requires Run(st, acts)
    decreases |acts|
  {
    if acts == [] then st else End(Step(st, acts[0]), acts[1..])
  }

  // ---- the single token ----

  /** The places from which something more can happen to a session. */
  datatype Holder = InKernel(op: Op) | InThread(t: int) | InQueue(i: int) | InApp

  predicate Carries(pc: Pc, s: Sid) {
    !pc.Idle? && !pc.JoinPush? && !pc.Removing? && pc.s == s
  }

  predicate Holds(st: State, s: Sid, h: Holder) {
    match h
    case InKernel(op) => (s, op) in st.kernel
    case InThread(t) => At(st, t) && Carries(st.pcs[t], s)
    case InQueue(i) => st.dispatched <= i < |st.log| && st.log[i].sid == s && Grants(st.log[i].status)
    case InApp => s in st.granted
  }

  /** Only the holder of the boss lock is ever in session_join. */
  predicate Joining(st: State, s: Sid) { At(st, st.lock) && st.pcs[st.lock] == JoinPut(s) }

  predicate Pushing(st: State, s: Sid) { At(st, st.lock) && st.pcs[st.lock] == JoinPush(s) }

  ghost predicate TokenInv(st: State) {
    && st.dispatched <= |st.log|
    && (forall s: Sid, h, h' :: Holds(st, s, h) && Holds(st, s, h') ==> h == h')
    && (forall s: Sid, h :: Holds(st, s, h) ==> s < st.next && Package(s, Disconnected) !in st.log)
    && (forall s: Sid, h :: Holds(st, s, h) ==> (Package(s, Connected) in st.log <==> !Joining(st, s)))
  }

  /** The packages of one session: connected comes first and once, and nothing
      comes after disconnected. */
  predicate Ordered(log: seq<Package>) {
    && (forall i :: 0 <= i < |log| && !log[i].status.Connected? ==> Package(log[i].sid, Connected) in log[..i])
    && (forall i, j :: 0 <= i < j < |log| && log[i].sid == log[j].sid ==>
          !log[j].status.Connected? && !log[i].status.Disconnected?)
  }

  ghost predicate LogInv(st: State) {
    && Ordered(st.log)
    && (forall t :: At(st, t) && st.pcs[t].Notifying? ==>
          Grants(st.pcs[t].status) && !st.pcs[t].status.Connected?)
    && (forall i :: 0 <= i < |st.log| ==> st.log[i].sid < st.next)
    && (forall i :: 0 <= i < |st.log| ==> !Joining(st, st.log[i].sid))
  }

  predicate JoinedList(st: State, s: Sid) {
    s in st.list <==>
      && Package(s, Connected) in st.log
      && !Pushing(st, s)
      && s !in st.removed
  }

  ghost predicate BossInv(st: State) {
    && (forall t :: At(st, t) && (st.pcs[t].JoinPut? || st.pcs[t].JoinPush?) ==> st.lock == t)
    && (forall t :: At(st, t) && st.pcs[t].JoinPush? ==>
          Package(st.pcs[t].s, Connected) in st.log && st.pcs[t].s !in st.removed)
    && (forall t :: At(st, t) && st.pcs[t].Removing? ==>
          Package(st.pcs[t].s, Disconnected) in st.log && st.pcs[t].s !in st.removed)
    && (forall t, u :: At(st, t) && At(st, u) && st.pcs[t].Removing? && st.pcs[t] == st.pcs[u] ==> t == u)
    && (forall s :: s in st.removed ==> Package(s, Disconnected) in st.log)
    && Distinct(st.list)
    && (forall s: Sid :: JoinedList(st, s))
  }

  ghost predicate Inv(st: State) {
    TokenInv(st) && LogInv(st) && BossInv(st)
  }

  // ---- every step moves at most one token ----

  /** The session whose token the step moves, if any. */
  function Mover(st: State, a: Action): set<Sid>
    requires Enabled(st, a)
  {
    match a
    case JoinBegin(_) => {st.next}
    case JoinRefused(_) => {}
    case JoinPushed(_) => {}
    case Remove(_) => {}
    case OwnerClose(_) => {}
    case Dispatch => if Grants(st.log[st.dispatched].status) then {st.log[st.dispatched].sid} else {}
    case Pick(_, s, _, _) => {s}
    case AppSend(s) => {s}
    case AppRecv(s) => {s}
    case AppQuit(s) => {s}
    case _ => {st.pcs[a.t].s}
  }

  /** Where that token was. */
  function Source(st: State, a: Action): Holder
    requires Enabled(st, a)
  {
    match a
    case Pick(_, _, op, _) => InKernel(op)
    case Dispatch => InQueue(st.dispatched)
    case AppSend(_) => InApp
    case AppRecv(_) => InApp
    case AppQuit(_) => InApp
    case OwnerClose(_) => InApp
    case _ => InThread(a.t)
  }

  /** Where it is afterwards; nowhere once the session can do nothing more. */
  function Target(st: State, a: Action): set<Holder>
    requires Enabled(st, a)
  {
    match a
    case JoinConnected(_) => {InQueue(|st.log|)}
    case Handle(t, again, _) => if again || st.pcs[t].s in st.open then {InThread(t)} else {}
    case Post(t, ok) => if ok then {InKernel(st.pcs[t].op)} else {InThread(t)}
    case Notify(t) => if Grants(st.pcs[t].status) then {InQueue(|st.log|)} else {}
    case PutDisconnected(_) => {}
    case Dispatch => {InApp}
    case AppSend(_) => {InThread(0)}
    case AppRecv(_) => {InThread(0)}
    case AppQuit(_) => {InKernel(Quit)}
    case OwnerClose(_) => {}
    case _ => {InThread(a.t)}
  }

  lemma SourceHolds(st: State, a: Action, s: Sid, h: Holder)
    requires Inv(st) && Enabled(st, a) && !a.JoinBegin? && s in Mover(st, a)
    ensures Holds(st, s, Source(st, a))
    ensures Holds(st, s, h) ==> h == Source(st, a)
  {
    var h0 := Source(st, a);
    assert Holds(st, s, h0);
  }

  /** What the step does to one place, for one session. */
  predicate Moved(st: State, a: Action, s: Sid, h: Holder)
    requires Enabled(st, a)
  {
    Holds(Step(st, a), s, h) <==> if s in Mover(st, a) then h in Target(st, a) else Holds(st, s, h)
  }

  lemma MovesInKernel(st: State, a: Action, s: Sid, op: Op)
    requires Inv(st) && Enabled(st, a)
    ensures Moved(st, a, s, InKernel(op))
  {
    if s in Mover(st, a) && !a.JoinBegin? {
      SourceHolds(st, a, s, InKernel(op));
    }
    assert a.JoinBegin? && s == st.next ==> !Holds(st, s, InKernel(op));
  }

  lemma MovesInThread(st: State, a: Action, s: Sid, t: int)
    requires Inv(st) && Enabled(st, a)
    ensures Moved(st, a, s, InThread(t))
  {
    if s in Mover(st, a) && !a.JoinBegin? {
      SourceHolds(st, a, s, InThread(t));
    }
    assert a.JoinBegin? && s == st.next ==> !Holds(st, s, InThread(t));
  }

  lemma MovesInQueue(st: State, a: Action, s: Sid, i: int)
    requires Inv(st) && Enabled(st, a)
    ensures Moved(st, a, s, InQueue(i))
  {
    if s !in Mover(st, a) {
      OthersInQueue(st, a, s, i);
    } else {
      if !a.JoinBegin? {
        SourceHolds(st, a, s, InQueue(i));
      }
      assert a.JoinBegin? ==> !Holds(st, s, InQueue(i));
    }
  }

  lemma OthersInQueue(st: State, a: Action, s: Sid, i: int)
    requires TokenInv(st) && LogInv(st) && Enabled(st, a) && s !in Mover(st, a)
    ensures Holds(Step(st, a), s, InQueue(i)) <==> Holds(st, s, InQueue(i))
  {
  }

  lemma MovesInApp(st: State, a: Action, s: Sid)
    requires Inv(st) && Enabled(st, a)
    ensures Moved(st, a, s, InApp)
  {
    if s in Mover(st, a) && !a.JoinBegin? {
      SourceHolds(st, a, s, InApp);
    }
    assert a.JoinBegin? && s == st.next ==> !Holds(st, s, InApp);
  }

  lemma Moves(st: State, a: Action, s: Sid, h: Holder)
    requires Inv(st) && Enabled(st, a)
    ensures Moved(st, a, s, h)
  {
    match h
    case InKernel(op) => MovesInKernel(st, a, s, op);
    case InThread(t) => MovesInThread(st, a, s, t);
    case InQueue(i) => MovesInQueue(st, a, s, i);
    case InApp => MovesInApp(st, a, s);
  }

  // ---- the invariant is kept ----

  lemma LogGrows(st: State, a: Action, p: Package)
    requires Enabled(st, a)
    ensures st.log <= Step(st, a).log && |Step(st, a).log| <= |st.log| + 1
    ensures p in Step(st, a).log <==> p in st.log || (|Step(st, a).log| > |st.log| && p == Step(st, a).log[|st.log|])
  {
  }

  lemma TokenKept(st: State, a: Action)
    requires Inv(st) && Enabled(st, a)
    ensures TokenInv(Step(st, a))
  {
    var st' := Step(st, a);
    forall s: Sid, h, h' | Holds(st', s, h) && Holds(st', s, h')
      ensures h == h'
    {
      Moves(st, a, s, h);
      Moves(st, a, s, h');
    }
    forall s: Sid, h | Holds(st', s, h)
      ensures s < st'.next && Package(s, Disconnected) !in st'.log
      ensures Package(s, Connected) in st'.log <==> !Joining(st', s)
    {
      TokenKeptFor(st, a, s, h);
    }
  }

  lemma JoiningMoves(st: State, a: Action, s: Sid)
    requires Inv(st) && Enabled(st, a)
    ensures Joining(Step(st, a), s) <==>
      if a.JoinBegin? then s == st.next else Joining(st, s) && !a.JoinConnected?
  {
    if At(st, st.lock) && a.JoinPushed? {
      assert a.t == st.lock;
    }
  }

  lemma TokenKeptFor(st: State, a: Action, s: Sid, h: Holder)
    requires Inv(st) && Enabled(st, a) && Holds(Step(st, a), s, h)
    ensures s < Step(st, a).next && Package(s, Disconnected) !in Step(st, a).log
    ensures Package(s, Connected) in Step(st, a).log <==> !Joining(Step(st, a), s)
  {
    Moves(st, a, s, h);
    LogGrows(st, a, Package(s, Disconnected));
    LogGrows(st, a, Package(s, Connected));
    JoiningMoves(st, a, s);
    if s in Mover(st, a) && !a.JoinBegin? {
      SourceHolds(st, a, s, h);
      assert Holds(st, s, Source(st, a));
    }
  }

  /** A package is put only for the session whose token the thread carries. */
  lemma PutterHolds(st: State, a: Action)
    requires Inv(st) && Enabled(st, a) && |Step(st, a).log| > |st.log|
    ensures a.JoinConnected? || a.Notify? || a.PutError? || a.PutDisconnected?
    ensures Holds(st, st.pcs[a.t].s, InThread(a.t))
    ensures Step(st, a).log == st.log + [Step(st, a).log[|st.log|]]
    ensures Step(st, a).log[|st.log|].sid == st.pcs[a.t].s < st.next
    ensures Package(st.pcs[a.t].s, Disconnected) !in st.log
    ensures Package(st.pcs[a.t].s, Connected) in st.log <==> !a.JoinConnected?
    ensures Joining(st, st.pcs[a.t].s) <==> a.JoinConnected?
  {
    var s := st.pcs[a.t].s;
    assert Holds(st, s, InThread(a.t));
    assert Joining(st, s) ==> Holds(st, s, InThread(st.lock));
  }

  lemma LogKept(st: State, a: Action)
    requires Inv(st) && Enabled(st, a)
    ensures LogInv(Step(st, a))
  {
    var st' := Step(st, a);
    forall i | 0 <= i < |st'.log|
      ensures st'.log[i].sid < st'.next && !Joining(st', st'.log[i].sid)
    {
      EntryKept(st, a, i);
    }
    forall t | At(st', t) && st'.pcs[t].Notifying?
      ensures Grants(st'.pcs[t].status) && !st'.pcs[t].status.Connected?
    {
      NoticeKept(st, a, t);
    }
    OrderedKept(st, a);
  }

  lemma NoticeKept(st: State, a: Action, t: int)
    requires LogInv(st) && Enabled(st, a) && At(Step(st, a), t) && Step(st, a).pcs[t].Notifying?
    ensures Grants(Step(st, a).pcs[t].status) && !Step(st, a).pcs[t].status.Connected?
  {
  }

  lemma EntryKept(st: State, a: Action, i: int)
    requires Inv(st) && Enabled(st, a) && 0 <= i < |Step(st, a).log|
    ensures Step(st, a).log[i].sid < Step(st, a).next
    ensures !Joining(Step(st, a), Step(st, a).log[i].sid)
  {
    if |Step(st, a).log| > |st.log| {
      PutterHolds(st, a);
    }
    JoiningMoves(st, a, Step(st, a).log[i].sid);
  }

  lemma OrderedKept(st: State, a: Action)
    requires Inv(st) && Enabled(st, a)
    ensures Ordered(Step(st, a).log)
  {
    var st' := Step(st, a);
    if |st'.log| > |st.log| {
      PutterHolds(st, a);
      assert forall i :: 0 <= i < |st.log| ==> st'.log[..i] == st.log[..i];
      assert st'.log[..|st.log|] == st.log;
    }
  }

  /** Of the other steps only putting connected concerns the list: the push is next. */
  lemma PushingMoves(st: State, a: Action, s: Sid)
    requires Inv(st) && Enabled(st, a) && !a.Remove? && !a.JoinPushed?
    ensures Step(st, a).list == st.list && Step(st, a).removed == st.removed
    ensures Package(s, Connected) in Step(st, a).log && !Pushing(Step(st, a), s) <==>
            Package(s, Connected) in st.log && !Pushing(st, s)
  {
    LogGrows(st, a, Package(s, Connected));
    if |Step(st, a).log| > |st.log| {
      PutterHolds(st, a);
    }
  }

  lemma RemoveKeepsList(st: State, t: int, s: Sid)
    requires BossInv(st) && Enabled(st, Remove(t))
    ensures Distinct(Step(st, Remove(t)).list) && JoinedList(Step(st, Remove(t)), s)
  {
    assert JoinedList(st, s);
    EraseRemoves(st.list, st.pcs[t].s);
  }

  lemma PushKeepsList(st: State, t: int, s: Sid)
    requires BossInv(st) && Enabled(st, JoinPushed(t))
    ensures Distinct(Step(st, JoinPushed(t)).list) && JoinedList(Step(st, JoinPushed(t)), s)
  {
    assert JoinedList(st, s);
    assert t == st.lock && JoinedList(st, st.pcs[t].s);
  }

  lemma ListKept(st: State, a: Action, s: Sid)
    requires Inv(st) && Enabled(st, a)
    ensures Distinct(Step(st, a).list) && JoinedList(Step(st, a), s)
  {
    match a
    case Remove(t) => RemoveKeepsList(st, t, s);
    case JoinPushed(t) => PushKeepsList(st, t, s);
    case _ =>
      assert JoinedList(st, s);
      PushingMoves(st, a, s);
  }

  lemma RemovedKept(st: State, a: Action, s: Sid)
    requires Inv(st) && Enabled(st, a)
    ensures s in Step(st, a).removed ==> Package(s, Disconnected) in Step(st, a).log
  {
    LogGrows(st, a, Package(s, Disconnected));
  }

  lemma LockKept(st: State, a: Action, t: int)
    requires Inv(st) && Enabled(st, a) && At(Step(st, a), t)
    ensures var st' := Step(st, a);
      && (st'.pcs[t].JoinPut? || st'.pcs[t].JoinPush? ==> st'.lock == t)
      && (st'.pcs[t].JoinPush? ==> Package(st'.pcs[t].s, Connected) in st'.log && st'.pcs[t].s !in st'.removed)
  {
    if |Step(st, a).log| > |st.log| {
      PutterHolds(st, a);
    }
  }

  lemma RemovingKept(st: State, a: Action, t: int)
    requires Inv(st) && Enabled(st, a) && At(Step(st, a), t) && Step(st, a).pcs[t].Removing?
    ensures Package(Step(st, a).pcs[t].s, Disconnected) in Step(st, a).log
    ensures Step(st, a).pcs[t].s !in Step(st, a).removed
  {
    if a.PutDisconnected? {
      PutterHolds(st, a);
    } else {
      assert st.pcs[t] == Step(st, a).pcs[t];
      LogGrows(st, a, Package(st.pcs[t].s, Disconnected));
      if a.Remove? {
        assert st.pcs[t] != st.pcs[a.t];
      }
    }
  }

  lemma RemovingOnce(st: State, a: Action, t: int, u: int)
    requires Inv(st) && Enabled(st, a) && At(Step(st, a), t) && At(Step(st, a), u)
    requires Step(st, a).pcs[t].Removing? && Step(st, a).pcs[t] == Step(st, a).pcs[u]
    ensures t == u
  {
    if a.PutDisconnected? {
      PutterHolds(st, a);
    }
  }

  lemma BossKept(st: State, a: Action)
    requires Inv(st) && Enabled(st, a)
    ensures BossInv(Step(st, a))
  {
    var st' := Step(st, a);
    ListKept(st, a, 0);
    forall s: Sid ensures JoinedList(st', s) && (s in st'.removed ==> Package(s, Disconnected) in st'.log) {
      ListKept(st, a, s);
      RemovedKept(st, a, s);
    }
    forall t | At(st', t)
      ensures st'.pcs[t].JoinPut? || st'.pcs[t].JoinPush? ==> st'.lock == t
      ensures st'.pcs[t].JoinPush? ==> Package(st'.pcs[t].s, Connected) in st'.log && st'.pcs[t].s !in st'.removed
    {
      LockKept(st, a, t);
    }
    forall t | At(st', t) && st'.pcs[t].Removing?
      ensures Package(st'.pcs[t].s, Disconnected) in st'.log && st'.pcs[t].s !in st'.removed
    {
      RemovingKept(st, a, t);
    }
    forall t, u | At(st', t) && At(st', u) && st'.pcs[t].Removing? && st'.pcs[t] == st'.pcs[u]
      ensures t == u
    {
      RemovingOnce(st, a, t, u);
    }
  }

  lemma InvKept(st: State, a: Action)
    requires Inv(st) && Enabled(st, a)
    ensures Inv(Step(st, a))
  {
    TokenKept(st, a);
    LogKept(st, a);
    BossKept(st, a);
  }

  lemma {:induction false} RunKeeps(st: State, acts: seq<Action>)
    requires Inv(st) && OpenInv(st) && CountInv(st) && Run(st, acts)
    ensures Inv(End(st, acts)) && OpenInv(End(st, acts)) && CountInv(End(st, acts))
    decreases |acts|
  {
    if acts == [] {
    } else {
      InvKept(st, acts[0]);
      OpenKept(st, acts[0]);
      CountKept(st, acts[0]);
      RunKeeps(Step(st, acts[0]), acts[1..]);
    }
  }

  // ---- no session is forgotten ----

  ghost predicate OpenInv(st: State) {
    && (forall t :: At(st, t) && st.pcs[t].DiscPut? ==> st.pcs[t].s !in st.open)
    && (forall s: Sid :: s in st.open ==> s < st.next && exists h :: Holds(st, s, h))
  }

  lemma OpenKept(st: State, a: Action)
    requires Inv(st) && OpenInv(st) && Enabled(st, a)
    ensures OpenInv(Step(st, a))
  {
    var st' := Step(st, a);
    forall s: Sid | s in st'.open
      ensures s < st'.next && exists h :: Holds(st', s, h)
    {
      if s in Mover(st, a) {
        assert Target(st, a) != {};
        var h :| h in Target(st, a);
        Moves(st, a, s, h);
      } else {
        var h :| Holds(st, s, h);
        Moves(st, a, s, h);
      }
    }
    forall t | At(st', t) && st'.pcs[t].DiscPut?
      ensures st'.pcs[t].s !in st'.open
    {
      if a.JoinBegin? {
        assert Holds(st, st.pcs[t].s, InThread(t));
      }
    }
  }

  // ---- sessions that are forgotten after all ----

  /** An operation of session `s` is over, but its socket is closed and nothing is put. */
  predicate Drops(st: State, a: Action, s: Sid)
    requires Enabled(st, a)
  {
    a.Handle? && !a.again && st.pcs[a.t].s == s && s !in st.open
  }

  /** A session that has begun to join and is not disconnected has a holder, unless its
      last notification has been dropped. */
  ghost predicate Fate(st: State, s: Sid, dropped: bool) {
    && (dropped ==> Package(s, Connected) in st.log && Package(s, Disconnected) !in st.log)
    && (Joining(st, s) || Package(s, Connected) in st.log ==>
          ((exists h :: Holds(st, s, h)) <==> Package(s, Disconnected) !in st.log && !dropped))
  }

  lemma FateBegins(st: State, t: int)
    requires Inv(st) && Enabled(st, JoinBegin(t))
    ensures Fate(Step(st, JoinBegin(t)), st.next, false)
    ensures !Joining(st, st.next) && Package(st.next, Connected) !in st.log
  {
    assert Holds(Step(st, JoinBegin(t)), st.next, InThread(t));
  }

  /** What happens to the session whose token the step moves. */
  lemma FateMoves(st: State, a: Action, s: Sid)
    requires Inv(st) && Enabled(st, a) && s in Mover(st, a) && !a.JoinBegin?
    ensures Package(s, Disconnected) !in st.log
    ensures Target(st, a) == {} <==> a.PutDisconnected? || Drops(st, a, s)
    ensures Package(s, Disconnected) in Step(st, a).log <==> a.PutDisconnected?
    ensures Drops(st, a, s) ==> Package(s, Connected) in st.log
  {
    assert Holds(st, s, Source(st, a));
    LogGrows(st, a, Package(s, Disconnected));
    if |Step(st, a).log| > |st.log| {
      PutterHolds(st, a);
    }
    if Joining(st, s) {
      assert Holds(st, s, InThread(st.lock));
    }
  }

  /** Where the token goes decides whether the session still has a holder. */
  lemma HolderAfter(st: State, a: Action, s: Sid)
    requires Inv(st) && Enabled(st, a)
    ensures (exists h :: Holds(Step(st, a), s, h)) <==>
      if s in Mover(st, a) then Target(st, a) != {} else exists h :: Holds(st, s, h)
  {
    if s in Mover(st, a) {
      forall h ensures Holds(Step(st, a), s, h) <==> h in Target(st, a) {
        Moves(st, a, s, h);
      }
      if Target(st, a) != {} {
        var h :| h in Target(st, a);
        assert Holds(Step(st, a), s, h);
      }
    } else {
      forall h ensures Holds(Step(st, a), s, h) <==> Holds(st, s, h) {
        Moves(st, a, s, h);
      }
    }
  }

  lemma OthersKeepTheirs(st: State, a: Action, s: Sid)
    requires Inv(st) && Enabled(st, a) && s !in Mover(st, a)
    ensures Joining(Step(st, a), s) <==> Joining(st, s)
    ensures Package(s, Connected) in Step(st, a).log <==> Package(s, Connected) in st.log
    ensures Package(s, Disconnected) in Step(st, a).log <==> Package(s, Disconnected) in st.log
  {
    JoiningMoves(st, a, s);
    LogGrows(st, a, Package(s, Connected));
    LogGrows(st, a, Package(s, Disconnected));
    if |Step(st, a).log| > |st.log| {
      PutterHolds(st, a);
    }
  }

  lemma FateKept(st: State, a: Action, s: Sid, dropped: bool)
    requires Inv(st) && Enabled(st, a) && Fate(st, s, dropped)
    ensures Fate(Step(st, a), s, dropped || Drops(st, a, s))
  {
    HolderAfter(st, a, s);
    if s !in Mover(st, a) {
      OthersKeepTheirs(st, a, s);
    } else if a.JoinBegin? {
      FateBegins(st, a.t);
    } else {
      FateMoves(st, a, s);
      assert Holds(st, s, Source(st, a));
      LogGrows(st, a, Package(s, Connected));
      JoiningMoves(st, a, s);
    }
  }

  predicate Dropped(st: State, acts: seq<Action>, s: Sid)
    requires Run(st, acts)
    decreases |acts|
  {
    acts != [] && (Drops(st, acts[0], s) || Dropped(Step(st, acts[0]), acts[1..], s))
  }

  lemma {:induction false} FateOfRun(st: State, acts: seq<Action>, s: Sid, dropped: bool)
    requires Inv(st) && Run(st, acts) && Fate(st, s, dropped)
    ensures Fate(End(st, acts), s, dropped || Dropped(st, acts, s))
    decreases |acts|
  {
    if acts == [] {
    } else {
      InvKept(st, acts[0]);
      FateKept(st, acts[0], s, dropped);
      FateOfRun(Step(st, acts[0]), acts[1..], s, dropped || Drops(st, acts[0], s));
    }
  }

  /** Connected, never disconnected, and held by nobody: nothing will ever happen to it
      again, though it stays in the list. */
  ghost predicate Stranded(st: State, s: Sid) {
    && Package(s, Connected) in st.log && Package(s, Disconnected) !in st.log
    && forall h :: !Holds(st, s, h)
  }

  // ---- why a session ends, and what it is told ----

  /** Whether the error path, when it looked at the socket, found it open. */
  datatype Told = Unlooked | Open | Shut

  datatype Cause = NotYet | Failed(op: Op, told: Told) | Quitted

  function ErrorOf(op: Op): Status { if op.Send? then SendError else RecvError }

  /** What the step makes the cause of the session's end: a completion with zero bytes or
      a refused post is a failure of its operation, a completed quit is a quit. */
  function CauseStep(st: State, a: Action, s: Sid, c: Cause): Cause
    requires Enabled(st, a)
  {
    match a
    case Pick(_, s', op, zero) =>
      if s' != s then c else if op.Quit? then Quitted else if zero then Failed(op, Unlooked) else c
    case Post(t, ok) => if st.pcs[t].s == s && !ok then Failed(st.pcs[t].op, Unlooked) else c
    case Fail(t) => if st.pcs[t].s == s && c.Failed? then c.(told := if s in st.open then Open else Shut) else c
    case _ => c
  }

  function CauseOf(st: State, acts: seq<Action>, s: Sid, c: Cause): Cause
    requires Run(st, acts)
    decreases |acts|
  {
    if acts == [] then c else CauseOf(Step(st, acts[0]), acts[1..], s, CauseStep(st, acts[0], s, c))
  }

  /** On the way out: from the failure, or the quit, to the last package. */
  predicate Ends(pc: Pc) { pc.Failing? || pc.ErrorPut? || pc.Closing? || pc.DiscPut? }

  /** The cause is known and what has to be told has been put. */
  predicate Settled(log: seq<Package>, s: Sid, c: Cause) {
    || c.Quitted?
    || (c.Failed? && c.told.Shut?)
    || (c.Failed? && c.told.Open? && Package(s, ErrorOf(c.op)) in log)
  }

  /** What the holder of the token says about the cause. */
  predicate Fits(st: State, s: Sid, c: Cause, h: Holder)
    requires Holds(st, s, h)
  {
    if h.InThread? && Ends(st.pcs[h.t]) then
      match st.pcs[h.t]
      case Failing(_, op) => c == Failed(op, Unlooked) && !op.Quit?
      case ErrorPut(_, op) => c == Failed(op, Open) && !op.Quit? && Package(s, ErrorOf(op)) !in st.log
      case _ => Settled(st.log, s, c)
    else
      c.NotYet? && (h.InThread? && st.pcs[h.t].Posting? ==> !st.pcs[h.t].op.Quit?)
  }

  ghost predicate CauseInv(st: State, s: Sid, c: Cause) {
    && (forall h :: Holds(st, s, h) ==> Fits(st, s, c, h))
    && (Package(s, SendError) in st.log ==> c == Failed(Send, Open))
    && (Package(s, RecvError) in st.log ==> c == Failed(Recv, Open))
    && (Package(s, Disconnected) in st.log ==> Settled(st.log, s, c))
  }

  /** A step for another session leaves the thread at work for this one where it is. */
  lemma OthersPc(st: State, a: Action, s: Sid, t: int)
    requires Enabled(st, a) && s !in Mover(st, a) && At(Step(st, a), t) && Carries(Step(st, a).pcs[t], s)
    ensures At(st, t) && Step(st, a).pcs[t] == st.pcs[t]
  {
  }

  lemma OthersFit(st: State, a: Action, s: Sid, c: Cause, h: Holder)
    requires Inv(st) && CauseInv(st, s, c) && Enabled(st, a) && s !in Mover(st, a)
    requires Holds(Step(st, a), s, h)
    ensures Fits(Step(st, a), s, c, h)
  {
    Moves(st, a, s, h);
    LogGrows(st, a, Package(s, SendError));
    LogGrows(st, a, Package(s, RecvError));
    if |Step(st, a).log| > |st.log| {
      PutterHolds(st, a);
    }
    if h.InThread? {
      OthersPc(st, a, s, h.t);
    }
  }

  lemma MoverFits(st: State, a: Action, s: Sid, c: Cause, h: Holder)
    requires Inv(st) && CauseInv(st, s, c) && Enabled(st, a) && s in Mover(st, a) && !a.JoinBegin?
    requires Holds(Step(st, a), s, h)
    ensures Fits(Step(st, a), s, CauseStep(st, a, s, c), h)
  {
    Moves(st, a, s, h);
    assert Holds(st, s, Source(st, a)) && Fits(st, s, c, Source(st, a));
  }

  /** The errors in the log after a step of the session. */
  lemma MoverErrors(st: State, a: Action, s: Sid, c: Cause)
    requires Inv(st) && CauseInv(st, s, c) && Enabled(st, a) && s in Mover(st, a) && !a.JoinBegin?
    ensures var st', c' := Step(st, a), CauseStep(st, a, s, c);
      && (Package(s, SendError) in st'.log ==> c' == Failed(Send, Open))
      && (Package(s, RecvError) in st'.log ==> c' == Failed(Recv, Open))
      && (Package(s, Disconnected) in st'.log ==> Settled(st'.log, s, c'))
  {
    assert Holds(st, s, Source(st, a)) && Fits(st, s, c, Source(st, a));
    LogGrows(st, a, Package(s, SendError));
    LogGrows(st, a, Package(s, RecvError));
    LogGrows(st, a, Package(s, Disconnected));
    if |Step(st, a).log| > |st.log| {
      PutterHolds(st, a);
    }
  }

  lemma CauseKeptOthers(st: State, a: Action, s: Sid, c: Cause)
    requires Inv(st) && CauseInv(st, s, c) && Enabled(st, a) && s !in Mover(st, a)
    ensures CauseInv(Step(st, a), s, c) && CauseStep(st, a, s, c) == c
  {
    forall h | Holds(Step(st, a), s, h) ensures Fits(Step(st, a), s, c, h) {
      OthersFit(st, a, s, c, h);
    }
    LogGrows(st, a, Package(s, SendError));
    LogGrows(st, a, Package(s, RecvError));
    OthersKeepTheirs(st, a, s);
    if |Step(st, a).log| > |st.log| {
      PutterHolds(st, a);
    }
  }

  lemma CauseKeptMover(st: State, a: Action, s: Sid, c: Cause)
    requires Inv(st) && CauseInv(st, s, c) && Enabled(st, a) && s in Mover(st, a) && !a.JoinBegin?
    ensures CauseInv(Step(st, a), s, CauseStep(st, a, s, c)) && s < st.next
  {
    assert Holds(st, s, Source(st, a));
    forall h | Holds(Step(st, a), s, h) ensures Fits(Step(st, a), s, CauseStep(st, a, s, c), h) {
      MoverFits(st, a, s, c, h);
    }
    MoverErrors(st, a, s, c);
  }

  lemma CauseKeptJoin(st: State, t: int)
    requires Inv(st) && CauseInv(st, st.next, NotYet) && Enabled(st, JoinBegin(t))
    ensures CauseInv(Step(st, JoinBegin(t)), st.next, NotYet)
  {
    forall h | Holds(Step(st, JoinBegin(t)), st.next, h) ensures Fits(Step(st, JoinBegin(t)), st.next, NotYet, h) {
      Moves(st, JoinBegin(t), st.next, h);
    }
  }

  lemma CauseKept(st: State, a: Action, s: Sid, c: Cause)
    requires Inv(st) && CauseInv(st, s, c) && Enabled(st, a) && (s >= st.next ==> c.NotYet?)
    ensures CauseInv(Step(st, a), s, CauseStep(st, a, s, c))
    ensures s >= Step(st, a).next ==> CauseStep(st, a, s, c).NotYet?
  {
    if s !in Mover(st, a) {
      CauseKeptOthers(st, a, s, c);
    } else if a.JoinBegin? {
      CauseKeptJoin(st, a.t);
    } else {
      CauseKeptMover(st, a, s, c);
    }
  }

  /** After an error package of the session only disconnected comes. */
  predicate ErrorNearlyLast(log: seq<Package>, s: Sid) {
    forall i, j :: 0 <= i < j < |log| && log[i].sid == s == log[j].sid ==>
      (log[i].status.SendError? || log[i].status.RecvError? ==> log[j].status.Disconnected?)
  }

  lemma ErrorOrderKept(st: State, a: Action, s: Sid, c: Cause)
    requires Inv(st) && CauseInv(st, s, c) && Enabled(st, a) && ErrorNearlyLast(st.log, s)
    ensures ErrorNearlyLast(Step(st, a).log, s)
  {
    var log, log' := st.log, Step(st, a).log;
    LogGrows(st, a, Package(s, Connected));
    if |log'| > |log| {
      NothingAfterError(st, a, s, c);
      ErrorOrderAppend(log, log'[|log|], s);
      assert log' == log + [log'[|log|]];
    } else {
      assert log' == log;
    }
  }

  lemma ErrorOrderAppend(log: seq<Package>, p: Package, s: Sid)
    requires ErrorNearlyLast(log, s)
    requires p.sid == s && (Package(s, SendError) in log || Package(s, RecvError) in log) ==> p.status.Disconnected?
    ensures ErrorNearlyLast(log + [p], s)
  {
    assert forall i :: 0 <= i < |log| && log[i].sid == s ==> log[i] == Package(s, log[i].status);
  }

  lemma NothingAfterError(st: State, a: Action, s: Sid, c: Cause)
    requires Inv(st) && CauseInv(st, s, c) && Enabled(st, a) && |Step(st, a).log| > |st.log|
    ensures var p := Step(st, a).log[|st.log|];
      p.sid == s && (Package(s, SendError) in st.log || Package(s, RecvError) in st.log) ==> p.status.Disconnected?
  {
    PutterHolds(st, a);
    if st.pcs[a.t].s == s {
      assert Fits(st, s, c, InThread(a.t));
    }
  }

  lemma {:induction false} CauseOfRun(st: State, acts: seq<Action>, s: Sid, c: Cause)
    requires Inv(st) && Run(st, acts) && CauseInv(st, s, c) && (s >= st.next ==> c.NotYet?)
    requires ErrorNearlyLast(st.log, s)
    ensures CauseInv(End(st, acts), s, CauseOf(st, acts, s, c)) && ErrorNearlyLast(End(st, acts).log, s)
    decreases |acts|
  {
    if acts == [] {
    } else {
      InvKept(st, acts[0]);
      CauseKept(st, acts[0], s, c);
      ErrorOrderKept(st, acts[0], s, c);
      CauseOfRun(Step(st, acts[0]), acts[1..], s, CauseStep(st, acts[0], s, c));
    }
  }

  /** As long as the owner keeps its hands off, the socket is open until the session has
      been told. */
  ghost predicate StillOpen(st: State, s: Sid, c: Cause) {
    && (c.Failed? ==> !c.told.Shut?)
    && (forall h :: Holds(st, s, h) && (c.NotYet? || (c.Failed? && c.told.Unlooked?)) ==> s in st.open)
  }

  lemma StillOpenKept(st: State, a: Action, s: Sid, c: Cause)
    requires Inv(st) && CauseInv(st, s, c) && StillOpen(st, s, c) && Enabled(st, a) && a != OwnerClose(s)
    requires s >= st.next ==> c.NotYet?
    ensures StillOpen(Step(st, a), s, CauseStep(st, a, s, c))
  {
    if s !in Mover(st, a) {
      CauseKeptOthers(st, a, s, c);
      forall h | Holds(Step(st, a), s, h) && (c.NotYet? || (c.Failed? && c.told.Unlooked?))
        ensures s in Step(st, a).open
      {
        Moves(st, a, s, h);
      }
    } else if !a.JoinBegin? {
      assert Holds(st, s, Source(st, a)) && Fits(st, s, c, Source(st, a));
    }
  }

  lemma {:induction false} StillOpenRun(st: State, acts: seq<Action>, s: Sid, c: Cause)
    requires Inv(st) && CauseInv(st, s, c) && StillOpen(st, s, c) && Run(st, acts) && OwnerClose(s) !in acts
    requires s >= st.next ==> c.NotYet?
    ensures StillOpen(End(st, acts), s, CauseOf(st, acts, s, c))
    decreases |acts|
  {
    if acts == [] {
    } else {
      InvKept(st, acts[0]);
      CauseKept(st, acts[0], s, c);
      StillOpenKept(st, acts[0], s, c);
      StillOpenRun(Step(st, acts[0]), acts[1..], s, CauseStep(st, acts[0], s, c));
    }
  }

  // ---- the operation that was called ----

  /** The last operation the application has called on the session. */
  function CalledStep(a: Action, s: Sid, op: Op): Op {
    if a == AppSend(s) then Send else if a == AppRecv(s) then Recv else if a == AppQuit(s) then Quit else op
  }

  function Called(acts: seq<Action>, s: Sid, op: Op): Op {
    if acts == [] then op else Called(acts[1..], s, CalledStep(acts[0], s, op))
  }

  predicate OpOf(pc: Pc, op: Op) {
    pc.Handling? || pc.Posting? || pc.Failing? || pc.ErrorPut? ==> pc.op == op
  }

  predicate HolderOp(st: State, s: Sid, h: Holder, op: Op)
    requires Holds(st, s, h)
  {
    (h.InKernel? ==> h.op == op) && (h.InThread? ==> OpOf(st.pcs[h.t], op))
  }

  /** Whatever is going on for the session is that operation. */
  ghost predicate OpInv(st: State, s: Sid, op: Op) {
    forall h :: Holds(st, s, h) ==> HolderOp(st, s, h, op)
  }

  lemma OthersOp(st: State, a: Action, s: Sid, op: Op, h: Holder)
    requires Inv(st) && OpInv(st, s, op) && Enabled(st, a) && s !in Mover(st, a) && Holds(Step(st, a), s, h)
    ensures HolderOp(Step(st, a), s, h, CalledStep(a, s, op))
  {
    if h.InThread? {
      OthersPc(st, a, s, h.t);
      assert Holds(st, s, h);
    } else {
      Moves(st, a, s, h);
    }
  }

  lemma MoverOp(st: State, a: Action, s: Sid, op: Op, h: Holder)
    requires Inv(st) && OpInv(st, s, op) && Enabled(st, a) && s in Mover(st, a) && Holds(Step(st, a), s, h)
    ensures HolderOp(Step(st, a), s, h, CalledStep(a, s, op))
  {
    Moves(st, a, s, h);
    if !a.JoinBegin? {
      assert Holds(st, s, Source(st, a)) && HolderOp(st, s, Source(st, a), op);
    }
  }

  lemma OpKept(st: State, a: Action, s: Sid, op: Op)
    requires Inv(st) && OpInv(st, s, op) && Enabled(st, a)
    ensures OpInv(Step(st, a), s, CalledStep(a, s, op))
  {
    forall h | Holds(Step(st, a), s, h) ensures HolderOp(Step(st, a), s, h, CalledStep(a, s, op)) {
      if s in Mover(st, a) {
        MoverOp(st, a, s, op, h);
      } else {
        OthersOp(st, a, s, op, h);
      }
    }
  }

  lemma {:induction false} OpOfRun(st: State, acts: seq<Action>, s: Sid, op: Op)
    requires Inv(st) && OpInv(st, s, op) && Run(st, acts)
    ensures OpInv(End(st, acts), s, Called(acts, s, op))
    decreases |acts|
  {
    if acts == [] {
    } else {
      InvKept(st, acts[0]);
      OpKept(st, acts[0], s, op);
      OpOfRun(Step(st, acts[0]), acts[1..], s, CalledStep(acts[0], s, op));
    }
  }

  // ---- the packages of one session ----

  /** What the step decides shall be put for the session: connected when it joins, the
      outcome of an operation that is over, the error of one that has failed, and
      disconnected when its socket is closed; outcomes and errors only while the
      socket is open. */
  function Due(st: State, a: Action, s: Sid): seq<Status>
    requires Enabled(st, a)
  {
    match a
    case JoinBegin(_) => if s == st.next then [Connected] else []
    case Handle(t, again, status) =>
      if again || st.pcs[t].s != s || s !in st.open then []
      else if st.pcs[t].op.Send? then [SendFinished] else [status]
    case Fail(t) =>
      if st.pcs[t].s != s || s !in st.open then []
      else if st.pcs[t].op.Send? then [SendError] else [RecvError]
    case Close(t) => if st.pcs[t].s == s then [Disconnected] else []
    case _ => []
  }

  function AllDue(st: State, acts: seq<Action>, s: Sid): seq<Status>
    requires Run(st, acts)
    decreases |acts|
  {
    if acts == [] then [] else Due(st, acts[0], s) + AllDue(Step(st, acts[0]), acts[1..], s)
  }

  /** The packages put for the session. */
  function PutFor(log: seq<Package>, s: Sid): seq<Status> {
    if log == [] then []
    else PutFor(log[..|log| - 1], s) + if log[|log| - 1].sid == s then [log[|log| - 1].status] else []
  }

  lemma PutForAppend(log: seq<Package>, p: Package, s: Sid)
    ensures PutFor(log + [p], s) == PutFor(log, s) + if p.sid == s then [p.status] else []
  {
    assert (log + [p])[..|log|] == log;
  }

  /** What a thread has decided to put and has not put yet. */
  function Owed(pc: Pc, s: Sid): seq<Status> {
    match pc
    case JoinPut(s') => if s' == s then [Connected] else []
    case Notifying(s', status) => if s' == s then [status] else []
    case ErrorPut(s', op) => if s' == s then [ErrorOf(op)] else []
    case DiscPut(s') => if s' == s then [Disconnected] else []
    case _ => []
  }

  /** `owed` is what one thread owes the session, or nothing if nobody owes it anything. */
  ghost predicate OwedBySomeone(st: State, s: Sid, owed: seq<Status>) {
    && (forall t :: At(st, t) && Owed(st.pcs[t], s) != [] ==> Owed(st.pcs[t], s) == owed)
    && (owed != [] ==> exists t :: At(st, t) && Owed(st.pcs[t], s) == owed)
  }

  lemma OwedByMover(st: State, a: Action, s: Sid, owed: seq<Status>, t: int)
    requires Inv(st) && Enabled(st, a) && s in Mover(st, a) && OwedBySomeone(st, s, owed)
    requires At(st, t) && Owed(st.pcs[t], s) != []
    ensures !a.JoinBegin? && Source(st, a) == InThread(t)
  {
    assert Holds(st, s, InThread(t));
    if !a.JoinBegin? {
      SourceHolds(st, a, s, InThread(t));
    }
  }

  lemma OthersPutNothing(st: State, a: Action, s: Sid)
    requires Inv(st) && Enabled(st, a) && s !in Mover(st, a)
    ensures PutFor(Step(st, a).log, s) == PutFor(st.log, s)
  {
    if |Step(st, a).log| > |st.log| {
      PutterHolds(st, a);
      PutForAppend(st.log, Step(st, a).log[|st.log|], s);
    } else {
      assert Step(st, a).log == st.log by { LogGrows(st, a, Package(s, Connected)); }
    }
  }

  lemma OwedStays(st: State, a: Action, s: Sid, owed: seq<Status>)
    requires Enabled(st, a) && OwedBySomeone(st, s, owed) && s !in Mover(st, a)
    ensures OwedBySomeone(Step(st, a), s, owed) && Due(st, a, s) == []
  {
    forall t | At(st, t) ensures Owed(Step(st, a).pcs[t], s) == Owed(st.pcs[t], s) {
      OthersOwe(st, a, s, t);
    }
  }

  lemma OthersOwe(st: State, a: Action, s: Sid, t: int)
    requires Enabled(st, a) && s !in Mover(st, a) && At(st, t)
    ensures Owed(Step(st, a).pcs[t], s) == Owed(st.pcs[t], s)
  {
  }

  /** A thread that owes the session a package puts it in its next step. */
  lemma OwedPaid(st: State, a: Action, s: Sid, owed: seq<Status>)
    requires Inv(st) && Enabled(st, a) && OwedBySomeone(st, s, owed) && s in Mover(st, a) && owed != []
    ensures a.JoinConnected? || a.Notify? || a.PutError? || a.PutDisconnected?
    ensures At(st, a.t) && Owed(st.pcs[a.t], s) == owed
    ensures forall t :: At(st, t) && t != a.t ==> Owed(st.pcs[t], s) == []
  {
    var t :| At(st, t) && Owed(st.pcs[t], s) == owed;
    OwedByMover(st, a, s, owed, t);
    forall u | At(st, u) && Owed(st.pcs[u], s) != [] ensures u == t {
      OwedByMover(st, a, s, owed, u);
    }
  }

  lemma PaidIsPut(st: State, a: Action, s: Sid, owed: seq<Status>)
    requires a.JoinConnected? || a.Notify? || a.PutError? || a.PutDisconnected?
    requires Enabled(st, a) && At(st, a.t) && Owed(st.pcs[a.t], s) == owed != []
    requires forall t :: At(st, t) && t != a.t ==> Owed(st.pcs[t], s) == []
    ensures OwedBySomeone(Step(st, a), s, []) && Due(st, a, s) == []
    ensures PutFor(Step(st, a).log, s) == PutFor(st.log, s) + owed
  {
    PutForAppend(st.log, Package(s, owed[0]), s);
    assert Step(st, a).log == st.log + [Package(s, owed[0])];
  }

  /** Where nothing is owed nothing is put for the session, and what is decided is owed. */
  lemma OwedIncurred(st: State, a: Action, s: Sid)
    requires Inv(st) && Enabled(st, a) && OwedBySomeone(st, s, []) && s in Mover(st, a)
    ensures OwedBySomeone(Step(st, a), s, Due(st, a, s))
    ensures Step(st, a).log == st.log
  {
    forall t | At(st, t) ensures Owed(st.pcs[t], s) == [] {
    }
    NothingOwedNothingPut(st, a, s);
    DueIsOwed(st, a, s);
  }

  lemma DueIsOwed(st: State, a: Action, s: Sid)
    requires Enabled(st, a) && s in Mover(st, a) && forall t :: At(st, t) ==> Owed(st.pcs[t], s) == []
    ensures OwedBySomeone(Step(st, a), s, Due(st, a, s))
  {
    if a.JoinBegin? || a.Handle? || a.Fail? || a.Close? {
      assert Owed(Step(st, a).pcs[a.t], s) == Due(st, a, s);
    }
  }

  lemma NothingOwedNothingPut(st: State, a: Action, s: Sid)
    requires Inv(st) && Enabled(st, a) && s in Mover(st, a)
    requires forall t :: At(st, t) ==> Owed(st.pcs[t], s) == []
    ensures Step(st, a).log == st.log
  {
    LogGrows(st, a, Package(s, Connected));
    if |Step(st, a).log| > |st.log| {
      PutterHolds(st, a);
    }
  }

  /** The step of the session's own token: it puts what is owed, or decides what shall be. */
  lemma OwedMoves(st: State, a: Action, s: Sid, owed: seq<Status>)
    requires Inv(st) && Enabled(st, a) && OwedBySomeone(st, s, owed) && s in Mover(st, a)
    ensures OwedBySomeone(Step(st, a), s, if owed != [] then [] else Due(st, a, s))
    ensures owed != [] ==> Due(st, a, s) == []
    ensures PutFor(Step(st, a).log, s) == PutFor(st.log, s) + owed
  {
    if owed != [] {
      OwedPaid(st, a, s, owed);
      PaidIsPut(st, a, s, owed);
    } else {
      OwedIncurred(st, a, s);
      assert PutFor(st.log, s) + [] == PutFor(st.log, s);
    }
  }

  /** One step of either kind. */
  lemma OwedStep(st: State, a: Action, s: Sid, owed: seq<Status>) returns (owed': seq<Status>)
    requires Inv(st) && Enabled(st, a) && OwedBySomeone(st, s, owed)
    ensures OwedBySomeone(Step(st, a), s, owed')
    ensures PutFor(st.log, s) + owed + Due(st, a, s) == PutFor(Step(st, a).log, s) + owed'
  {
    if s in Mover(st, a) {
      owed' := if owed != [] then [] else Due(st, a, s);
      OwedMoves(st, a, s, owed);
    } else {
      owed' := owed;
      OwedStays(st, a, s, owed);
      OthersPutNothing(st, a, s);
    }
  }

  lemma Regroup<T>(a: seq<T>, b: seq<T>, c: seq<T>)
    ensures a + (b + c) == a + b + c
  {
  }

  lemma {:induction false} DueIsPut(st: State, acts: seq<Action>, s: Sid, owed: seq<Status>)
    returns (left: seq<Status>)
    requires Inv(st) && Run(st, acts) && OwedBySomeone(st, s, owed)
    ensures OwedBySomeone(End(st, acts), s, left)
    ensures PutFor(st.log, s) + owed + AllDue(st, acts, s) == PutFor(End(st, acts).log, s) + left
    decreases |acts|
  {
    if acts == [] {
      left := owed;
      assert PutFor(st.log, s) + owed + [] == PutFor(st.log, s) + owed;
    } else {
      InvKept(st, acts[0]);
      var owed' := OwedStep(st, acts[0], s, owed);
      left := DueIsPut(Step(st, acts[0]), acts[1..], s, owed');
      Regroup(PutFor(st.log, s) + owed, Due(st, acts[0], s), AllDue(Step(st, acts[0]), acts[1..], s));
    }
  }

  // ---- what the application hears ----

  /** The virtual functions these decisions are meant for. */
  function Heard(st: State, a: Action, s: Sid): seq<Handler>
    requires Enabled(st, a)
  {
    match a
    case JoinBegin(_) => if s == st.next then [OnConnected] else []
    case Handle(t, again, status) =>
      if again || st.pcs[t].s != s || s !in st.open then []
      else if st.pcs[t].op.Send? then [OnSendFinished]
      else if status.RecvFinished? then [OnRecvFinished]
      else if status.RecvFailed? then [OnRecvFailed]
      else [OnProtocolError]
    case Fail(t) =>
      if st.pcs[t].s != s || s !in st.open then []
      else if st.pcs[t].op.Send? then [OnSendError] else [OnRecvError]
    case Close(t) => if st.pcs[t].s == s then [OnDisconnected] else []
    case _ => []
  }

  function AllHeard(st: State, acts: seq<Action>, s: Sid): seq<Handler>
    requires Run(st, acts)
    decreases |acts|
  {
    if acts == [] then [] else Heard(st, acts[0], s) + AllHeard(Step(st, acts[0]), acts[1..], s)
  }

  function Handlers(statuses: seq<Status>): (hs: seq<Handler>)
    ensures |hs| == |statuses| && forall i :: 0 <= i < |hs| ==> hs[i] == HandlerOf(statuses[i])
  {
    seq(|statuses|, i requires 0 <= i < |statuses| => HandlerOf(statuses[i]))
  }

  lemma HandlersConcat(a: seq<Status>, b: seq<Status>)
    ensures Handlers(a + b) == Handlers(a) + Handlers(b)
  {
  }

  lemma StepIsHeard(st: State, a: Action, s: Sid)
    requires Enabled(st, a)
    ensures Handlers(Due(st, a, s)) == Heard(st, a, s)
  {
  }

  lemma {:induction false} DueIsHeard(st: State, acts: seq<Action>, s: Sid)
    requires Run(st, acts)
    ensures Handlers(AllDue(st, acts, s)) == AllHeard(st, acts, s)
    decreases |acts|
  {
    if acts == [] {
    } else {
      DueIsHeard(Step(st, acts[0]), acts[1..], s);
      StepIsHeard(st, acts[0], s);
      HandlersConcat(Due(st, acts[0], s), AllDue(Step(st, acts[0]), acts[1..], s));
    }
  }

  lemma {:induction false} PutForPrefix(log: seq<Package>, d: int, s: Sid)
    requires 0 <= d <= |log|
    ensures PutFor(log[..d], s) <= PutFor(log, s)
    decreases |log|
  {
    if d == |log| {
      assert log[..d] == log;
    } else {
      var before := log[..|log| - 1];
      PutForPrefix(before, d, s);
      assert before[..d] == log[..d];
    }
  }

  // ---- the consumer's count ----

  /** The sessions connected and not disconnected after these packages. */
  function Live(log: seq<Package>): set<Sid> {
    if log == [] then {}
    else
      var p, before := log[|log| - 1], Live(log[..|log| - 1]);
      if p.status.Connected? then before + {p.sid}
      else if p.status.Disconnected? then before - {p.sid}
      else before
  }

  lemma {:induction false} LiveMeaning(log: seq<Package>, s: Sid)
    requires Ordered(log)
    ensures s in Live(log) <==> Package(s, Connected) in log && Package(s, Disconnected) !in log
  {
    if log == [] {
    } else {
      var k := |log| - 1;
      OrderedPrefix(log, k);
      LiveMeaning(log[..k], s);
      LastIn(log, Package(s, Connected));
      LastIn(log, Package(s, Disconnected));
    }
  }

  lemma LastIn(log: seq<Package>, p: Package)
    requires Ordered(log) && log != []
    ensures var k := |log| - 1;
      && (p in log <==> p in log[..k] || p == log[k])
      && (p in log[..k] && log[k].sid == p.sid ==> !p.status.Disconnected? && !log[k].status.Connected?)
  {
    var k := |log| - 1;
    assert log == log[..k] + [log[k]];
    if p in log[..k] {
      var i :| 0 <= i < k && log[..k][i] == p;
      assert log[i] == p;
    }
  }

  lemma OrderedPrefix(log: seq<Package>, k: int)
    requires Ordered(log) && 0 <= k <= |log|
    ensures Ordered(log[..k])
  {
    assert forall i :: 0 <= i < k ==> log[..k][..i] == log[..i];
  }

  predicate CountInv(st: State) {
    st.dispatched <= |st.log| && st.connectCount == |Live(st.log[..st.dispatched])|
  }

  /** One more package changes the set of live sessions as the loop counts it. */
  lemma LiveCounts(log: seq<Package>, p: Package)
    requires Ordered(log + [p])
    ensures |Live(log + [p])| == CountAfter(|Live(log)|, p.status)
  {
    var all := log + [p];
    assert all[..|log|] == log && all[|log|] == p;
    OrderedPrefix(all, |log|);
    LiveMeaning(log, p.sid);
    LastIn(all, Package(p.sid, Connected));
    LastIn(all, Package(p.sid, Disconnected));
    assert !p.status.Connected? ==> Package(p.sid, Connected) in all[..|log|];
  }

  lemma DispatchCounts(log: seq<Package>, d: int)
    requires Ordered(log) && 0 <= d < |log|
    ensures |Live(log[..d + 1])| == CountAfter(|Live(log[..d])|, log[d].status)
  {
    assert log[..d + 1] == log[..d] + [log[d]];
    OrderedPrefix(log, d + 1);
    LiveCounts(log[..d], log[d]);
  }

  lemma OnlyDispatchCounts(st: State, a: Action)
    requires Enabled(st, a) && !a.Dispatch?
    ensures var st' := Step(st, a);
      st.log <= st'.log && st'.dispatched == st.dispatched && st'.connectCount == st.connectCount
  {
  }

  lemma CountKept(st: State, a: Action)
    requires Ordered(st.log) && CountInv(st) && Enabled(st, a)
    ensures CountInv(Step(st, a))
  {
    if a.Dispatch? {
      DispatchCounts(st.log, st.dispatched);
    } else {
      OnlyDispatchCounts(st, a);
      assert Step(st, a).log[..st.dispatched] == st.log[..st.dispatched];
    }
  }

  // ---- the package queue ----

  /** The state of a queueT with one consumer after the same puts and dispatches. */
  predicate Queued(st: State, q: QueueT.System<Package>) {
    && q.q.count == |q.q.items| && !q.q.stop && q.pcs == [QueueT.Out]
    && st.dispatched <= |st.log| && q.putLog == st.log
    && q.gotLog == st.log[..st.dispatched] && q.q.items == st.log[st.dispatched..]
  }

  /** What the step does to the queue. */
  function QueueActions(st: State, a: Action): seq<QueueT.Action<Package>>
    requires Enabled(st, a)
  {
    var log' := Step(st, a).log;
    if a.Dispatch? then [QueueT.Get(0, true)]
    else if |log'| > |st.log| then [QueueT.Put(log'[|st.log|])]
    else []
  }

  lemma QueuedStep(st: State, a: Action, q: QueueT.System<Package>)
    requires Queued(st, q) && Enabled(st, a)
    ensures var qs := QueueActions(st, a);
      if qs == [] then Queued(Step(st, a), q)
      else |qs| == 1 && QueueT.Enabled(q, qs[0]) && Queued(Step(st, a), QueueT.Step(q, qs[0]))
  {
    var st', qs := Step(st, a), QueueActions(st, a);
    if qs != [] {
      var q' := QueueT.Step(q, qs[0]);
      if a.Dispatch? {
        assert q'.gotLog == st.log[..st.dispatched] + [st.log[st.dispatched]] == st'.log[..st'.dispatched];
        assert q'.q.items == st.log[st.dispatched..][1..] == st'.log[st'.dispatched..];
      } else {
        var d, p := st.dispatched, st'.log[|st.log|];
        assert st'.log == st.log + [p];
        assert st'.log[..d] == st.log[..d] && st'.log[d..] == st.log[d..] + [p];
      }
    } else {
      assert st'.log == st.log;
    }
  }

  /** Every run drives queueT itself, as its one consumer: the packages put are those
      of `log`, and each is taken once and in order. */
  lemma {:induction false} RunDrivesQueue(st: State, acts: seq<Action>, q: QueueT.System<Package>)
    returns (qs: seq<QueueT.Action<Package>>)
    requires Queued(st, q) && Run(st, acts)
    ensures QueueT.Run(q, qs) && Queued(End(st, acts), QueueT.End(q, qs))
    decreases |acts|
  {
    if acts == [] {
      qs := [];
    } else {
      var now := QueueActions(st, acts[0]);
      QueuedStep(st, acts[0], q);
      var q' := if now == [] then q else QueueT.Step(q, now[0]);
      var later := RunDrivesQueue(Step(st, acts[0]), acts[1..], q');
      qs := now + later;
      assert now == [] ==> qs == later;
      assert now != [] ==> qs[0] == now[0] && qs[1..] == later;
    }
  }

  /** Hence what queueT promises holds of the packages: those dispatched and those
      still queued are those put, each once and in order. */
  lemma PackagesDispatchedInOrder(threads: nat, acts: seq<Action>) returns (qs: seq<QueueT.Action<Package>>)
    requires Run(Init(threads), acts)
    ensures var q0, st := QueueT.Init<Package>(1), End(Init(threads), acts);
      && QueueT.Run(q0, qs)
      && var q := QueueT.End(q0, qs);
      && st.log == q.putLog == q.gotLog + q.q.items
      && st.dispatched == |q.gotLog| && st.log[..st.dispatched] == q.gotLog
  {
    var q0 := QueueT.Init<Package>(1);
    qs := RunDrivesQueue(Init(threads), acts, q0);
    QueueT.Fifo(q0, qs);
  }

  // ---- the results ----

  lemma InitHolds(threads: nat)
    ensures Inv(Init(threads)) && OpenInv(Init(threads)) && CountInv(Init(threads))
  {
  }

  /** Any number of sessions and threads, any interleaving of completions, partial
      sends, failures, quits and closed sockets: the packages of a session start
      with connected, and disconnected is the last of them. After it nothing is
      left in the kernel, in a thread, in the queue or with the application that
      could produce another. */
  lemma DisconnectedIsLast(threads: nat, acts: seq<Action>, i: int, j: int, h: Holder)
    requires Run(Init(threads), acts)
    requires 0 <= i < |End(Init(threads), acts).log| && i <= j < |End(Init(threads), acts).log|
    requires End(Init(threads), acts).log[i].sid == End(Init(threads), acts).log[j].sid
    ensures var st := End(Init(threads), acts);
      && (st.log[j].status.Connected? <==> j == i && forall k :: 0 <= k < i ==> st.log[k].sid != st.log[i].sid)
      && (st.log[i].status.Disconnected? ==> i == j && !Holds(st, st.log[i].sid, h))
  {
    InitHolds(threads);
    RunKeeps(Init(threads), acts);
    var st := End(Init(threads), acts);
    if st.log[i].status.Disconnected? {
      assert st.log[i] == Package(st.log[i].sid, Disconnected);
    }
  }

  /** At no moment can two things be going on for one session, and while its
      socket is open exactly one is. */
  lemma SingleToken(threads: nat, acts: seq<Action>, s: Sid, h: Holder, h': Holder)
    requires Run(Init(threads), acts)
    ensures var st := End(Init(threads), acts);
      && (Holds(st, s, h) && Holds(st, s, h') ==> h == h')
      && (s in st.open ==> exists g :: Holds(st, s, g))
  {
    InitHolds(threads);
    RunKeeps(Init(threads), acts);
  }

  /** Why a session ends is what it is told. An error package comes only from a failed
      operation of its kind that found the socket open, and is followed by nothing but
      disconnected, so there is at most one. Once disconnected is put, the session
      failed or quit, and the error is there if and only if the operation failed and the
      socket was open then; a session that quit has none. */
  lemma ErrorsExact(threads: nat, acts: seq<Action>, s: Sid)
    requires Run(Init(threads), acts)
    ensures var st, c := End(Init(threads), acts), CauseOf(Init(threads), acts, s, NotYet);
      && ErrorNearlyLast(st.log, s)
      && (Package(s, SendError) in st.log ==> c == Failed(Send, Open))
      && (Package(s, RecvError) in st.log ==> c == Failed(Recv, Open))
      && (Package(s, Disconnected) in st.log ==>
            && !c.NotYet? && (c.Failed? ==> !c.told.Unlooked?)
            && (Package(s, SendError) in st.log <==> c == Failed(Send, Open))
            && (Package(s, RecvError) in st.log <==> c == Failed(Recv, Open)))
  {
    InitHolds(threads);
    CauseOfRun(Init(threads), acts, s, NotYet);
    RunKeeps(Init(threads), acts);
  }

  /** What the kernel or a thread has in hand for a session is the operation that the
      application called last. */
  lemma OperationsMatch(threads: nat, acts: seq<Action>, s: Sid, op: Op)
    requires Run(Init(threads), acts)
    ensures OpInv(End(Init(threads), acts), s, Called(acts, s, op))
  {
    InitHolds(threads);
    OpOfRun(Init(threads), acts, s, op);
  }

  /** The package a notification of session_ioT puts. */
  function StatusOf(n: SessionIo.Notice): Status {
    match n
    case SendFinished => Status.SendFinished
    case RecvFinished => Status.RecvFinished
    case RecvFailed => Status.RecvFailed
    case ProtocolFault => Status.ProtocolError
    case SendError => Status.SendError
    case RecvError => Status.RecvError
    case Disconnected => Status.Disconnected
  }

  /** A completion handled by session_ioT notifies of one outcome of its operation, or of
      nothing while it goes on, or of the error and the end. */
  lemma NoticesAreOutcomes(s: seq<Byte>, cap: int, userLen: int, last: bool, postOk: bool)
    ensures var recv := SessionIo.RecvNotices(s, cap, userLen, postOk);
      if !Framing.FrontOf(s, cap).Incomplete? then |recv| == 1 && Outcome(Recv, StatusOf(recv[0]))
      else if postOk then recv == []
      else |recv| == 2 && StatusOf(recv[0]) == ErrorOf(Recv) && StatusOf(recv[1]) == Status.Disconnected
    ensures var send := SessionIo.AckNotices(last, postOk);
      if last then |send| == 1 && Outcome(Send, StatusOf(send[0]))
      else if postOk then send == []
      else |send| == 2 && StatusOf(send[0]) == ErrorOf(Send) && StatusOf(send[1]) == Status.Disconnected
  {
  }

  /** If its owner does not close its socket, a failed session is told of the failure
      before it is disconnected. */
  lemma FailureIsTold(threads: nat, acts: seq<Action>, s: Sid)
    requires Run(Init(threads), acts) && OwnerClose(s) !in acts
    ensures var st, c := End(Init(threads), acts), CauseOf(Init(threads), acts, s, NotYet);
      Package(s, Disconnected) in st.log && c.Failed? ==> Package(s, ErrorOf(c.op)) in st.log
  {
    InitHolds(threads);
    StillOpenRun(Init(threads), acts, s, NotYet);
    ErrorsExact(threads, acts, s);
    CauseOfRun(Init(threads), acts, s, NotYet);
  }

  /** The packages of a session are exactly what its steps decide, in that order: at most
      the last one is still with the thread that will put it. */
  lemma PackagesExact(threads: nat, acts: seq<Action>, s: Sid)
    requires Run(Init(threads), acts)
    ensures var st, due := End(Init(threads), acts), AllDue(Init(threads), acts, s);
      && PutFor(st.log, s) <= due
      && OwedBySomeone(st, s, due[|PutFor(st.log, s)|..])
  {
    InitHolds(threads);
    var left := DueIsPut(Init(threads), acts, s, []);
    var due := AllDue(Init(threads), acts, s);
    assert [] + [] + due == due;
    var put := PutFor(End(Init(threads), acts).log, s);
    assert due == put + left;
  }

  /** The application hears of a session exactly what has happened to it, in that order:
      on_send_finished after a send, on_recv_finished, on_recv_failed or
      on_protocol_error after a recv, the error handler of the operation that failed. */
  lemma HandlersExact(threads: nat, acts: seq<Action>, s: Sid)
    requires Run(Init(threads), acts)
    ensures var st := End(Init(threads), acts);
      && st.dispatched <= |st.log|
      && Handlers(PutFor(st.log[..st.dispatched], s)) <= AllHeard(Init(threads), acts, s)
  {
    InitHolds(threads);
    RunKeeps(Init(threads), acts);
    PackagesExact(threads, acts, s);
    DueIsHeard(Init(threads), acts, s);
    var st := End(Init(threads), acts);
    PutForPrefix(st.log, st.dispatched, s);
  }

  /** A session is stranded exactly when an operation of it came to its end after the
      owner had closed its socket. */
  lemma StrandedIff(threads: nat, acts: seq<Action>, s: Sid)
    requires Run(Init(threads), acts)
    ensures var st := End(Init(threads), acts);
      && (Stranded(st, s) <==> Dropped(Init(threads), acts, s))
      && (Stranded(st, s) && !Pushing(st, s) ==> s in st.list)
  {
    InitHolds(threads);
    RunKeeps(Init(threads), acts);
    FateOfRun(Init(threads), acts, s, false);
    assert JoinedList(End(Init(threads), acts), s);
  }

  lemma {:induction false} RunConcat(st: State, first: seq<Action>, second: seq<Action>)
    requires Run(st, first) && Run(End(st, first), second)
    ensures Run(st, first + second) && End(st, first + second) == End(End(st, first), second)
    decreases |first|
  {
    if first == [] {
      assert [] + second == second;
    } else {
      RunConcat(Step(st, first[0]), first[1..], second);
      assert (first + second)[1..] == first[1..] + second;
    }
  }

  lemma RunOne(st: State, a: Action)
    requires Enabled(st, a)
    ensures Run(st, [a]) && End(st, [a]) == Step(st, a)
  {
    assert [a][1..] == [];
  }

  /** Session 0 is joined, the application has been told and is about to post a recv. */
  predicate RecvCalled(st: State) {
    && |st.pcs| >= 2 && st.pcs[0] == Handling(0, Recv) && st.pcs[1] == Idle
    && (forall t :: 1 < t < |st.pcs| ==> st.pcs[t] == Idle)
    && st.kernel == {} && st.log == [Package(0, Connected)] && st.dispatched == 1 && st.granted == {}
    && st.open == {0} && st.list == [0]
  }

  predicate JoinDone(st: State) {
    && |st.pcs| >= 2 && (forall t :: 0 <= t < |st.pcs| ==> st.pcs[t] == Idle)
    && st.kernel == {} && st.log == [Package(0, Connected)] && st.dispatched == 0 && st.granted == {}
    && st.open == {0} && st.list == [0]
  }

  lemma JoinFirst(threads: nat) returns (acts: seq<Action>)
    requires threads >= 2
    ensures Run(Init(threads), acts) && JoinDone(End(Init(threads), acts))
  {
    var s0 := Init(threads);
    var s1 := Step(s0, JoinBegin(1));
    var s2 := Step(s1, JoinConnected(1));
    RunOne(s0, JoinBegin(1));
    RunOne(s1, JoinConnected(1));
    RunConcat(s0, [JoinBegin(1)], [JoinConnected(1)]);
    RunOne(s2, JoinPushed(1));
    acts := [JoinBegin(1)] + [JoinConnected(1)];
    RunConcat(s0, acts, [JoinPushed(1)]);
    acts := acts + [JoinPushed(1)];
  }

  lemma CallRecv(s0: State) returns (acts: seq<Action>)
    requires JoinDone(s0)
    ensures Run(s0, acts) && RecvCalled(End(s0, acts))
  {
    var s1 := Step(s0, Dispatch);
    RunOne(s0, Dispatch);
    RunOne(s1, AppRecv(0));
    RunConcat(s0, [Dispatch], [AppRecv(0)]);
    acts := [Dispatch] + [AppRecv(0)];
  }

  /** The recv is posted and the owner has closed the socket. */
  predicate ClosedOnRecv(st: State) {
    && |st.pcs| >= 2 && (forall t :: 0 <= t < |st.pcs| ==> st.pcs[t] == Idle)
    && st.kernel == {(0, Recv)} && st.log == [Package(0, Connected)] && st.dispatched == 1 && st.granted == {}
    && st.open == {} && st.list == [0]
  }

  lemma PostAndClose(s0: State) returns (acts: seq<Action>)
    requires RecvCalled(s0)
    ensures Run(s0, acts) && ClosedOnRecv(End(s0, acts))
  {
    var again := Handle(0, true, RecvFinished);
    var s1 := Step(s0, again);
    var s2 := Step(s1, Post(0, true));
    RunOne(s0, again);
    RunOne(s1, Post(0, true));
    RunConcat(s0, [again], [Post(0, true)]);
    RunOne(s2, OwnerClose(0));
    acts := [again] + [Post(0, true)];
    RunConcat(s0, acts, [OwnerClose(0)]);
    acts := acts + [OwnerClose(0)];
  }

  /** The message arrives all the same, and nobody is told. */
  lemma ReceivesInVain(s0: State) returns (acts: seq<Action>)
    requires ClosedOnRecv(s0)
    ensures Run(s0, acts) && Stranded(End(s0, acts), 0) && 0 in End(s0, acts).list
  {
    var pick, over := Pick(1, 0, Recv, false), Handle(1, false, RecvFinished);
    var s1 := Step(s0, pick);
    RunOne(s0, pick);
    RunOne(s1, over);
    RunConcat(s0, [pick], [over]);
    acts := [pick] + [over];
  }

  /** A session joined, told so and waiting for a message when the owner closes its
      socket: once the message has come it is stranded in the list. */
  lemma OwnerCloseStrands(threads: nat) returns (acts: seq<Action>)
    requires threads >= 2
    ensures Run(Init(threads), acts) && Stranded(End(Init(threads), acts), 0) && 0 in End(Init(threads), acts).list
  {
    acts := JoinFirst(threads);
    var next := CallRecv(End(Init(threads), acts));
    RunConcat(Init(threads), acts, next);
    acts := acts + next;
    next := PostAndClose(End(Init(threads), acts));
    RunConcat(Init(threads), acts, next);
    acts := acts + next;
    next := ReceivesInVain(End(Init(threads), acts));
    RunConcat(Init(threads), acts, next);
    acts := acts + next;
  }

  /** The boss list is always the sessions joined and not yet removed, each once,
      and session_remove always finds its session. */
  lemma BossListAgrees(threads: nat, acts: seq<Action>, s: Sid, t: int)
    requires Run(Init(threads), acts)
    ensures var st := End(Init(threads), acts);
      && Distinct(st.list)
      && (s in st.list <==> Package(s, Connected) in st.log && !Pushing(st, s) && s !in st.removed)
      && (Enabled(st, Remove(t)) ==> st.pcs[t].s in st.list)
      && (s in st.removed ==> Package(s, Disconnected) in st.log)
  {
    InitHolds(threads);
    RunKeeps(Init(threads), acts);
    var st := End(Init(threads), acts);
    assert JoinedList(st, s);
    if Enabled(st, Remove(t)) {
      RemoveFinds(st, t);
    }
  }

  lemma RemoveFinds(st: State, t: int)
    requires LogInv(st) && BossInv(st) && Enabled(st, Remove(t))
    ensures st.pcs[t].s in st.list
  {
    var r := st.pcs[t].s;
    assert JoinedList(st, r);
    var i :| 0 <= i < |st.log| && st.log[i] == Package(r, Disconnected);
    assert Package(st.log[i].sid, Connected) in st.log[..i];
  }

  /** The loop's count is the number of sessions whose connected package it has
      dispatched and whose disconnected package it has not. */
  lemma ConnectCountIsExact(threads: nat, acts: seq<Action>, s: Sid)
    requires Run(Init(threads), acts)
    ensures var st := End(Init(threads), acts);
      && st.dispatched <= |st.log| && 0 <= st.connectCount == |Live(st.log[..st.dispatched])|
      && (s in Live(st.log[..st.dispatched]) <==>
            Package(s, Connected) in st.log[..st.dispatched] && Package(s, Disconnected) !in st.log[..st.dispatched])
  {
    InitHolds(threads);
    RunKeeps(Init(threads), acts);
    var st := End(Init(threads), acts);
    OrderedPrefix(st.log, st.dispatched);
    LiveMeaning(st.log[..st.dispatched], s);
  }

  /** A loop that quits when its count is 0 leaves nobody it has seen connected: not even
      one of several sessions whose connected packages were all put before it began. */
  lemma NobodyLeftAtZero(threads: nat, acts: seq<Action>, s: Sid)
    requires Run(Init(threads), acts) && End(Init(threads), acts).connectCount == 0
    ensures var st := End(Init(threads), acts);
      && st.dispatched <= |st.log|
      && (Package(s, Connected) in st.log[..st.dispatched] ==>
            Package(s, Disconnected) in st.log[..st.dispatched] && forall h :: !Holds(st, s, h))
  {
    ConnectCountIsExact(threads, acts, s);
    InitHolds(threads);
    RunKeeps(Init(threads), acts);
    var st := End(Init(threads), acts);
    assert Live(st.log[..st.dispatched]) == {};
    assert Package(s, Disconnected) in st.log[..st.dispatched] ==> Package(s, Disconnected) in st.log;
  }
}
