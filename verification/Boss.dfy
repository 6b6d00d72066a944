/** iocp_session_boss and iocp_loop as the objects they are: the list of joined
    sessions, and the consumer that takes one package at a time. */
module Boss {
  import opened QueueT

  type Sid = nat

  datatype Status =
    | Connected | Disconnected
    | SendFinished | SendFailed | RecvFinished | RecvFailed
    | Noop | SendError | RecvError | ProtocolError | Quitting

  datatype Package = Package(sid: Sid, status: Status)

  /** The list without the first occurrence of `s`. */
  function Erase(list: seq<Sid>, s: Sid): seq<Sid> {
    if list == [] then []
    else if list[0] == s then list[1..]
    else [list[0]] + Erase(list[1..], s)
  }

  predicate Distinct(list: seq<Sid>) {
    forall i, j :: 0 <= i < j < |list| ==> list[i] != list[j]
  }

  lemma {:induction false} EraseRemoves(list: seq<Sid>, s: Sid)
    requires Distinct(list)
    ensures Distinct(Erase(list, s))
    ensures forall x :: x in Erase(list, s) <==> x in list && x != s
  {
    if list == [] {
    } else {
      EraseRemoves(list[1..], s);
      if list[0] != s {
        var e := Erase(list[1..], s);
        assert forall x :: x in [list[0]] + e <==> x == list[0] || x in e;
        assert list[0] !in e;
        assert forall j :: 0 <= j < |e| ==> e[j] in e;
      }
    }
  }

  lemma {:induction false} EraseAt(list: seq<Sid>, s: Sid, k: int)
    requires 0 <= k < |list| && list[k] == s && s !in list[..k]
    ensures Erase(list, s) == list[..k] + list[k + 1..]
  {
    if k == 0 {
    } else {
      assert list[0] in list[..k];
      assert list[1..][..k - 1] == list[..k][1..];
      EraseAt(list[1..], s, k - 1);
    }
  }

  lemma {:induction false} EraseMissing(list: seq<Sid>, s: Sid)
    requires s !in list
    ensures Erase(list, s) == list
  {
    if list == [] {
    } else {
      EraseMissing(list[1..], s);
    }
  }

  class SessionBoss {
    const queue: Queue<Package>
    var sessions: seq<Sid>
    var count: nat

    constructor (q: Queue<Package>)
      ensures queue == q && sessions == [] && count == 0
    {
      queue, sessions, count := q, [], 0;
    }

    /** `portOk`: the completion port took the socket. The number is used up either
        way; only a session that was taken is announced, and then listed. */
    method SessionJoin(portOk: bool) returns (r: int, s: Sid)
      requires queue.Valid()
      modifies this, queue
      ensures queue.Valid() && queue.View() ==
        if portOk then DoPut(old(queue.View()), Package(s, Connected)) else old(queue.View())
      ensures queue.items == old(queue.items) + if portOk && !queue.stop then [Package(s, Connected)] else []
      ensures count == old(count) + 1 && s == old(count)
      ensures sessions == old(sessions) + if portOk then [s] else []
      ensures r == if portOk then 1 else 0
    {
      s := count;
      count := count + 1;
      if portOk {
        var _ := queue.Put(Package(s, Connected));
        sessions := sessions + [s];
        return 1, s;
      }
      return 0, s;
    }

    method SessionRemove(s: Sid) returns (found: bool)
      modifies `sessions
      ensures sessions == Erase(old(sessions), s)
      ensures found <==> s in old(sessions)
    {
      var k := 0;
      while k < |sessions| && sessions[k] != s
        invariant 0 <= k <= |sessions| && s !in sessions[..k]
      {
        k := k + 1;
      }
      if k != |sessions| {
        EraseAt(sessions, s, k);
        sessions := sessions[..k] + sessions[k + 1..];
        return true;
      }
      assert sessions[..k] == sessions;
      EraseMissing(sessions, s);
      return false;
    }
  }

  /** The virtual function a package is handed to. */
  datatype Handler =
    | OnConnected | OnDisconnected | OnSendFinished | OnRecvFinished | OnRecvFailed
    | OnNoop | OnRecvError | OnSendError | OnProtocolError | OnUnhandled | NoHandler

  function HandlerOf(st: Status): Handler {
    match st
    case Connected => OnConnected
    case Disconnected => OnDisconnected
    case SendFinished => OnSendFinished
    case SendFailed => OnUnhandled
    case RecvFinished => OnRecvFinished
    case RecvFailed => OnRecvFailed
    case Noop => OnNoop
    case SendError => OnSendError
    case RecvError => OnRecvError
    case ProtocolError => OnProtocolError
    case Quitting => NoHandler
  }

  /** Every status has its own handler. */
  lemma HandlersDiffer(a: Status, b: Status)
    ensures HandlerOf(a) == HandlerOf(b) ==> a == b
    ensures HandlerOf(Connected) == OnConnected && HandlerOf(Disconnected) == OnDisconnected
    ensures HandlerOf(SendFinished) == OnSendFinished && HandlerOf(SendError) == OnSendError
    ensures HandlerOf(RecvFinished) == OnRecvFinished && HandlerOf(RecvFailed) == OnRecvFailed
    ensures HandlerOf(RecvError) == OnRecvError && HandlerOf(ProtocolError) == OnProtocolError
  {
  }

  function CountAfter(count: int, st: Status): int {
    if st.Connected? then count + 1 else if st.Disconnected? then count - 1 else count
  }

  class Loop {
    const queue: Queue<Package>
    var session: Sid
    var quiting: bool
    var connectCount: int

    constructor (q: Queue<Package>)
      ensures queue == q && !quiting && connectCount == 0
    {
      queue, session, quiting, connectCount := q, 0, false, 0;
    }

    method Peek() returns (b: bool)
      requires queue.Valid()
      ensures b <==> !queue.stop && queue.items != []
    {
      var n := queue.Size();
      return n > 0;
    }

    /** One turn after a successful peek: no wait, the oldest package goes to its
        handler, and only to that. */
    method Tick() returns (h: Handler)
      requires queue.Valid() && !queue.stop && queue.items != []
      modifies this, queue
      ensures queue.Valid() && !queue.stop && queue.items == old(queue.items)[1..]
      ensures var p := old(queue.items)[0];
        && h == HandlerOf(p.status) && session == p.sid
        && connectCount == CountAfter(old(connectCount), p.status)
        && (quiting <==> old(quiting) || p.status.Quitting?)
      ensures var st := old(queue.items)[0].status;
        && (h.OnConnected? <==> st.Connected?) && (h.OnDisconnected? <==> st.Disconnected?)
        && (h.OnSendFinished? <==> st.SendFinished?) && (h.OnSendError? <==> st.SendError?)
        && (h.OnRecvFinished? <==> st.RecvFinished?) && (h.OnRecvFailed? <==> st.RecvFailed?)
        && (h.OnRecvError? <==> st.RecvError?) && (h.OnProtocolError? <==> st.ProtocolError?)
        && (h.OnNoop? <==> st.Noop?) && (h.OnUnhandled? <==> st.SendFailed?) && (h.NoHandler? <==> st.Quitting?)
    {
      var a := queue.Get(true);
      var pack := a.item;
      session := pack.sid;
      match pack.status
      case Quitting => quiting := true; h := NoHandler;
      case Connected => connectCount := connectCount + 1; h := OnConnected;
      case Disconnected => connectCount := connectCount - 1; h := OnDisconnected;
      case SendFinished => h := OnSendFinished;
      case RecvFinished => h := OnRecvFinished;
      case RecvFailed => h := OnRecvFailed;
      case Noop => h := OnNoop;
      case RecvError => h := OnRecvError;
      case SendError => h := OnSendError;
      case ProtocolError => h := OnProtocolError;
      case SendFailed => h := OnUnhandled;
    }
  }
}
