/** A sender and a receiver joined by a byte stream, and two such links used for
    request and reply. */
module Link {
  import opened IoBuffer
  import opened Framing
  import opened Receiver
  import opened Sender

  /** `taken`: how many of the posted bytes the receiver has got. `sent`: the
      messages of all batches posted. `calls`: the user buffer lengths of all
      recv calls made. */
  datatype Link = Link(snd: SendState, rcv: RecvState, taken: nat, sent: seq<seq<Byte>>, calls: seq<int>) {
    function Stream(): seq<Byte> { snd.acked + snd.left }
  }

  /** How many messages have been handed out. */
  function Got(l: Link): nat { |Delivered(l.rcv.log)| }

  const FRESH_LINK := Link(IDLE_SENDER, IDLE_RECEIVER, 0, [], [])

  /** `cap`: size of the receive ring. `sendCap`: size of the send buffer. */
  datatype Sizes = Sizes(sendCap: int, cap: int)

  datatype LinkEvent = Tx(s: SendEvent, msgs: seq<seq<Byte>>) | Rx(r: Event)

  /** Bytes may reach the receiver before the sender hears of it, never before
      they are posted; an acknowledgement covers what has been received. */
  predicate LinkEnabled(l: Link, e: LinkEvent, z: Sizes) {
    match e
    case Tx(s, msgs) =>
      && SendEnabled(l.snd, s)
      && (s.Batch? ==> IsBatch(s.bytes, msgs, z.sendCap))
      && (s.Ack? ==> l.taken <= |l.snd.acked| + s.n)
    case Rx(r) =>
      && Enabled(l.rcv, r, z.cap)
      && (r.Bytes? ==> l.taken + |r.bytes| <= |l.Stream()|
                       && r.bytes == l.Stream()[l.taken..l.taken + |r.bytes|])
  }

  function LinkStep(l: Link, e: LinkEvent, z: Sizes): Link
    requires LinkEnabled(l, e, z)
  {
    match e
    case Tx(s, msgs) => l.(snd := SendStep(l.snd, s), sent := l.sent + if s.Batch? then msgs else [])
    case Rx(r) => l.(rcv := Step(l.rcv, r, z.cap), taken := l.taken + |ArrivedBy(r)|, calls := l.calls + CallOf(r))
  }

  /** Messages a receiver can take, and completions that leave its ring room. */
  predicate LinkFits(l: Link, e: LinkEvent, z: Sizes) {
    match e
    case Tx(s, msgs) => s.Batch? ==> Passable(msgs, z.cap)
    case Rx(r) => Fits(l.rcv, r, z.cap)
  }

  predicate LinkInv(l: Link, z: Sizes) {
    && (l.snd.mode.Idle? ==> l.snd.left == [])
    && IsStream(l.Stream(), l.sent) && Passable(l.sent, z.cap)
    && l.taken <= |l.Stream()|
    && Inv(l.rcv, l.Stream()[..l.taken], l.calls, z.cap)
  }

  /** What a sender step does to the stream. */
  lemma TxStream(l: Link, s: SendEvent, msgs: seq<seq<Byte>>, z: Sizes)
    requires (l.snd.mode.Idle? ==> l.snd.left == []) && LinkEnabled(l, Tx(s, msgs), z)
    ensures LinkStep(l, Tx(s, msgs), z).Stream() == l.Stream() + if s.Batch? then s.bytes else []
    ensures var snd := LinkStep(l, Tx(s, msgs), z).snd; snd.mode.Idle? ==> snd.left == []
  {
    if s.Ack? {
      assert l.snd.left == l.snd.left[..s.n] + l.snd.left[s.n..];
    }
  }

  lemma TxKeeps(l: Link, s: SendEvent, msgs: seq<seq<Byte>>, z: Sizes)
    requires LinkInv(l, z) && LinkEnabled(l, Tx(s, msgs), z) && LinkFits(l, Tx(s, msgs), z)
    ensures LinkInv(LinkStep(l, Tx(s, msgs), z), z)
  {
    var l' := LinkStep(l, Tx(s, msgs), z);
    TxStream(l, s, msgs, z);
    if s.Batch? {
      StreamConcat(l.Stream(), l.sent, s.bytes, msgs);
      assert l'.Stream()[..l.taken] == l.Stream()[..l.taken];
    } else {
      assert l'.Stream() == l.Stream() && l'.sent == l.sent;
    }
  }

  lemma RxArrives(l: Link, r: Event, z: Sizes)
    requires l.taken <= |l.Stream()| && LinkEnabled(l, Rx(r), z)
    ensures l.taken + |ArrivedBy(r)| <= |l.Stream()|
    ensures l.Stream()[..l.taken] + ArrivedBy(r) == l.Stream()[..l.taken + |ArrivedBy(r)|]
  {
  }

  lemma RxKeeps(l: Link, r: Event, z: Sizes)
    requires LinkInv(l, z) && LinkEnabled(l, Rx(r), z) && LinkFits(l, Rx(r), z)
    ensures LinkInv(LinkStep(l, Rx(r), z), z)
  {
    var p, l' := l.Stream()[..l.taken], LinkStep(l, Rx(r), z);
    RxArrives(l, r, z);
    StepKeeps(l.rcv, r, p, l.calls, z.cap);
    assert l'.Stream() == l.Stream() && l'.sent == l.sent;
    assert Inv(l'.rcv, p + ArrivedBy(r), l'.calls, z.cap);
  }

  lemma LinkKeeps(l: Link, e: LinkEvent, z: Sizes)
    requires LinkInv(l, z) && LinkEnabled(l, e, z) && LinkFits(l, e, z)
    ensures LinkInv(LinkStep(l, e, z), z)
  {
    match e
    case Tx(s, msgs) => TxKeeps(l, s, msgs, z);
    case Rx(r) => RxKeeps(l, r, z);
  }

  /** The states a link can reach with messages that fit and a ring never filled. */
  predicate LinkRun(l: Link, es: seq<LinkEvent>, z: Sizes)
    decreases |es|
  {
    es == [] || (LinkEnabled(l, es[0], z) && LinkFits(l, es[0], z) && LinkRun(LinkStep(l, es[0], z), es[1..], z))
  }

  function LinkEnd(l: Link, es: seq<LinkEvent>, z: Sizes): Link
    requires LinkRun(l, es, z)
    decreases |es|
  {
    if es == [] then l else LinkEnd(LinkStep(l, es[0], z), es[1..], z)
  }

  lemma {:induction false} LinkRunKeeps(l: Link, es: seq<LinkEvent>, z: Sizes)
    requires LinkInv(l, z) && LinkRun(l, es, z)
    ensures LinkInv(LinkEnd(l, es, z), z)
    decreases |es|
  {
    if es == [] {
    } else {
      LinkKeeps(l, es[0], z);
      LinkRunKeeps(LinkStep(l, es[0], z), es[1..], z);
    }
  }

  lemma LinkDelivers(l: Link, z: Sizes)
    requires LinkInv(l, z)
    ensures Delivered(l.rcv.log) <= l.sent && ProtocolError !in l.rcv.log
    ensures FrameBytes(Delivered(l.rcv.log)) + |l.rcv.ring| == l.taken
    ensures |l.Stream()| == FrameBytes(l.sent)
    ensures l.taken == |l.Stream()| && LargeCalls(l.calls, l.sent) >= |l.sent| ==> Delivered(l.rcv.log) == l.sent
  {
    var p := l.Stream()[..l.taken];
    InvMeansInStep(l.rcv, p, l.calls, z.cap);
    ParsePrefix(l.Stream(), p, l.sent, l.calls, z.cap);
    ParseConserves(p, l.calls, z.cap);
    StreamLength(l.Stream(), l.sent);
    if l.taken == |l.Stream()| && LargeCalls(l.calls, l.sent) >= |l.sent| {
      assert p == l.Stream();
      ParseAll(p, l.sent, l.calls, z.cap);
    }
  }

  /** The round trip under any fragmentation: any batches, any partial sends, any
      cuts, any user buffers. What recv_finished reports is always a prefix of
      what was sent, and all of it once every byte is in and enough calls with
      large enough buffers have been made. */
  lemma RoundTrip(es: seq<LinkEvent>, z: Sizes)
    requires 0 < z.cap && LinkRun(FRESH_LINK, es, z)
    ensures var l := LinkEnd(FRESH_LINK, es, z);
      && Delivered(l.rcv.log) <= l.sent
      && ProtocolError !in l.rcv.log
      && (l.taken == |l.Stream()| && LargeCalls(l.calls, l.sent) >= |l.sent| ==> Delivered(l.rcv.log) == l.sent)
  {
    LinkRunKeeps(FRESH_LINK, es, z);
    LinkDelivers(LinkEnd(FRESH_LINK, es, z), z);
  }

  // ---- every recv comes to an end ----

  /** Where the receiver of a link stands in the stream: at the start of the frame of
      the first message not delivered. */
  lemma ReceiverAligned(l: Link, z: Sizes)
    requires LinkInv(l, z)
    ensures |l.rcv.ring| <= l.taken && Got(l) <= |l.sent|
    ensures l.rcv.ring == l.Stream()[l.taken - |l.rcv.ring|..l.taken]
    ensures IsStream(l.Stream()[l.taken - |l.rcv.ring|..], l.sent[Got(l)..])
  {
    var p := l.Stream()[..l.taken];
    InvMeansInStep(l.rcv, p, l.calls, z.cap);
    RestAligned(l.Stream(), p, l.sent, l.calls, z.cap);
  }

  /** The bytes a receiver holds are the beginning of the next message's frame. */
  lemma HeldFront(l: Link, held: seq<Byte>, z: Sizes)
    requires LinkInv(l, z) && |l.rcv.ring| <= l.taken && held <= l.Stream()[l.taken - |l.rcv.ring|..]
    ensures !FrontOf(held, z.cap).Malformed?
    ensures Got(l) <= |l.sent|
    ensures FrontOf(held, z.cap).Frame? ==>
      && Got(l) < |l.sent| && FrontOf(held, z.cap).size == |l.sent[Got(l)]|
      && held[HEADER..HEADER + |l.sent[Got(l)]|] == l.sent[Got(l)]
    ensures Got(l) < |l.sent| && held == l.Stream()[l.taken - |l.rcv.ring|..] ==> FrontOf(held, z.cap).Frame?
  {
    ReceiverAligned(l, z);
    FrontOfPrefix(l.Stream()[l.taken - |l.rcv.ring|..], held, l.sent[Got(l)..], z.cap);
  }

  lemma Joined<T>(s: seq<T>, i: int, j: int, k: int)
    requires 0 <= i <= j <= k <= |s|
    ensures s[i..j] + s[j..k] <= s[i..]
    ensures k == |s| ==> s[i..j] + s[j..k] == s[i..]
  {
  }

  lemma HeldAfter(l: Link, r: Event, z: Sizes)
    requires |l.rcv.ring| <= l.taken <= |l.Stream()| && LinkEnabled(l, Rx(r), z)
    requires l.rcv.ring == l.Stream()[l.taken - |l.rcv.ring|..l.taken]
    ensures var s, held := l.Stream()[l.taken - |l.rcv.ring|..], l.rcv.ring + ArrivedBy(r);
      held <= s && (l.taken + |ArrivedBy(r)| == |l.Stream()| ==> held == s)
  {
    Joined(l.Stream(), l.taken - |l.rcv.ring|, l.taken, l.taken + |ArrivedBy(r)|);
  }

  /** What the receiver looks at after its next step. */
  lemma NextFrame(l: Link, r: Event, held: seq<Byte>, z: Sizes)
    requires LinkInv(l, z) && LinkEnabled(l, Rx(r), z) && held == l.rcv.ring + ArrivedBy(r)
    ensures !FrontOf(held, z.cap).Malformed? && Got(l) <= |l.sent|
    ensures FrontOf(held, z.cap).Frame? ==>
      && Got(l) < |l.sent| && FrontOf(held, z.cap).size == |l.sent[Got(l)]|
      && held[HEADER..HEADER + |l.sent[Got(l)]|] == l.sent[Got(l)]
    ensures Got(l) < |l.sent| && l.taken + |ArrivedBy(r)| == |l.Stream()| ==> FrontOf(held, z.cap).Frame?
  {
    ReceiverAligned(l, z);
    HeldAfter(l, r, z);
    HeldFront(l, held, z);
  }

  function Completions(es: seq<LinkEvent>): nat {
    if es == [] then 0 else (if es[0].Rx? then 1 else 0) + Completions(es[1..])
  }

  function Received(es: seq<LinkEvent>): nat {
    if es == [] then 0 else (if es[0].Rx? then |ArrivedBy(es[0].r)| else 0) + Received(es[1..])
  }

  /** The sender and the wire at work while a call waits: batches may be posted, sends
      may fail, bytes arrive as they like; the receiver's posts do not fail. */
  predicate WhileWaiting(es: seq<LinkEvent>) {
    forall i :: 0 <= i < |es| && es[i].Rx? ==> es[i].r.Bytes? && es[i].r.postOk
  }

  /** What one completion does for a call that waits. */
  lemma CompletionServes(l: Link, r: Event, z: Sizes)
    requires LinkInv(l, z) && l.rcv.mode.Waiting? && r.Bytes? && r.postOk
    requires LinkEnabled(l, Rx(r), z) && Fits(l.rcv, r, z.cap)
    ensures Got(l) < |l.sent|
    ensures var r' := Step(l.rcv, r, z.cap); var m := l.sent[Got(l)];
      if r'.mode.Waiting? then
        && r'.log == l.rcv.log && r'.userLen == l.rcv.userLen
        && r'.ring == l.rcv.ring + r.bytes && |r'.ring| < HEADER + |m|
      else r'.mode.Idle? && r'.log == l.rcv.log + [if |m| <= l.rcv.userLen then Finished(m) else Failed(|m|)]
  {
    var held := l.rcv.ring + r.bytes;
    NextFrame(l, r, held, z);
    ReceiverAligned(l, z);
    HeldAfter(l, r, z);
    if FrontOf(held, z.cap).Incomplete? {
      FrontOfPrefix(l.Stream()[l.taken - |l.rcv.ring|..], held, l.sent[Got(l)..], z.cap);
    }
  }

  lemma FrameMissing(l: Link, z: Sizes)
    requires LinkInv(l, z) && l.rcv.mode.Waiting?
    ensures Got(l) <= |l.sent|
    ensures Got(l) < |l.sent| ==> |l.rcv.ring| < HEADER + |l.sent[Got(l)]|
  {
    ReceiverAligned(l, z);
    FrontOfPrefix(l.Stream()[l.taken - |l.rcv.ring|..], l.rcv.ring, l.sent[Got(l)..], z.cap);
  }

  /** In every state of a link a recv that waits gets the next message sent, or its
      size, whatever is posted in the meantime and however the bytes are cut: it
      takes fewer completions than the frame has bytes missing, and a completion can
      come only once that message has been sent. */
  lemma {:induction false} LinkRecvEnds(l: Link, es: seq<LinkEvent>, z: Sizes)
    requires LinkInv(l, z) && l.rcv.mode.Waiting?
    requires WhileWaiting(es) && LinkRun(l, es, z)
    ensures var e := LinkEnd(l, es, z);
      && l.sent <= e.sent
      && if e.rcv.mode.Waiting? then
           && e.rcv.log == l.rcv.log
           && (if Got(l) >= |e.sent| then Completions(es) == 0
               else Completions(es) <= Received(es) < HEADER + |e.sent[Got(l)]| - |l.rcv.ring|)
         else
           && Got(l) < |e.sent|
           && var m := e.sent[Got(l)];
             e.rcv.log == l.rcv.log + [if |m| <= l.rcv.userLen then Finished(m) else Failed(|m|)]
    decreases |es|
  {
    FrameMissing(l, z);
    if es == [] {
    } else {
      var l' := LinkStep(l, es[0], z);
      LinkKeeps(l, es[0], z);
      assert forall i :: 0 <= i < |es[1..]| ==> es[1..][i] == es[i + 1];
      if es[0].Rx? {
        CompletionServes(l, es[0].r, z);
      }
      if l'.rcv.mode.Waiting? {
        LinkRecvEnds(l', es[1..], z);
      } else {
        AnsweredStays(l', es[1..], z);
      }
    }
  }

  /** Once the call is answered no completion comes any more. */
  lemma {:induction false} AnsweredStays(l: Link, es: seq<LinkEvent>, z: Sizes)
    requires l.rcv.mode.Idle? && WhileWaiting(es) && LinkRun(l, es, z)
    ensures LinkEnd(l, es, z).rcv == l.rcv && l.sent <= LinkEnd(l, es, z).sent
    decreases |es|
  {
    if es == [] {
    } else {
      assert es[0].Tx?;
      assert forall i :: 0 <= i < |es[1..]| ==> es[1..][i] == es[i + 1];
      AnsweredStays(LinkStep(l, es[0], z), es[1..], z);
    }
  }

  // ---- a link is a message channel ----

  /** The messages sent and not yet handed out. */
  function InTransit(l: Link): seq<seq<Byte>>
    requires Delivered(l.rcv.log) <= l.sent
  {
    l.sent[|Delivered(l.rcv.log)|..]
  }

  /** A receive step says nothing, or one thing more. */
  lemma RxSays(r: RecvState, e: Event, cap: int)
    ensures var r' := Step(r, e, cap);
      || r'.log == r.log
      || (|r'.log| == |r.log| + 1 && r'.log == r.log + [r'.log[|r.log|]]
          && Delivered(r'.log) ==
             Delivered(r.log) + if r'.log[|r.log|].Finished? then [r'.log[|r.log|].content] else [])
  {
    var log' := Step(r, e, cap).log;
    if log' != r.log {
      var o := log'[|r.log|];
      DeliveredConcat(r.log, [o]);
      DeliveredCons(o, []);
      assert [o] + [] == [o];
    }
  }

  lemma Popped(done: seq<seq<Byte>>, c: seq<Byte>, sent: seq<seq<Byte>>)
    requires done + [c] <= sent
    ensures sent[|done|..] != [] && sent[|done|..][0] == c && sent[|done + [c]|..] == sent[|done|..][1..]
  {
    assert (done + [c])[|done|] == c;
  }

  /** Posting a batch appends its messages, recv_finished takes the oldest one with
      its exact content, and nothing else changes the queue. */
  predicate ChannelMoves(l: Link, e: LinkEvent, l': Link)
    requires Delivered(l.rcv.log) <= l.sent && Delivered(l'.rcv.log) <= l'.sent
  {
    match e
    case Tx(s, msgs) => InTransit(l') == InTransit(l) + if s.Batch? then msgs else []
    case Rx(_) =>
      || (InTransit(l') == InTransit(l) && Delivered(l'.rcv.log) == Delivered(l.rcv.log))
      || (InTransit(l) != [] && InTransit(l') == InTransit(l)[1..]
          && l'.rcv.log == l.rcv.log + [Finished(InTransit(l)[0])])
  }

  lemma ChannelStep(l: Link, e: LinkEvent, z: Sizes)
    requires LinkEnabled(l, e, z)
    requires Delivered(l.rcv.log) <= l.sent && Delivered(LinkStep(l, e, z).rcv.log) <= LinkStep(l, e, z).sent
    ensures ChannelMoves(l, e, LinkStep(l, e, z))
  {
    if e.Rx? {
      var log, log' := l.rcv.log, Step(l.rcv, e.r, z.cap).log;
      RxSays(l.rcv, e.r, z.cap);
      if log' != log && log'[|log|].Finished? {
        Popped(Delivered(log), log'[|log|].content, l.sent);
      }
    }
  }

  /** However the bytes travel, the two applications see a queue of messages. */
  lemma LinkIsChannel(l: Link, e: LinkEvent, z: Sizes)
    requires LinkInv(l, z) && LinkEnabled(l, e, z) && LinkFits(l, e, z)
    ensures Delivered(l.rcv.log) <= l.sent
    ensures Delivered(LinkStep(l, e, z).rcv.log) <= LinkStep(l, e, z).sent
    ensures ChannelMoves(l, e, LinkStep(l, e, z))
  {
    LinkKeeps(l, e, z);
    LinkDelivers(l, z);
    LinkDelivers(LinkStep(l, e, z), z);
    ChannelStep(l, e, z);
  }

  // ---- request and reply ----

  /** Two peers: `ab` carries requests, `ba` replies. */
  datatype Duplex = Duplex(ab: Link, ba: Link)

  datatype DuplexEvent = Ab(e: LinkEvent) | Ba(e: LinkEvent)

  datatype DuplexSizes = DuplexSizes(zab: Sizes, zba: Sizes)

  /** One message a turn: A sends when every request has been replied to, B when
      it has received a request it has not replied to. Nothing is asked of the
      receive completions. */
  predicate DuplexEnabled(d: Duplex, e: DuplexEvent, z: DuplexSizes) {
    match e
    case Ab(le) =>
      && LinkEnabled(d.ab, le, z.zab)
      && (le.Tx? && le.s.Batch? ==> OneMessage(le, z.zab) && |d.ab.sent| == Got(d.ba))
    case Ba(le) =>
      && LinkEnabled(d.ba, le, z.zba)
      && (le.Tx? && le.s.Batch? ==> OneMessage(le, z.zba) && |d.ba.sent| + 1 == Got(d.ab))
  }

  /** A batch of one message that is not empty. Where the peer's ring is smaller
      than the send buffer, the message must also be short enough for it. */
  predicate OneMessage(e: LinkEvent, z: Sizes)
    requires e.Tx?
  {
    |e.msgs| == 1 && e.msgs[0] != [] && (z.sendCap <= z.cap || |e.msgs[0]| + HEADER < z.cap)
  }

  function DuplexStep(d: Duplex, e: DuplexEvent, z: DuplexSizes): Duplex
    requires DuplexEnabled(d, e, z)
  {
    match e
    case Ab(le) => d.(ab := LinkStep(d.ab, le, z.zab))
    case Ba(le) => d.(ba := LinkStep(d.ba, le, z.zba))
  }

  predicate DuplexInv(d: Duplex, z: DuplexSizes) {
    && LinkInv(d.ab, z.zab) && LinkInv(d.ba, z.zba)
    && Got(d.ba) <= |d.ba.sent| <= Got(d.ab) <= |d.ab.sent| <= Got(d.ba) + 1
  }

  /** At most one message is under way, so ring and wire together hold at most
      its frame. */
  lemma OneFrameInFlight(l: Link, z: Sizes)
    requires LinkInv(l, z) && |l.sent| <= Got(l) + 1
    ensures |l.rcv.ring| + (|l.Stream()| - l.taken) < z.cap
  {
    LinkDelivers(l, z);
    if Got(l) == |l.sent| {
      assert Delivered(l.rcv.log) == l.sent;
    } else {
      assert l.sent == Delivered(l.rcv.log) + [l.sent[Got(l)]];
      FrameBytesAppend(Delivered(l.rcv.log), l.sent[Got(l)]);
    }
  }

  lemma FitsInTurn(l: Link, e: LinkEvent, z: Sizes)
    requires LinkInv(l, z) && |l.sent| <= Got(l) + 1
    requires LinkEnabled(l, e, z) && (e.Tx? && e.s.Batch? ==> OneMessage(e, z))
    ensures LinkFits(l, e, z)
  {
    OneFrameInFlight(l, z);
    if e.Tx? && e.s.Batch? {
      StreamLength(e.s.bytes, e.msgs);
      assert FrameBytes(e.msgs) == HEADER + |e.msgs[0]|;
    }
  }

  lemma GotGrows(l: Link, e: LinkEvent, z: Sizes)
    requires LinkEnabled(l, e, z)
    ensures Got(l) <= Got(LinkStep(l, e, z))
    ensures e.Tx? ==> Got(l) == Got(LinkStep(l, e, z))
  {
    if e.Rx? {
      var log, log' := l.rcv.log, LinkStep(l, e, z).rcv.log;
      if log' != log {
        DeliveredConcat(log, log'[|log|..]);
        assert log' == log + log'[|log|..];
      }
    }
  }

  lemma DuplexKeeps(d: Duplex, e: DuplexEvent, z: DuplexSizes)
    requires DuplexInv(d, z) && DuplexEnabled(d, e, z)
    ensures DuplexInv(DuplexStep(d, e, z), z)
    ensures match e case Ab(le) => LinkFits(d.ab, le, z.zab) case Ba(le) => LinkFits(d.ba, le, z.zba)
  {
    var d' := DuplexStep(d, e, z);
    match e {
      case Ab(le) =>
        FitsInTurn(d.ab, le, z.zab);
        LinkKeeps(d.ab, le, z.zab);
        GotGrows(d.ab, le, z.zab);
      case Ba(le) =>
        FitsInTurn(d.ba, le, z.zba);
        LinkKeeps(d.ba, le, z.zba);
        GotGrows(d.ba, le, z.zba);
    }
    LinkDelivers(d'.ab, z.zab);
    LinkDelivers(d'.ba, z.zba);
  }

  predicate DuplexRun(d: Duplex, es: seq<DuplexEvent>, z: DuplexSizes)
    decreases |es|
  {
    es == [] || (DuplexEnabled(d, es[0], z) && DuplexRun(DuplexStep(d, es[0], z), es[1..], z))
  }

  function DuplexEnd(d: Duplex, es: seq<DuplexEvent>, z: DuplexSizes): Duplex
    requires DuplexRun(d, es, z)
    decreases |es|
  {
    if es == [] then d else DuplexEnd(DuplexStep(d, es[0], z), es[1..], z)
  }

  lemma {:induction false} DuplexRunKeeps(d: Duplex, es: seq<DuplexEvent>, z: DuplexSizes)
    requires DuplexInv(d, z) && DuplexRun(d, es, z)
    ensures DuplexInv(DuplexEnd(d, es, z), z)
    decreases |es|
  {
    if es == [] {
    } else {
      DuplexKeeps(d, es[0], z);
      DuplexRunKeeps(DuplexStep(d, es[0], z), es[1..], z);
    }
  }

  /** Request and reply never fill a ring, because what fits a send buffer fits a
      ring at least as large: any completion the kernel can report next has room.
      Every exchange is delivered in order, one message behind at most. */
  lemma RingNeverFills(es: seq<DuplexEvent>, z: DuplexSizes, next: DuplexEvent)
    requires 0 < z.zab.cap && 0 < z.zba.cap
    requires DuplexRun(Duplex(FRESH_LINK, FRESH_LINK), es, z)
    requires DuplexEnabled(DuplexEnd(Duplex(FRESH_LINK, FRESH_LINK), es, z), next, z)
    ensures var d := DuplexEnd(Duplex(FRESH_LINK, FRESH_LINK), es, z);
      && (next.Ab? && next.e.Rx? ==> Fits(d.ab.rcv, next.e.r, z.zab.cap))
      && (next.Ba? && next.e.Rx? ==> Fits(d.ba.rcv, next.e.r, z.zba.cap))
      && Delivered(d.ab.rcv.log) <= d.ab.sent && |d.ab.sent| <= Got(d.ab) + 1
      && Delivered(d.ba.rcv.log) <= d.ba.sent && |d.ba.sent| <= Got(d.ba) + 1
  {
    var d0 := Duplex(FRESH_LINK, FRESH_LINK);
    DuplexRunKeeps(d0, es, z);
    var d := DuplexEnd(d0, es, z);
    DuplexKeeps(d, next, z);
    LinkDelivers(d.ab, z.zab);
    LinkDelivers(d.ba, z.zba);
  }
}
