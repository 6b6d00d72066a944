/** The receiving half of session_ioT as a machine over recv calls and kernel
    completions, and its refinement of the whole-stream parser. */
module Receiver {
  import opened IoBuffer
  import opened Framing

  /** `Waiting`: a WSARecv is outstanding. `Dead`: the session was disconnected. */
  datatype Mode = Idle | Waiting | Dead

  datatype RecvState = RecvState(ring: seq<Byte>, mode: Mode, userLen: int, log: seq<Outcome>)

  const IDLE_RECEIVER := RecvState([], Idle, 0, [])

  /** The ring after a completion. Filling it to the brim makes head and trail
      meet, which reads as empty. */
  function Absorb(ring: seq<Byte>, bytes: seq<Byte>, cap: int): seq<Byte> {
    if |ring| + |bytes| < cap then ring + bytes else []
  }

  /** recv_package once the trail has moved; `postOk` tells whether the kernel
      takes the WSARecv that an incomplete frame calls for. */
  function Examine(r: RecvState, cap: int, postOk: bool): RecvState {
    match FrontOf(r.ring, cap)
    case Incomplete => r.(mode := if postOk then Waiting else Dead)
    case Malformed => r.(mode := Idle, log := r.log + [ProtocolError])
    case Frame(n) =>
      if n > r.userLen then r.(mode := Idle, log := r.log + [Failed(n)])
      else r.(mode := Idle, ring := r.ring[HEADER + n..], log := r.log + [Finished(r.ring[HEADER..HEADER + n])])
  }

  datatype Event = Call(u: int, postOk: bool) | Bytes(bytes: seq<Byte>, postOk: bool) | Lost

  /** One outstanding operation: a call only when none is, a completion only when
      one is, and never more bytes than the spans handed out can take. */
  predicate Enabled(r: RecvState, e: Event, cap: int) {
    match e
    case Call(_, _) => r.mode.Idle?
    case Bytes(bytes, _) => r.mode.Waiting? && bytes != [] && |r.ring| + |bytes| <= cap
    case Lost => r.mode.Waiting?
  }

  function Step(r: RecvState, e: Event, cap: int): RecvState {
    match e
    case Call(u, postOk) => Examine(r.(userLen := u), cap, postOk)
    case Bytes(bytes, postOk) => Examine(r.(ring := Absorb(r.ring, bytes, cap)), cap, postOk)
    case Lost => r.(mode := Dead)
  }

  predicate Valid(r: RecvState, es: seq<Event>, cap: int)
    decreases |es|
  {
    es == [] || (Enabled(r, es[0], cap) && Valid(Step(r, es[0], cap), es[1..], cap))
  }

  function Run(r: RecvState, es: seq<Event>, cap: int): RecvState
    decreases |es|
  {
    if es == [] then r else Run(Step(r, es[0], cap), es[1..], cap)
  }

  predicate Fits(r: RecvState, e: Event, cap: int) {
    e.Bytes? ==> |r.ring| + |e.bytes| < cap
  }

  predicate NeverFills(r: RecvState, es: seq<Event>, cap: int)
    decreases |es|
  {
    es == [] || (Fits(r, es[0], cap) && NeverFills(Step(r, es[0], cap), es[1..], cap))
  }

  function ArrivedBy(e: Event): seq<Byte> { if e.Bytes? then e.bytes else [] }

  function CallOf(e: Event): seq<int> { if e.Call? then [e.u] else [] }

  function Arrived(es: seq<Event>): seq<Byte> {
    if es == [] then [] else ArrivedBy(es[0]) + Arrived(es[1..])
  }

  function Calls(es: seq<Event>): seq<int> {
    if es == [] then [] else CallOf(es[0]) + Calls(es[1..])
  }

  // ---- refinement of the parser ----

  /** What the machine has said and what it holds are what the parser says of the
      bytes that arrived and the calls made. */
  predicate InStep(r: RecvState, total: seq<Byte>, calls: seq<int>, cap: int) {
    r.log == ParseStream(total, calls, cap) && r.ring == Rest(total, calls, cap)
  }

  /** The inductive form: an unanswered last call is set apart. */
  predicate Inv(r: RecvState, total: seq<Byte>, calls: seq<int>, cap: int) {
    && |r.ring| < cap
    && if r.mode.Idle? then InStep(r, total, calls, cap) && |r.log| == |calls|
       else
         && calls != [] && r.userLen == calls[|calls| - 1]
         && InStep(r, total, calls[..|calls| - 1], cap) && |r.log| == |calls| - 1
         && FrontOf(r.ring, cap).Incomplete?
  }

  lemma ParseOne(s: seq<Byte>, u: int, cap: int)
    ensures ParseStream(s, [u], cap) ==
      (match FrontOf(s, cap)
       case Incomplete => []
       case Malformed => [ProtocolError]
       case Frame(n) => if n > u then [Failed(n)] else [Finished(s[HEADER..HEADER + n])])
    ensures Rest(s, [u], cap) ==
      match FrontOf(s, cap)
      case Incomplete => s
      case Malformed => s
      case Frame(n) => if n > u then s else s[HEADER + n..]
  {
    assert [u][1..] == [];
  }

  lemma InvMeansInStep(r: RecvState, total: seq<Byte>, calls: seq<int>, cap: int)
    requires Inv(r, total, calls, cap)
    ensures InStep(r, total, calls, cap)
  {
    if !r.mode.Idle? {
      var cs, u := calls[..|calls| - 1], calls[|calls| - 1];
      assert calls == cs + [u];
      ParseOneMore(total, cs, u, cap);
      ParseOne(r.ring, u, cap);
    }
  }

  /** Examining the bytes held for the last call `u` keeps the invariant. */
  lemma ExamineKeeps(r: RecvState, total: seq<Byte>, cs: seq<int>, u: int, cap: int, postOk: bool)
    requires |r.ring| < cap && r.userLen == u
    requires InStep(r, total, cs, cap) && |r.log| == |cs|
    ensures Inv(Examine(r, cap, postOk), total, cs + [u], cap)
  {
    ParseOneMore(total, cs, u, cap);
    ParseOne(r.ring, u, cap);
    assert (cs + [u])[..|cs|] == cs;
  }

  lemma StepKeeps(r: RecvState, e: Event, total: seq<Byte>, calls: seq<int>, cap: int)
    requires Inv(r, total, calls, cap) && Enabled(r, e, cap) && Fits(r, e, cap)
    ensures Inv(Step(r, e, cap), total + ArrivedBy(e), calls + CallOf(e), cap)
  {
    match e
    case Call(u, postOk) =>
      ExamineKeeps(r.(userLen := u), total, calls, u, cap, postOk);
      assert total + [] == total;
    case Bytes(bytes, postOk) =>
      var cs, u := calls[..|calls| - 1], calls[|calls| - 1];
      ParseMoreBytes(total, bytes, cs, cap);
      ExamineKeeps(r.(ring := r.ring + bytes), total + bytes, cs, u, cap, postOk);
      assert cs + [u] == calls == calls + [];
    case Lost =>
      assert total + [] == total && calls + [] == calls;
  }

  /** A completion that fills the ring puts the machine out of step at once. */
  lemma FillBreaks(r: RecvState, e: Event, total: seq<Byte>, calls: seq<int>, cap: int)
    requires 0 < cap && Inv(r, total, calls, cap) && Enabled(r, e, cap) && !Fits(r, e, cap)
    ensures !InStep(Step(r, e, cap), total + ArrivedBy(e), calls + CallOf(e), cap)
  {
    var cs, u := calls[..|calls| - 1], calls[|calls| - 1];
    ParseMoreBytes(total, e.bytes, cs, cap);
    ParseOneMore(total + e.bytes, cs, u, cap);
    ParseOne(r.ring + e.bytes, u, cap);
    assert cs + [u] == calls == calls + [];
  }

  lemma Assoc<T>(a: seq<T>, b: seq<T>, c: seq<T>)
    ensures a + b + c == a + (b + c)
  {
  }

  lemma {:induction false} RunKeeps(r: RecvState, es: seq<Event>, total: seq<Byte>, calls: seq<int>, cap: int)
    requires Inv(r, total, calls, cap) && Valid(r, es, cap) && NeverFills(r, es, cap)
    ensures Inv(Run(r, es, cap), total + Arrived(es), calls + Calls(es), cap)
    decreases |es|
  {
    if es == [] {
      assert total + [] == total && calls + [] == calls;
    } else {
      StepKeeps(r, es[0], total, calls, cap);
      RunKeeps(Step(r, es[0], cap), es[1..], total + ArrivedBy(es[0]), calls + CallOf(es[0]), cap);
      Assoc(total, ArrivedBy(es[0]), Arrived(es[1..]));
      Assoc(calls, CallOf(es[0]), Calls(es[1..]));
    }
  }

  /** The receiver, fed arbitrary bytes in arbitrary pieces, says exactly what the
      whole-stream parser says; a call is unanswered only if it is the last one. */
  lemma RefinesParser(es: seq<Event>, cap: int)
    requires 0 < cap && Valid(IDLE_RECEIVER, es, cap) && NeverFills(IDLE_RECEIVER, es, cap)
    ensures Run(IDLE_RECEIVER, es, cap).log == ParseStream(Arrived(es), Calls(es), cap)
    ensures Run(IDLE_RECEIVER, es, cap).ring == Rest(Arrived(es), Calls(es), cap)
    ensures Run(IDLE_RECEIVER, es, cap).mode.Idle? <==> |Run(IDLE_RECEIVER, es, cap).log| == |Calls(es)|
  {
    RunKeeps(IDLE_RECEIVER, es, [], [], cap);
    assert [] + Arrived(es) == Arrived(es) && [] + Calls(es) == Calls(es);
    InvMeansInStep(Run(IDLE_RECEIVER, es, cap), Arrived(es), Calls(es), cap);
  }

  /** Arbitrary bytes in arbitrary pieces: what has been handed out is the contents of
      frames, and these frames and the bytes held are exactly what arrived. */
  lemma OnlyFramesDelivered(es: seq<Event>, cap: int)
    requires 0 < cap && Valid(IDLE_RECEIVER, es, cap) && NeverFills(IDLE_RECEIVER, es, cap)
    ensures var r := Run(IDLE_RECEIVER, es, cap);
      && |r.ring| <= |Arrived(es)|
      && var t := Arrived(es)[..|Arrived(es)| - |r.ring|];
        Arrived(es) == t + r.ring && IsStream(t, Delivered(r.log))
  {
    RefinesParser(es, cap);
    ParseSound(Arrived(es), Calls(es), cap);
  }

  /** How the bytes were cut does not show. */
  lemma CutsDoNotMatter(es: seq<Event>, fs: seq<Event>, cap: int)
    requires 0 < cap && Valid(IDLE_RECEIVER, es, cap) && NeverFills(IDLE_RECEIVER, es, cap)
    requires Valid(IDLE_RECEIVER, fs, cap) && NeverFills(IDLE_RECEIVER, fs, cap)
    requires Arrived(es) == Arrived(fs) && Calls(es) == Calls(fs)
    ensures Run(IDLE_RECEIVER, es, cap).log == Run(IDLE_RECEIVER, fs, cap).log
    ensures Run(IDLE_RECEIVER, es, cap).ring == Run(IDLE_RECEIVER, fs, cap).ring
    ensures Run(IDLE_RECEIVER, es, cap).mode.Idle? <==> Run(IDLE_RECEIVER, fs, cap).mode.Idle?
  {
    RefinesParser(es, cap);
    RefinesParser(fs, cap);
  }

  /** In step after every event of the run. */
  predicate AlwaysInStep(r: RecvState, es: seq<Event>, total: seq<Byte>, calls: seq<int>, cap: int)
    decreases |es|
  {
    && InStep(r, total, calls, cap)
    && (es == [] ||
        AlwaysInStep(Step(r, es[0], cap), es[1..], total + ArrivedBy(es[0]), calls + CallOf(es[0]), cap))
  }

  lemma {:induction false} InStepIffNeverFills(r: RecvState, es: seq<Event>,
                                               total: seq<Byte>, calls: seq<int>, cap: int)
    requires 0 < cap && Inv(r, total, calls, cap) && Valid(r, es, cap)
    ensures AlwaysInStep(r, es, total, calls, cap) <==> NeverFills(r, es, cap)
    decreases |es|
  {
    InvMeansInStep(r, total, calls, cap);
    if es == [] {
    } else {
      if Fits(r, es[0], cap) {
        StepKeeps(r, es[0], total, calls, cap);
        InStepIffNeverFills(Step(r, es[0], cap), es[1..], total + ArrivedBy(es[0]), calls + CallOf(es[0]), cap);
      } else {
        FillBreaks(r, es[0], total, calls, cap);
      }
    }
  }

  /** The exact condition of the refinement: no completion ever fills the ring. */
  lemma RefinesIffNeverFills(es: seq<Event>, cap: int)
    requires 0 < cap && Valid(IDLE_RECEIVER, es, cap)
    ensures AlwaysInStep(IDLE_RECEIVER, es, [], [], cap) <==> NeverFills(IDLE_RECEIVER, es, cap)
  {
    InStepIffNeverFills(IDLE_RECEIVER, es, [], [], cap);
  }

  /** Such a run exists for every ring and every user buffer: one call, and one
      completion that brings as many bytes as the spans can take. */
  lemma FillingRun(u: int, b: seq<Byte>, cap: int)
    requires 0 < cap == |b|
    ensures var es := [Call(u, true), Bytes(b, true)];
      && Valid(IDLE_RECEIVER, es, cap) && !NeverFills(IDLE_RECEIVER, es, cap)
      && !AlwaysInStep(IDLE_RECEIVER, es, [], [], cap)
  {
    var es := [Call(u, true), Bytes(b, true)];
    var r := Step(IDLE_RECEIVER, es[0], cap);
    assert es[1..] == [Bytes(b, true)] && es[1..][1..] == [];
    assert Valid(r, es[1..], cap) && !NeverFills(r, es[1..], cap);
    RefinesIffNeverFills(es, cap);
  }

  /** A header of a size between `cap - 8` and `cap - 1` at the front leaves every
      call without an answer: no outcome comes before the ring is filled. */
  lemma {:induction false} NeverAnswered(r: RecvState, es: seq<Event>,
                                         s: seq<Byte>, f: seq<Byte>, m: seq<Byte>, cap: int)
    requires IsFrame(f, m) && 1 <= |m| && cap - HEADER <= |m| < cap
    requires f[..HEADER] <= s && r.ring + Arrived(es) <= s && |r.ring| < cap
    requires Valid(r, es, cap) && NeverFills(r, es, cap)
    ensures Run(r, es, cap).log == r.log && Run(r, es, cap).ring == r.ring + Arrived(es)
    ensures |r.ring + Arrived(es)| < cap
    ensures r.mode.Idle? && Calls(es) != [] ==> !Run(r, es, cap).mode.Idle?
    ensures !r.mode.Idle? ==> !Run(r, es, cap).mode.Idle?
    decreases |es|
  {
    if es == [] {
      assert r.ring + [] == r.ring;
    } else {
      var r' := Step(r, es[0], cap);
      Assoc(r.ring, ArrivedBy(es[0]), Arrived(es[1..]));
      var held := r.ring + ArrivedBy(es[0]);
      assert held <= s;
      if HEADER <= |held| {
        assert held[..HEADER] == s[..HEADER] == f[..HEADER];
        SameHeader(held, f);
      }
      assert FrontOf(held, cap).Incomplete?;
      assert r.ring + [] == r.ring && r'.ring == held;
      NeverAnswered(r', es[1..], s, f, m, cap);
    }
  }

  // ---- stability of the failure outcomes ----

  function Repeat(o: Outcome, k: nat): seq<Outcome> {
    if k == 0 then [] else Repeat(o, k - 1) + [o]
  }

  /** With a complete frame at the front, calls with buffers that are too small
      consume nothing and report the size needed; the first one that is large
      enough gets the message that was there from the start. */
  lemma {:induction false} FailedIsStable(r: RecvState, es: seq<Event>, u: int, postOk: bool, n: int, cap: int)
    requires r.mode.Idle? && FrontOf(r.ring, cap) == Frame(n) && n <= u
    requires Valid(r, es, cap) && forall i :: 0 <= i < |Calls(es)| ==> Calls(es)[i] < n
    ensures Run(r, es, cap) == r.(userLen := Run(r, es, cap).userLen, log := r.log + Repeat(Failed(n), |Calls(es)|))
    ensures Step(Run(r, es, cap), Call(u, postOk), cap).log ==
      r.log + Repeat(Failed(n), |Calls(es)|) + [Finished(r.ring[HEADER..HEADER + n])]
    decreases |es|
  {
    if es != [] {
      var e := es[0];
      assert Calls(es)[0] == e.u;
      assert forall i :: 0 <= i < |Calls(es[1..])| ==> Calls(es[1..])[i] == Calls(es)[i + 1];
      FailedIsStable(Step(r, e, cap), es[1..], u, postOk, n, cap);
      RepeatFront(Failed(n), |Calls(es[1..])|);
      assert r.log + [Failed(n)] + Repeat(Failed(n), |Calls(es[1..])|) == r.log + Repeat(Failed(n), |Calls(es)|);
    } else {
      assert r.log + [] == r.log;
    }
  }

  lemma {:induction false} RepeatFront(o: Outcome, k: nat)
    ensures [o] + Repeat(o, k) == Repeat(o, k + 1)
  {
    if k == 0 {
    } else {
      RepeatFront(o, k - 1);
      assert [o] + Repeat(o, k) == [o] + Repeat(o, k - 1) + [o];
    }
  }

  /** Once a malformed header is at the front nothing is ever delivered again: no
      receive is posted and every call answers protocol_error. */
  lemma {:induction false} MalformedIsForever(r: RecvState, es: seq<Event>, cap: int)
    requires r.mode.Idle? && FrontOf(r.ring, cap).Malformed? && Valid(r, es, cap)
    ensures Run(r, es, cap) == r.(userLen := Run(r, es, cap).userLen, log := r.log + Repeat(ProtocolError, |es|))
    ensures Delivered(Run(r, es, cap).log) == Delivered(r.log)
    decreases |es|
  {
    if es != [] {
      MalformedIsForever(Step(r, es[0], cap), es[1..], cap);
      RepeatFront(ProtocolError, |es| - 1);
      assert r.log + [ProtocolError] + Repeat(ProtocolError, |es| - 1) == r.log + Repeat(ProtocolError, |es|);
      DeliveredConcat(r.log, [ProtocolError]);
      assert [ProtocolError][1..] == [];
    } else {
      assert r.log + [] == r.log;
    }
  }

  // ---- progress on a well-formed stream ----

  /** Bytes still missing from the frame that starts the stream. */
  function Missing(r: RecvState, msgs: seq<seq<Byte>>): int
    requires msgs != []
  {
    HEADER + |msgs[0]| - |r.ring|
  }

  /** A positive completion either answers the call, with the message or with the
      size needed, or brings the frame strictly nearer to its end. */
  lemma CompletionProgress(r: RecvState, bytes: seq<Byte>, s: seq<Byte>, msgs: seq<seq<Byte>>, cap: int)
    requires r.mode.Waiting? && Enabled(r, Bytes(bytes, true), cap) && Fits(r, Bytes(bytes, true), cap)
    requires IsStream(s, msgs) && Passable(msgs, cap) && r.ring + bytes <= s
    ensures msgs != []
    ensures var r' := Step(r, Bytes(bytes, true), cap);
      if Missing(r, msgs) <= |bytes| then
        r'.mode.Idle? && r'.log == r.log + [if |msgs[0]| <= r.userLen then Finished(msgs[0]) else Failed(|msgs[0]|)]
      else
        r'.mode.Waiting? && r'.log == r.log && 0 < Missing(r', msgs) == Missing(r, msgs) - |bytes|
  {
    assert |s| > 0;
    FrontOfPrefix(s, r.ring + bytes, msgs, cap);
    var p, l := r.ring + bytes, HEADER + |msgs[0]|;
    if |p| >= l {
      FrontOfPrefix(s, s, msgs, cap);
      assert p[..HEADER] == s[..HEADER];
      SameHeader(p, s);
    }
  }

  function Feed(r: RecvState, chunks: seq<seq<Byte>>, cap: int): RecvState
    decreases |chunks|
  {
    if chunks == [] || !r.mode.Waiting? then r
    else Feed(Step(r, Bytes(chunks[0], true), cap), chunks[1..], cap)
  }

  function Flat(chunks: seq<seq<Byte>>): seq<Byte> {
    if chunks == [] then [] else chunks[0] + Flat(chunks[1..])
  }

  /** A call waits for fewer completions than its frame has missing bytes. */
  lemma {:induction false} RecvEnds(r: RecvState, chunks: seq<seq<Byte>>, s: seq<Byte>, msgs: seq<seq<Byte>>, cap: int)
    requires r.mode.Waiting? && msgs != [] && 0 < Missing(r, msgs)
    requires IsStream(s, msgs) && Passable(msgs, cap)
    requires r.ring + Flat(chunks) <= s && |r.ring + Flat(chunks)| < cap
    requires forall i :: 0 <= i < |chunks| ==> chunks[i] != []
    ensures var r' := Feed(r, chunks, cap);
      if r'.mode.Waiting? then |chunks| <= |Flat(chunks)| < Missing(r, msgs) && r'.log == r.log
      else r'.log == r.log + [if |msgs[0]| <= r.userLen then Finished(msgs[0]) else Failed(|msgs[0]|)]
    decreases |chunks|
  {
    if chunks == [] {
    } else {
      assert r.ring + Flat(chunks) == r.ring + chunks[0] + Flat(chunks[1..]);
      assert r.ring + chunks[0] <= s;
      CompletionProgress(r, chunks[0], s, msgs, cap);
      var r' := Step(r, Bytes(chunks[0], true), cap);
      if r'.mode.Waiting? {
        assert r'.ring == r.ring + chunks[0] by { FrontOfPrefix(s, r.ring + chunks[0], msgs, cap); }
        RecvEnds(r', chunks[1..], s, msgs, cap);
      }
    }
  }
}
