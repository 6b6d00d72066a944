/** The sending half of session_ioT: a batch of frames is posted, the kernel
    takes it in pieces, and what is left is posted again until nothing is. */
module Sender {
  import opened IoBuffer
  import opened Receiver

  /** `left`: bytes of the posted batch not yet acknowledged. `acked`: every byte
      acknowledged so far. `finished`: how often send_finished was reported.
      Mode `Waiting` means a WSASend is outstanding. */
  datatype SendState = SendState(mode: Mode, left: seq<Byte>, acked: seq<Byte>, finished: nat)

  const IDLE_SENDER := SendState(Idle, [], [], 0)

  datatype SendEvent = Batch(bytes: seq<Byte>, postOk: bool) | Ack(n: int, postOk: bool) | SendLost

  predicate SendEnabled(s: SendState, e: SendEvent) {
    match e
    case Batch(_, _) => s.mode.Idle?
    case Ack(n, _) => s.mode.Waiting? && 0 < n <= |s.left|
    case SendLost => s.mode.Waiting?
  }

  function SendStep(s: SendState, e: SendEvent): SendState
    requires SendEnabled(s, e)
  {
    match e
    case Batch(bytes, postOk) => s.(mode := if postOk then Waiting else Dead, left := bytes)
    case Ack(n, postOk) =>
      var s' := s.(left := s.left[n..], acked := s.acked + s.left[..n]);
      if s'.left == [] then s'.(mode := Idle, finished := s.finished + 1)
      else s'.(mode := if postOk then Waiting else Dead)
    case SendLost => s.(mode := Dead)
  }

  predicate SendValid(s: SendState, es: seq<SendEvent>)
    decreases |es|
  {
    es == [] || (SendEnabled(s, es[0]) && SendValid(SendStep(s, es[0]), es[1..]))
  }

  function SendRun(s: SendState, es: seq<SendEvent>): SendState
    requires SendValid(s, es)
    decreases |es|
  {
    if es == [] then s else SendRun(SendStep(s, es[0]), es[1..])
  }

  function PostedBy(e: SendEvent): seq<Byte> { if e.Batch? then e.bytes else [] }

  function Posted(es: seq<SendEvent>): seq<Byte> {
    if es == [] then [] else PostedBy(es[0]) + Posted(es[1..])
  }

  function Batches(es: seq<SendEvent>): nat {
    if es == [] then 0 else (if es[0].Batch? then 1 else 0) + Batches(es[1..])
  }

  /** The acknowledged bytes and the bytes left make up all that was posted, and
      send_finished has come for every batch but the one in hand. */
  predicate SendInv(s: SendState, posted: seq<Byte>, batches: int) {
    && s.acked + s.left == posted
    && (s.mode.Idle? ==> s.left == [])
    && s.finished + (if s.mode.Idle? then 0 else 1) == batches
  }

  lemma SendStepKeeps(s: SendState, e: SendEvent, posted: seq<Byte>, batches: int)
    requires SendInv(s, posted, batches) && SendEnabled(s, e)
    ensures SendInv(SendStep(s, e), posted + PostedBy(e), batches + if e.Batch? then 1 else 0)
    ensures e.Ack? ==> |SendStep(s, e).left| < |s.left|
    ensures SendStep(s, e).finished == s.finished + 1 <==> e.Ack? && e.n == |s.left|
  {
    match e
    case Batch(_, _) => assert s.acked + [] == s.acked;
    case Ack(n, _) =>
      assert s.acked + s.left[..n] + s.left[n..] == s.acked + s.left;
      assert posted + [] == posted;
    case SendLost => assert posted + [] == posted;
  }

  /** Over any series of batches, partial completions and failures each byte is
      acknowledged once and in order, and send_finished comes exactly when a
      batch has been acknowledged to its end. */
  lemma {:induction false} AcknowledgedOnce(s: SendState, es: seq<SendEvent>, posted: seq<Byte>, batches: int)
    requires SendInv(s, posted, batches) && SendValid(s, es)
    ensures SendInv(SendRun(s, es), posted + Posted(es), batches + Batches(es))
    decreases |es|
  {
    if es == [] {
      assert posted + [] == posted;
    } else {
      SendStepKeeps(s, es[0], posted, batches);
      AcknowledgedOnce(SendStep(s, es[0]), es[1..], posted + PostedBy(es[0]), batches + if es[0].Batch? then 1 else 0);
      Assoc(posted, PostedBy(es[0]), Posted(es[1..]));
    }
  }
}
