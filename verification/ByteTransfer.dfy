/** The example server and client over bytes: the message channels of FileTransfer
    replaced by two links, with the kernel cutting both streams as it likes. */
module ByteTransfer {
  import opened IoBuffer
  import opened Framing
  import opened Link
  import Receiver
  import Sender
  import F = FileTransfer

  // ---- one direction ----

  /** The last recv call is over: its message lies in the user's buffer. */
  predicate Answered(l: Link) {
    l.rcv.mode.Idle? && l.rcv.log != [] && l.rcv.log[|l.rcv.log| - 1].Finished?
  }

  function Answer(l: Link): seq<Byte>
    requires Answered(l)
  {
    l.rcv.log[|l.rcv.log| - 1].content
  }

  /** How the applications use a link: `read` messages have been taken note of, its
      sender awaits send_finished or is gone, its receiver awaits recv_finished or
      is gone. */
  datatype Use = Use(read: nat, sending: bool, receiving: bool, gone: bool)

  /** `len`: the length of the buffers the receiver brings. */
  predicate LinkUsed(l: Link, z: Sizes, len: int, u: Use) {
    && LinkInv(l, z)
    && u.read <= |l.sent| <= u.read + 1
    && (forall i :: 0 <= i < |l.sent| ==> |l.sent[i]| <= len)
    && (l.snd.mode.Idle? || u.sending) && (l.snd.mode.Waiting? ==> l.snd.left != [])
    && if u.gone then !l.rcv.mode.Waiting? && u.read <= Got(l) <= u.read + 1
       else if !u.receiving then l.rcv.mode.Idle? && Got(l) == u.read
       else if l.rcv.mode.Idle? then Answered(l) && Got(l) == u.read + 1
       else l.rcv.userLen == len && Got(l) == u.read
  }

  /** What the kernels and the wire do by themselves, failures included. */
  predicate Moves(l: Link, e: LinkEvent, z: Sizes) {
    LinkEnabled(l, e, z) && match e case Tx(s, _) => !s.Batch? case Rx(r) => !r.Call?
  }

  /** No failure. */
  predicate Gentle(e: LinkEvent) {
    match e
    case Tx(s, _) => s.Ack? && s.postOk
    case Rx(r) => r.Bytes? && r.postOk
  }

  function Outstanding(m: Receiver.Mode): nat { if m.Waiting? then 1 else 0 }

  /** Bytes not yet acknowledged, bytes not yet received, operations under way. */
  function Transit(l: Link): int {
    |l.snd.left| + |l.Stream()| - l.taken + Outstanding(l.snd.mode) + Outstanding(l.rcv.mode)
  }

  lemma DeliveredLast(log: seq<Outcome>, o: Outcome)
    ensures |Delivered(log + [o])| == |Delivered(log)| + if o.Finished? then 1 else 0
  {
    DeliveredConcat(log, [o]);
    DeliveredCons(o, []);
  }

  /** One step of the receiver on bytes that are not malformed and a buffer that is
      large enough. */
  lemma StepAnswers(r: Receiver.RecvState, e: Receiver.Event, held: seq<Byte>, cap: int, len: int)
    requires !e.Lost? && Receiver.Fits(r, e, cap) && held == r.ring + Receiver.ArrivedBy(e)
    requires if e.Call? then e.u == len else r.userLen == len
    requires !FrontOf(held, cap).Malformed? && (FrontOf(held, cap).Frame? ==> FrontOf(held, cap).size <= len)
    ensures var r' := Receiver.Step(r, e, cap);
      && r'.userLen == len
      && if FrontOf(held, cap).Frame? then
           && r'.mode.Idle? && r'.log == r.log + [Finished(held[HEADER..HEADER + FrontOf(held, cap).size])]
           && |Delivered(r'.log)| == |Delivered(r.log)| + 1
         else r'.mode == (if e.postOk then Receiver.Waiting else Receiver.Dead) && r'.log == r.log
  {
    assert e.Call? ==> held == r.ring;
    if FrontOf(held, cap).Frame? {
      DeliveredLast(r.log, Finished(held[HEADER..HEADER + FrontOf(held, cap).size]));
    }
  }

  /** A recv is answered with the next message, and at the latest when all bytes
      posted are in, unless it fails. */
  lemma RxAnswers(l: Link, r: Receiver.Event, z: Sizes, len: int)
    requires LinkInv(l, z) && LinkEnabled(l, Rx(r), z) && Receiver.Fits(l.rcv, r, z.cap) && !r.Lost?
    requires if r.Call? then r.u == len else l.rcv.userLen == len
    requires forall i :: 0 <= i < |l.sent| ==> |l.sent[i]| <= len
    ensures Got(l) <= |l.sent|
    ensures var l' := LinkStep(l, Rx(r), z);
      && l'.rcv.userLen == len
      && (if l'.rcv.mode.Idle? then
            Got(l) < |l.sent| && Got(l') == Got(l) + 1 && Answered(l') && Answer(l') == l.sent[Got(l)]
          else l'.rcv.mode == (if r.postOk then Receiver.Waiting else Receiver.Dead) && Got(l') == Got(l))
      && (l'.taken == |l.Stream()| && Got(l) < |l.sent| ==> l'.rcv.mode.Idle?)
  {
    var held := l.rcv.ring + Receiver.ArrivedBy(r);
    NextFrame(l, r, held, z);
    StepAnswers(l.rcv, r, held, z.cap, len);
  }

  /** A step of the kernels or the wire finds room, keeps the use, sends nothing and
      brings both ends nearer to rest. */
  lemma MoveKeeps(l: Link, e: LinkEvent, z: Sizes, len: int, u: Use)
    requires LinkUsed(l, z, len, u) && Moves(l, e, z)
    ensures LinkFits(l, e, z)
    ensures var l' := LinkStep(l, e, z); LinkUsed(l', z, len, u) && l'.sent == l.sent && 0 <= Transit(l') < Transit(l)
  {
    match e
    case Tx(s, msgs) =>
      TxStream(l, s, msgs, z);
      LinkKeeps(l, e, z);
    case Rx(r) =>
      if r.Bytes? {
        OneFrameInFlight(l, z);
        RxAnswers(l, r, z, len);
      }
      LinkKeeps(l, e, z);
  }

  lemma SendKeeps(l: Link, frame: seq<Byte>, m: seq<Byte>, ok: bool, z: Sizes, len: int, u: Use)
    requires LinkUsed(l, z, len, u) && !u.sending && |l.sent| == u.read
    requires IsBatch(frame, [m], z.sendCap) && 1 <= |m| <= len && |m| + HEADER < z.cap
    ensures var e := Tx(Sender.Batch(frame, ok), [m]);
      && LinkEnabled(l, e, z) && LinkUsed(LinkStep(l, e, z), z, len, u.(sending := true))
      && LinkStep(l, e, z).sent == l.sent + [m]
  {
    LinkKeeps(l, Tx(Sender.Batch(frame, ok), [m]), z);
  }

  lemma CallKeeps(l: Link, ok: bool, z: Sizes, len: int, u: Use)
    requires LinkUsed(l, z, len, u) && !u.receiving && !u.gone
    ensures var e := Rx(Receiver.Call(len, ok));
      && LinkEnabled(l, e, z) && LinkUsed(LinkStep(l, e, z), z, len, u.(receiving := true))
      && LinkStep(l, e, z).sent == l.sent
  {
    RxAnswers(l, Receiver.Call(len, ok), z, len);
    LinkKeeps(l, Rx(Receiver.Call(len, ok)), z);
  }

  lemma ReadKeeps(l: Link, z: Sizes, len: int, u: Use)
    requires LinkUsed(l, z, len, u) && u.receiving && !u.gone && Answered(l)
    ensures u.read < |l.sent| && Answer(l) == l.sent[u.read]
    ensures LinkUsed(l, z, len, u.(receiving := false, read := u.read + 1))
  {
    var k := |l.rcv.log| - 1;
    assert l.rcv.log == l.rcv.log[..k] + [l.rcv.log[k]];
    DeliveredConcat(l.rcv.log[..k], [l.rcv.log[k]]);
    DeliveredCons(l.rcv.log[k], []);
    LinkDelivers(l, z);
    assert Delivered(l.rcv.log)[u.read] == Answer(l);
  }

  /** Somebody who waits is served by at most one more step of the kernels. */
  lemma AckServes(l: Link, z: Sizes, len: int, u: Use) returns (e: LinkEvent)
    requires LinkUsed(l, z, len, u) && l.snd.mode.Waiting?
    ensures Moves(l, e, z) && Gentle(e) && LinkStep(l, e, z).snd.mode.Idle?
  {
    e := Tx(Sender.Ack(|l.snd.left|, true), []);
  }

  lemma BytesServe(l: Link, z: Sizes, len: int, u: Use) returns (e: LinkEvent)
    requires LinkUsed(l, z, len, u) && u.receiving && !u.gone && u.read < |l.sent| && l.rcv.mode.Waiting?
    ensures Moves(l, e, z) && Gentle(e) && Answered(LinkStep(l, e, z))
  {
    OneFrameInFlight(l, z);
    var bytes := l.Stream()[l.taken..];
    e := Rx(Receiver.Bytes(bytes, true));
    if bytes == [] {
      ReceiverAligned(l, z);
      HeldFront(l, l.rcv.ring, z);
      assert false;
    }
    RxAnswers(l, e.r, z, len);
  }

  /** With every message delivered there is nothing to receive. */
  lemma NothingToReceive(l: Link, z: Sizes)
    requires LinkInv(l, z) && Got(l) == |l.sent|
    ensures l.taken == |l.Stream()|
  {
    LinkDelivers(l, z);
    assert Delivered(l.rcv.log) == l.sent;
  }

  // ---- one connection ----

  /** The buffers of both directions; `userLen`: what the client brings to recv. */
  datatype Buffers = Buffers(down: Sizes, up: Sizes, userLen: int) {
    predicate Suit(c: F.Config) {
      && c.piece + HEADER < down.sendCap && c.piece + HEADER < down.cap && c.piece <= userLen
      && |F.OK| + HEADER < up.sendCap && |F.OK| + HEADER < up.cap
    }
  }

  const EXAMPLE :=
    Buffers(Sizes(F.BUF_LEN + 64, F.RECV_BUF_LEN), Sizes(F.RECV_BUF_LEN, F.BUF_LEN + 64), F.RECV_BUF_LEN)

  /** `down` carries the server's messages, `up` the client's. */
  datatype Conn = Conn(se: F.ServerEnd, ce: F.ClientEnd, down: Link, up: Link, clientRead: nat, serverRead: nat)

  const NEW_CONN := Conn(F.NEW_SERVER, F.NEW_CLIENT, FRESH_LINK, FRESH_LINK, 0, 0)

  function Unread(l: Link, read: nat): seq<seq<Byte>> {
    if read <= |l.sent| then l.sent[read..] else []
  }

  /** The connection as FileTransfer sees it. */
  function Abs(w: Conn): F.Session {
    F.Session(w.se, w.ce, Unread(w.down, w.clientRead), Unread(w.up, w.serverRead))
  }

  /** A package dispatched, whose handler sends `frame` if it sends and whose posts are
      taken if `ok`; or a step of the kernels and the wire. */
  datatype Event = App(k: F.Kind, lost: nat, frame: seq<Byte>, ok: bool) | Down(e: LinkEvent) | Up(e: LinkEvent)

  /** The notification that brings the package is there: recv_finished comes once the
      call is answered, send_finished once the sender is idle again, disconnected
      once the operation under way has failed. */
  predicate Notified(w: Conn, k: F.Kind) {
    match k
    case ServerSent => w.down.snd.mode.Idle?
    case ServerRecv => Answered(w.up)
    case ServerDisconnected => w.down.snd.mode.Dead? || w.up.rcv.mode.Dead?
    case ClientRecv => Answered(w.down)
    case ClientSent => w.up.snd.mode.Idle?
    case _ => true
  }

  predicate ServerReady(c: F.Config, sh: F.Shared, w: Conn, k: F.Kind, lost: nat) {
    k.AtServer() && F.Readable(c, sh, w.se.sv, lost) && F.ServerMay(w.se, k, Answered(w.up)) && Notified(w, k)
  }

  function ServerOut(c: F.Config, sh: F.Shared, w: Conn, k: F.Kind, lost: nat)
    : (F.Shared, F.ServerEnd, seq<seq<Byte>>)
    requires ServerReady(c, sh, w, k, lost)
  {
    F.ServerHandler(c, sh, w.se, k, if k.ServerRecv? then Answer(w.up) else [], lost)
  }

  predicate ClientReady(w: Conn, k: F.Kind) {
    !k.AtServer() && w.ce.cl.files != [] && F.ClientMay(w.ce, k, Answered(w.down)) && Notified(w, k)
  }

  function ClientOut(c: F.Config, w: Conn, k: F.Kind): (F.ClientEnd, seq<seq<Byte>>)
    requires ClientReady(w, k)
  {
    F.ClientHandler(c, w.ce, k, if k.ClientRecv? then Answer(w.down) else [])
  }

  predicate CanPost(l: Link, out: seq<seq<Byte>>, frame: seq<Byte>, ok: bool, z: Sizes) {
    out != [] ==> LinkEnabled(l, Tx(Sender.Batch(frame, ok), out), z)
  }

  function Posted(l: Link, out: seq<seq<Byte>>, frame: seq<Byte>, ok: bool, z: Sizes): Link
    requires CanPost(l, out, frame, ok, z)
  {
    if out == [] then l else LinkStep(l, Tx(Sender.Batch(frame, ok), out), z)
  }

  predicate CanCall(l: Link, calls: bool, len: int, ok: bool, z: Sizes) {
    calls ==> LinkEnabled(l, Rx(Receiver.Call(len, ok)), z)
  }

  function Called(l: Link, calls: bool, len: int, ok: bool, z: Sizes): Link
    requires CanCall(l, calls, len, ok, z)
  {
    if calls then LinkStep(l, Rx(Receiver.Call(len, ok)), z) else l
  }

  predicate Enabled(c: F.Config, b: Buffers, sh: F.Shared, w: Conn, e: Event) {
    match e
    case Down(le) => Moves(w.down, le, b.down)
    case Up(le) => Moves(w.up, le, b.up)
    case App(k, lost, frame, ok) =>
      lost <= |c.file| &&
      if k.AtServer() then
        && ServerReady(c, sh, w, k, lost) && CanPost(w.down, ServerOut(c, sh, w, k, lost).2, frame, ok, b.down)
        && CanCall(w.up, k.ServerSent?, |F.OK|, ok, b.up)
      else
        && ClientReady(w, k) && CanPost(w.up, ClientOut(c, w, k).1, frame, ok, b.up)
        && CanCall(w.down, !k.ClientRecv?, b.userLen, ok, b.down)
  }

  function Step(c: F.Config, b: Buffers, sh: F.Shared, w: Conn, e: Event): (F.Shared, Conn)
    requires Enabled(c, b, sh, w, e)
  {
    match e
    case Down(le) => (sh, w.(down := LinkStep(w.down, le, b.down)))
    case Up(le) => (sh, w.(up := LinkStep(w.up, le, b.up)))
    case App(k, lost, frame, ok) =>
      if k.AtServer() then
        var (sh', se', out) := ServerOut(c, sh, w, k, lost);
        (sh', w.(se := se', down := Posted(w.down, out, frame, ok, b.down),
                 up := Called(w.up, k.ServerSent?, |F.OK|, ok, b.up),
                 serverRead := w.serverRead + if k.ServerRecv? then 1 else 0))
      else
        var (ce', out) := ClientOut(c, w, k);
        (sh, w.(ce := ce', up := Posted(w.up, out, frame, ok, b.up),
                down := Called(w.down, !k.ClientRecv?, b.userLen, ok, b.down),
                clientRead := w.clientRead + if k.ClientRecv? then 1 else 0))
  }

  function DownUse(w: Conn): Use {
    Use(w.clientRead, w.se.phase.ServerSending? || w.se.phase.ServerGone?, w.ce.phase.ClientReceiving?, false)
  }

  function UpUse(w: Conn): Use {
    Use(w.serverRead, w.ce.phase.ClientSending?, w.se.phase.ServerReceiving?, w.se.phase.ServerGone?)
  }

  /** One message under way at most, and none before the server is connected. */
  predicate Polite(c: F.Config, s: F.Session) {
    && c.Valid() && c.file != [] && s.ce.cl.files != [] && s.se.sv.pos <= |c.file|
    && |s.toClient| + |s.toServer| <= 1
    && (s.se.phase.ServerNew? ==>
          && s.se.sv.pos == 0 && s.toClient == [] && s.toServer == []
          && (s.ce.phase.ClientNew? || s.ce.phase.ClientReceiving?))
    && (s.ce.phase.ClientQuit? ==> s.toClient == [] && s.toServer == [])
  }

  /** Nothing has failed: only a client that has quit makes the server's recv end. */
  predicate Healthy(w: Conn) {
    && !w.down.snd.mode.Dead? && !w.down.rcv.mode.Dead? && !w.up.snd.mode.Dead?
    && (w.up.rcv.mode.Dead? ==> w.ce.phase.ClientQuit?)
  }

  /** Nothing fails; a client that has quit closes its socket. */
  predicate Smooth(w: Conn, e: Event) {
    match e
    case App(_, _, _, ok) => ok
    case Down(le) => Gentle(le)
    case Up(le) => Gentle(le) || (le == Rx(Receiver.Lost) && w.ce.phase.ClientQuit?)
  }

  predicate ConnInv(c: F.Config, b: Buffers, w: Conn) {
    && Polite(c, Abs(w)) && b.Suit(c)
    && LinkUsed(w.down, b.down, b.userLen, DownUse(w)) && LinkUsed(w.up, b.up, |F.OK|, UpUse(w))
  }

  lemma NewConnOk(c: F.Config, b: Buffers)
    requires c.Valid() && c.file != [] && b.Suit(c)
    ensures ConnInv(c, b, NEW_CONN) && Abs(NEW_CONN) == F.NEW_SESSION
  {
  }

  /** What the server sends is never empty and never longer than a piece. */
  lemma ServerSays(c: F.Config, sh: F.Shared, e: F.ServerEnd, k: F.Kind, m: seq<Byte>, lost: nat)
    requires F.Readable(c, sh, e.sv, lost) && k.AtServer() && c.file != [] && (k.ServerConnected? ==> e.sv.pos == 0)
    ensures var (sh', e', out) := F.ServerHandler(c, sh, e, k, m, lost);
      && |sh'.buf| == c.piece && e'.sv.pos <= |c.file| && |out| <= 1 && (out != [] ==> 1 <= |out[0]| <= c.piece)
  {
    F.MessageFromSeek(c, sh, e.sv, lost);
  }

  lemma PoliteKeeps(c: F.Config, sh: F.Shared, s: F.Session, k: F.Kind, lost: nat)
    requires Polite(c, s) && F.Sane(c, sh, s, lost) && F.Enabled(s, k)
    ensures var (sh', s') := F.Step(c, sh, s, k, lost); |sh'.buf| == c.piece && Polite(c, s')
  {
    if k.AtServer() {
      ServerSays(c, sh, s.se, k, if k.ServerRecv? then s.toServer[0] else [], lost);
    }
  }

  lemma UnreadSent(l: Link, l': Link, read: nat, out: seq<seq<Byte>>)
    requires read <= |l.sent| && l'.sent == l.sent + out
    ensures Unread(l', read) == Unread(l, read) + out
  {
  }

  lemma UnreadRead(l: Link, l': Link, read: nat)
    requires read < |l.sent| && l'.sent == l.sent
    ensures Unread(l, read) != [] && Unread(l, read)[0] == l.sent[read]
    ensures Unread(l', read + 1) == Unread(l, read)[1..]
  {
  }

  /** The message that was received is the one the channel gives. */
  predicate Reads(l: Link, read: nat, reading: bool) {
    && read <= |l.sent|
    && (reading ==> Answered(l) && read < |l.sent| && Answer(l) == l.sent[read] && Answer(l) != [])
  }

  /** What a handler does to the links is what it does to the channels. */
  lemma ServerMatches(c: F.Config, b: Buffers, sh: F.Shared, w: Conn, e: Event)
    requires e.App? && e.k.AtServer() && Enabled(c, b, sh, w, e) && w.ce.cl.files != []
    requires Reads(w.down, w.clientRead, false) && Reads(w.up, w.serverRead, e.k.ServerRecv?)
    ensures F.Sane(c, sh, Abs(w), e.lost) && F.Enabled(Abs(w), e.k)
    ensures var r := Step(c, b, sh, w, e); F.Step(c, sh, Abs(w), e.k, e.lost) == (r.0, Abs(r.1))
  {
    var w' := Step(c, b, sh, w, e).1;
    UnreadSent(w.down, w'.down, w.clientRead, ServerOut(c, sh, w, e.k, e.lost).2);
    if e.k.ServerRecv? {
      UnreadRead(w.up, w'.up, w.serverRead);
    }
  }

  lemma ClientMatches(c: F.Config, b: Buffers, sh: F.Shared, w: Conn, e: Event)
    requires e.App? && !e.k.AtServer() && Enabled(c, b, sh, w, e) && F.Readable(c, sh, w.se.sv, e.lost)
    requires Reads(w.up, w.serverRead, false) && Reads(w.down, w.clientRead, e.k.ClientRecv?)
    ensures F.Sane(c, sh, Abs(w), e.lost) && F.Enabled(Abs(w), e.k)
    ensures var r := Step(c, b, sh, w, e); F.Step(c, sh, Abs(w), e.k, e.lost) == (r.0, Abs(r.1))
  {
    var w' := Step(c, b, sh, w, e).1;
    UnreadSent(w.up, w'.up, w.serverRead, ClientOut(c, w, e.k).1);
    if e.k.ClientRecv? {
      UnreadRead(w.down, w'.down, w.clientRead);
    }
  }

  lemma ServerSendUses(c: F.Config, b: Buffers, sh: F.Shared, w: Conn, e: Event)
    requires ConnInv(c, b, w) && e.App? && F.Sends(e.k) && Enabled(c, b, sh, w, e)
    ensures Reads(w.down, w.clientRead, false) && Reads(w.up, w.serverRead, e.k.ServerRecv?)
    ensures var w' := Step(c, b, sh, w, e).1;
      LinkUsed(w'.down, b.down, b.userLen, DownUse(w')) && LinkUsed(w'.up, b.up, |F.OK|, UpUse(w'))
  {
    var out := ServerOut(c, sh, w, e.k, e.lost).2;
    ServerSays(c, sh, w.se, e.k, if e.k.ServerRecv? then Answer(w.up) else [], e.lost);
    if e.k.ServerRecv? {
      ReadKeeps(w.up, b.up, |F.OK|, UpUse(w));
    }
    if out != [] {
      assert out == [out[0]];
      SendKeeps(w.down, e.frame, out[0], e.ok, b.down, b.userLen, DownUse(w));
    }
  }

  lemma ServerUses(c: F.Config, b: Buffers, sh: F.Shared, w: Conn, e: Event)
    requires ConnInv(c, b, w) && e.App? && e.k.AtServer() && Enabled(c, b, sh, w, e)
    ensures Reads(w.down, w.clientRead, false) && Reads(w.up, w.serverRead, e.k.ServerRecv?)
    ensures var w' := Step(c, b, sh, w, e).1;
      LinkUsed(w'.down, b.down, b.userLen, DownUse(w')) && LinkUsed(w'.up, b.up, |F.OK|, UpUse(w'))
  {
    if F.Sends(e.k) {
      ServerSendUses(c, b, sh, w, e);
    } else if e.k.ServerSent? {
      CallKeeps(w.up, e.ok, b.up, |F.OK|, UpUse(w));
    }
  }

  lemma ClientUses(c: F.Config, b: Buffers, sh: F.Shared, w: Conn, e: Event)
    requires ConnInv(c, b, w) && e.App? && !e.k.AtServer() && Enabled(c, b, sh, w, e)
    ensures Reads(w.up, w.serverRead, false) && Reads(w.down, w.clientRead, e.k.ClientRecv?)
    ensures var w' := Step(c, b, sh, w, e).1;
      LinkUsed(w'.down, b.down, b.userLen, DownUse(w')) && LinkUsed(w'.up, b.up, |F.OK|, UpUse(w'))
  {
    if e.k.ClientRecv? {
      ReadKeeps(w.down, b.down, b.userLen, DownUse(w));
      if ClientOut(c, w, e.k).1 != [] {
        SendKeeps(w.up, e.frame, F.OK, e.ok, b.up, |F.OK|, UpUse(w));
      }
    } else {
      CallKeeps(w.down, e.ok, b.down, b.userLen, DownUse(w));
    }
  }

  lemma HandlerMatches(c: F.Config, b: Buffers, sh: F.Shared, w: Conn, e: Event)
    requires ConnInv(c, b, w) && |sh.buf| == c.piece && e.App? && Enabled(c, b, sh, w, e)
    ensures F.Sane(c, sh, Abs(w), e.lost) && F.Enabled(Abs(w), e.k)
    ensures var (sh', w') := Step(c, b, sh, w, e);
      F.Step(c, sh, Abs(w), e.k, e.lost) == (sh', Abs(w')) && ConnInv(c, b, w') && |sh'.buf| == c.piece
  {
    if e.k.AtServer() {
      ServerUses(c, b, sh, w, e);
      ServerMatches(c, b, sh, w, e);
    } else {
      ClientUses(c, b, sh, w, e);
      ClientMatches(c, b, sh, w, e);
    }
    PoliteKeeps(c, sh, Abs(w), e.k, e.lost);
  }

  function Moving(w: Conn): int { Transit(w.down) + Transit(w.up) }

  lemma DownMatches(c: F.Config, b: Buffers, w: Conn, le: LinkEvent)
    requires ConnInv(c, b, w) && Moves(w.down, le, b.down)
    ensures var w' := w.(down := LinkStep(w.down, le, b.down));
      ConnInv(c, b, w') && Abs(w') == Abs(w) && 0 <= Moving(w') < Moving(w)
  {
    MoveKeeps(w.down, le, b.down, b.userLen, DownUse(w));
  }

  lemma UpMatches(c: F.Config, b: Buffers, w: Conn, le: LinkEvent)
    requires ConnInv(c, b, w) && Moves(w.up, le, b.up)
    ensures var w' := w.(up := LinkStep(w.up, le, b.up));
      ConnInv(c, b, w') && Abs(w') == Abs(w) && 0 <= Moving(w') < Moving(w)
  {
    MoveKeeps(w.up, le, b.up, |F.OK|, UpUse(w));
  }

  /** Every step of the bytes is a step of the messages, or none of them and some
      bytes nearer to rest. */
  lemma StepMatches(c: F.Config, b: Buffers, sh: F.Shared, w: Conn, e: Event)
    requires ConnInv(c, b, w) && |sh.buf| == c.piece && Enabled(c, b, sh, w, e)
    ensures var (sh', w') := Step(c, b, sh, w, e);
      && ConnInv(c, b, w') && |sh'.buf| == c.piece
      && if e.App? then
           && F.Sane(c, sh, Abs(w), e.lost) && F.Enabled(Abs(w), e.k)
           && F.Step(c, sh, Abs(w), e.k, e.lost) == (sh', Abs(w'))
         else sh' == sh && Abs(w') == Abs(w) && 0 <= Moving(w') < Moving(w)
  {
    match e
    case App(_, _, _, _) => HandlerMatches(c, b, sh, w, e);
    case Down(le) => DownMatches(c, b, w, le);
    case Up(le) => UpMatches(c, b, w, le);
  }

  /** A post that is taken fails nothing. */
  lemma PostHealthy(l: Link, out: seq<seq<Byte>>, frame: seq<Byte>, z: Sizes)
    requires CanPost(l, out, frame, true, z) && !l.snd.mode.Dead?
    ensures !Posted(l, out, frame, true, z).snd.mode.Dead? && Posted(l, out, frame, true, z).rcv == l.rcv
  {
  }

  lemma CallHealthy(l: Link, calls: bool, len: int, z: Sizes)
    requires CanCall(l, calls, len, true, z)
    ensures var l' := Called(l, calls, len, true, z); l'.snd == l.snd && (l'.rcv.mode.Dead? ==> l.rcv.mode.Dead?)
  {
  }

  lemma GentleHealthy(l: Link, e: LinkEvent, z: Sizes)
    requires LinkEnabled(l, e, z) && Gentle(e)
    ensures var l' := LinkStep(l, e, z);
      (l'.snd.mode.Dead? ==> l.snd.mode.Dead?) && (l'.rcv.mode.Dead? ==> l.rcv.mode.Dead?)
  {
  }

  /** As long as nothing fails the server sees a connection end only after the client
      has quit. */
  lemma HealthKept(c: F.Config, b: Buffers, sh: F.Shared, w: Conn, e: Event)
    requires ConnInv(c, b, w) && Healthy(w) && Enabled(c, b, sh, w, e) && Smooth(w, e)
    ensures Healthy(Step(c, b, sh, w, e).1)
    ensures e.App? ==> F.Orderly(Abs(w), e.k)
  {
    match e
    case Down(le) => GentleHealthy(w.down, le, b.down);
    case Up(le) => if Gentle(le) { GentleHealthy(w.up, le, b.up); }
    case App(k, lost, frame, _) =>
      if k.AtServer() {
        PostHealthy(w.down, ServerOut(c, sh, w, k, lost).2, frame, b.down);
        CallHealthy(w.up, k.ServerSent?, |F.OK|, b.up);
      } else {
        PostHealthy(w.up, ClientOut(c, w, k).1, frame, b.up);
        CallHealthy(w.down, !k.ClientRecv?, b.userLen, b.down);
      }
  }

  lemma FrameFits(l: Link, m: seq<Byte>, z: Sizes, len: int, u: Use)
    requires LinkUsed(l, z, len, u) && !u.sending && |m| <= INT_MAX && |m| + HEADER < z.sendCap
    ensures CanPost(l, [m], FrameOf(m), true, z)
  {
    FrameOfIsFrame(m);
    StreamOfOne(FrameOf(m), m);
  }

  /** A handler whose notification is there can run: its message fits the send buffer. */
  lemma HandlerRuns(c: F.Config, b: Buffers, sh: F.Shared, w: Conn, k: F.Kind, lost: nat) returns (e: Event)
    requires ConnInv(c, b, w) && F.Sane(c, sh, Abs(w), lost) && F.Enabled(Abs(w), k) && Notified(w, k)
    ensures e.App? && e.k == k && e.lost == lost && e.ok && Enabled(c, b, sh, w, e)
  {
    e := App(k, lost, [], true);
    if k.AtServer() {
      var out := ServerOut(c, sh, w, k, lost).2;
      ServerSays(c, sh, w.se, k, if k.ServerRecv? then Answer(w.up) else [], lost);
      if out != [] {
        assert out == [out[0]];
        FrameFits(w.down, out[0], b.down, b.userLen, DownUse(w));
        e := App(k, lost, FrameOf(out[0]), true);
      }
    } else if k.ClientRecv? && ClientOut(c, w, k).1 != [] {
      FrameFits(w.up, F.OK, b.up, |F.OK|, UpUse(w));
      e := App(k, lost, FrameOf(F.OK), true);
    }
  }

  /** If it is not there, one step of the kernels brings it. */
  lemma KernelServes(c: F.Config, b: Buffers, sh: F.Shared, w: Conn, k: F.Kind) returns (e: Event)
    requires ConnInv(c, b, w) && Healthy(w) && F.Enabled(Abs(w), k) && F.Orderly(Abs(w), k) && !Notified(w, k)
    ensures !e.App? && Enabled(c, b, sh, w, e) && Smooth(w, e) && Notified(Step(c, b, sh, w, e).1, k)
  {
    var le;
    match k
    case ServerSent => le := AckServes(w.down, b.down, b.userLen, DownUse(w)); e := Down(le);
    case ServerRecv => le := BytesServe(w.up, b.up, |F.OK|, UpUse(w)); e := Up(le);
    case ServerDisconnected => LinkDelivers(w.up, b.up); e := Up(Rx(Receiver.Lost));
    case ClientRecv => le := BytesServe(w.down, b.down, b.userLen, DownUse(w)); e := Down(le);
    case ClientSent => le := AckServes(w.up, b.up, |F.OK|, UpUse(w)); e := Up(le);
  }

  // ---- any number of connections, any interleaving ----

  datatype Net = Net(sh: F.Shared, ws: seq<Conn>, room: nat, count: int, quit: bool)

  datatype Action = Act(i: int, e: Event)

  predicate CanAct(c: F.Config, b: Buffers, y: Net, a: Action) {
    && 0 <= a.i < |y.ws| && Enabled(c, b, y.sh, y.ws[a.i], a.e)
    && (a.e.App? && a.e.k.AtServer() ==> !y.quit) && (a.e.App? && a.e.k.ServerConnected? ==> y.room > 0)
  }

  function Next(c: F.Config, b: Buffers, y: Net, a: Action): Net
    requires CanAct(c, b, y, a)
  {
    var (sh, w) := Step(c, b, y.sh, y.ws[a.i], a.e);
    if a.e.App? then
      Net(sh, y.ws[a.i := w], F.RoomAfter(y.room, a.e.k), F.CountAfter(y.count, a.e.k),
          F.QuitAfter(y.quit, y.count, a.e.k))
    else y.(sh := sh, ws := y.ws[a.i := w])
  }

  predicate Run(c: F.Config, b: Buffers, y: Net, acts: seq<Action>)
    decreases |acts|
  {
    acts == [] || (CanAct(c, b, y, acts[0]) && Run(c, b, Next(c, b, y, acts[0]), acts[1..]))
  }

  function End(c: F.Config, b: Buffers, y: Net, acts: seq<Action>): (e: Net)
    requires Run(c, b, y, acts)
    ensures |e.ws| == |y.ws|
    decreases |acts|
  {
    if acts == [] then y else End(c, b, Next(c, b, y, acts[0]), acts[1..])
  }

  predicate Initial(c: F.Config, y: Net) {
    && c.Valid() && |y.sh.buf| == c.piece && y.count == 0 && !y.quit
    && forall i :: 0 <= i < |y.ws| ==> y.ws[i] == NEW_CONN
  }

  predicate NetInv(c: F.Config, b: Buffers, y: Net) {
    |y.sh.buf| == c.piece && forall i :: 0 <= i < |y.ws| ==> ConnInv(c, b, y.ws[i])
  }

  predicate AllHealthy(y: Net) { forall i :: 0 <= i < |y.ws| ==> Healthy(y.ws[i]) }

  function AbsNet(y: Net): F.System {
    F.System(y.sh, seq(|y.ws|, i requires 0 <= i < |y.ws| => Abs(y.ws[i])), y.room, y.count, y.quit)
  }

  lemma AbsUpdated(y: Net, i: int, y': Net)
    requires 0 <= i < |y.ws| == |y'.ws| && y'.ws == y.ws[i := y'.ws[i]]
    ensures AbsNet(y').ss == AbsNet(y).ss[i := Abs(y'.ws[i])]
  {
  }

  lemma NextKeeps(c: F.Config, b: Buffers, y: Net, a: Action)
    requires NetInv(c, b, y) && CanAct(c, b, y, a)
    ensures NetInv(c, b, Next(c, b, y, a))
  {
    StepMatches(c, b, y.sh, y.ws[a.i], a.e);
  }

  lemma HandlerNext(c: F.Config, b: Buffers, y: Net, a: Action)
    requires NetInv(c, b, y) && CanAct(c, b, y, a) && a.e.App?
    ensures var m := F.Act(a.i, a.e.k, a.e.lost);
      F.CanAct(c, AbsNet(y), m) && F.Next(c, AbsNet(y), m) == AbsNet(Next(c, b, y, a))
  {
    HandlerMatches(c, b, y.sh, y.ws[a.i], a.e);
    assert AbsNet(y).ss[a.i] == Abs(y.ws[a.i]);
    AbsUpdated(y, a.i, Next(c, b, y, a));
  }

  lemma KernelNext(c: F.Config, b: Buffers, y: Net, a: Action)
    requires NetInv(c, b, y) && CanAct(c, b, y, a) && !a.e.App?
    ensures AbsNet(Next(c, b, y, a)) == AbsNet(y)
  {
    StepMatches(c, b, y.sh, y.ws[a.i], a.e);
    AbsUpdated(y, a.i, Next(c, b, y, a));
    assert AbsNet(y).ss[a.i := AbsNet(y).ss[a.i]] == AbsNet(y).ss;
  }

  lemma NextMatches(c: F.Config, b: Buffers, y: Net, a: Action)
    requires NetInv(c, b, y) && CanAct(c, b, y, a)
    ensures NetInv(c, b, Next(c, b, y, a))
    ensures if a.e.App? then
        var m := F.Act(a.i, a.e.k, a.e.lost);
        F.CanAct(c, AbsNet(y), m) && F.Next(c, AbsNet(y), m) == AbsNet(Next(c, b, y, a))
      else AbsNet(Next(c, b, y, a)) == AbsNet(y)
  {
    NextKeeps(c, b, y, a);
    if a.e.App? {
      HandlerNext(c, b, y, a);
    } else {
      KernelNext(c, b, y, a);
    }
  }

  /** The packages dispatched in a run. */
  function Messages(acts: seq<Action>): seq<F.Action> {
    if acts == [] then []
    else (if acts[0].e.App? then [F.Act(acts[0].i, acts[0].e.k, acts[0].e.lost)] else []) + Messages(acts[1..])
  }

  predicate SmoothRun(c: F.Config, b: Buffers, y: Net, acts: seq<Action>)
    requires Run(c, b, y, acts)
    decreases |acts|
  {
    acts == [] || (Smooth(y.ws[acts[0].i], acts[0].e) && SmoothRun(c, b, Next(c, b, y, acts[0]), acts[1..]))
  }

  /** Every run over bytes is a run over messages: the one its packages make. */
  lemma {:induction false} RefinesMessages(c: F.Config, b: Buffers, y: Net, acts: seq<Action>)
    requires NetInv(c, b, y) && Run(c, b, y, acts)
    ensures NetInv(c, b, End(c, b, y, acts))
    ensures F.Run(c, AbsNet(y), Messages(acts))
    ensures F.End(c, AbsNet(y), Messages(acts)) == AbsNet(End(c, b, y, acts))
    decreases |acts|
  {
    if acts == [] {
    } else {
      NextMatches(c, b, y, acts[0]);
      RefinesMessages(c, b, Next(c, b, y, acts[0]), acts[1..]);
      var later := Messages(acts[1..]);
      assert Messages(acts) == if acts[0].e.App? then [Messages(acts)[0]] + later else later;
      assert acts[0].e.App? ==> Messages(acts)[1..] == later;
    }
  }

  predicate Sound(c: F.Config, b: Buffers, y: Net) { NetInv(c, b, y) && AllHealthy(y) }

  lemma NextSound(c: F.Config, b: Buffers, y: Net, a: Action)
    requires Sound(c, b, y) && CanAct(c, b, y, a) && Smooth(y.ws[a.i], a.e)
    ensures Sound(c, b, Next(c, b, y, a))
    ensures a.e.App? ==> F.Orderly(AbsNet(y).ss[a.i], a.e.k)
  {
    NextKeeps(c, b, y, a);
    HealthKept(c, b, y.sh, y.ws[a.i], a.e);
  }

  /** Where nothing fails over bytes nothing fails over messages. */
  lemma {:induction false} RefinesOrderly(c: F.Config, b: Buffers, y: Net, acts: seq<Action>)
    requires Sound(c, b, y) && Run(c, b, y, acts) && SmoothRun(c, b, y, acts)
    ensures Sound(c, b, End(c, b, y, acts))
    ensures F.Run(c, AbsNet(y), Messages(acts)) && F.OrderlyRun(c, AbsNet(y), Messages(acts))
    decreases |acts|
  {
    if acts == [] {
    } else {
      NextMatches(c, b, y, acts[0]);
      NextSound(c, b, y, acts[0]);
      RefinesOrderly(c, b, Next(c, b, y, acts[0]), acts[1..]);
      var later := Messages(acts[1..]);
      if acts[0].e.App? {
        F.OrderlyLater(c, AbsNet(y), F.Act(acts[0].i, acts[0].e.k, acts[0].e.lost), later);
      } else {
        assert Messages(acts) == later;
      }
    }
  }

  /** If the seek of this step fails, it leaves the handle where it was. */
  predicate SeekKept(y: Net, a: Action)
    requires 0 <= a.i < |y.ws|
  {
    a.e.App? && y.ws[a.i].se.sv.pos < 0 ==> a.e.lost == y.sh.filePos
  }

  predicate Stays(c: F.Config, b: Buffers, y: Net, acts: seq<Action>)
    requires Run(c, b, y, acts)
    decreases |acts|
  {
    acts == [] || (SeekKept(y, acts[0]) && Stays(c, b, Next(c, b, y, acts[0]), acts[1..]))
  }

  predicate Tidy(y: Net, a: Action)
    requires 0 <= a.i < |y.ws|
  {
    SeekKept(y, a) && Smooth(y.ws[a.i], a.e)
  }

  predicate TidyRun(c: F.Config, b: Buffers, y: Net, acts: seq<Action>)
    requires Run(c, b, y, acts)
  {
    Stays(c, b, y, acts) && SmoothRun(c, b, y, acts)
  }

  lemma RunLater(c: F.Config, b: Buffers, y: Net, a: Action, later: seq<Action>)
    requires CanAct(c, b, y, a) && Run(c, b, Next(c, b, y, a), later)
    ensures Run(c, b, y, [a] + later) && End(c, b, y, [a] + later) == End(c, b, Next(c, b, y, a), later)
    ensures Tidy(y, a) && TidyRun(c, b, Next(c, b, y, a), later) ==> TidyRun(c, b, y, [a] + later)
  {
    assert ([a] + later)[1..] == later;
  }

  /** Brings the notification that a package needs, if it is not there. */
  lemma Prepare(c: F.Config, b: Buffers, y: Net, a: F.Action) returns (before: seq<Action>, y1: Net)
    requires Sound(c, b, y) && F.CanGoOn(c, AbsNet(y), a)
    ensures if before == [] then y1 == y
            else |before| == 1 && CanAct(c, b, y, before[0]) && Tidy(y, before[0]) && y1 == Next(c, b, y, before[0])
    ensures Sound(c, b, y1) && AbsNet(y1) == AbsNet(y) && Notified(y1.ws[a.i], a.k)
  {
    before, y1 := [], y;
    if !Notified(y.ws[a.i], a.k) {
      var e := KernelServes(c, b, y.sh, y.ws[a.i], a.k);
      before := [Act(a.i, e)];
      NextMatches(c, b, y, before[0]);
      NextSound(c, b, y, before[0]);
      y1 := Next(c, b, y, before[0]);
    }
  }

  lemma Perform(c: F.Config, b: Buffers, y: Net, a: F.Action) returns (e: Action)
    requires Sound(c, b, y) && F.CanGoOn(c, AbsNet(y), a) && Notified(y.ws[a.i], a.k)
    ensures e.i == a.i && CanAct(c, b, y, e) && Smooth(y.ws[e.i], e.e) && Sound(c, b, Next(c, b, y, e))
    ensures AbsNet(Next(c, b, y, e)) == F.Next(c, AbsNet(y), a)
    ensures F.SeekKept(AbsNet(y), a) ==> Tidy(y, e)
  {
    assert AbsNet(y).ss[a.i] == Abs(y.ws[a.i]);
    var v := HandlerRuns(c, b, y.sh, y.ws[a.i], a.k, a.lost);
    e := Act(a.i, v);
    NextMatches(c, b, y, e);
    NextSound(c, b, y, e);
  }

  /** Every run over messages in which nothing fails is one over bytes: where a
      notification is missing, one step of the kernels brings it. */
  lemma {:induction false} RealizesMessages(c: F.Config, b: Buffers, y: Net, facts: seq<F.Action>)
    returns (acts: seq<Action>)
    requires Sound(c, b, y) && F.Run(c, AbsNet(y), facts) && F.TidyRun(c, AbsNet(y), facts)
    ensures Run(c, b, y, acts) && TidyRun(c, b, y, acts) && Sound(c, b, End(c, b, y, acts))
    ensures AbsNet(End(c, b, y, acts)) == F.End(c, AbsNet(y), facts)
    decreases |facts|
  {
    if facts == [] {
      acts := [];
    } else {
      var before, y1 := Prepare(c, b, y, facts[0]);
      var e := Perform(c, b, y1, facts[0]);
      var later := RealizesMessages(c, b, Next(c, b, y1, e), facts[1..]);
      RunLater(c, b, y1, e, later);
      acts := [e] + later;
      if before != [] {
        RunLater(c, b, y, before[0], acts);
        acts := [before[0]] + acts;
      }
    }
  }

  // ---- the server's loop ----

  /** The loop has quit before it dispatched the connected package of connection `i`, or
      the listener had stopped before it came. */
  predicate Stranded(y: Net, i: int)
    requires 0 <= i < |y.ws|
  {
    (y.quit || y.room == 0) && y.ws[i].se.phase.ServerNew?
  }

  predicate LastLeaves(y: Net, a: Action) { a.e.App? && a.e.k.ServerDisconnected? && y.count == 1 }

  /** At some moment of the run there is no room left, or a step takes the count back to
      0, while connection `i` is still to be connected. */
  predicate LeftBehind(c: F.Config, b: Buffers, y: Net, acts: seq<Action>, i: int)
    requires Run(c, b, y, acts) && 0 <= i < |y.ws|
    decreases |acts|
  {
    || (y.room == 0 && y.ws[i].se.phase.ServerNew?)
    || (acts != [] && LastLeaves(y, acts[0]) && y.ws[i].se.phase.ServerNew?)
    || (acts != [] && LeftBehind(c, b, Next(c, b, y, acts[0]), acts[1..], i))
  }

  lemma StrandedStep(c: F.Config, b: Buffers, y: Net, a: Action, i: int)
    requires CanAct(c, b, y, a) && 0 <= i < |y.ws|
    ensures Stranded(y, i) || (LastLeaves(y, a) && y.ws[i].se.phase.ServerNew?) ==> Stranded(Next(c, b, y, a), i)
    ensures Stranded(Next(c, b, y, a), i) ==>
      Stranded(y, i) || (LastLeaves(y, a) && y.ws[i].se.phase.ServerNew?) || Next(c, b, y, a).room == 0
  {
  }

  lemma {:induction false} StrandedIff(c: F.Config, b: Buffers, y: Net, acts: seq<Action>, i: int)
    requires Run(c, b, y, acts) && 0 <= i < |y.ws|
    ensures Stranded(End(c, b, y, acts), i) <==> Stranded(y, i) || LeftBehind(c, b, y, acts, i)
    decreases |acts|
  {
    if acts == [] {
    } else {
      StrandedStep(c, b, y, acts[0], i);
      StrandedIff(c, b, Next(c, b, y, acts[0]), acts[1..], i);
    }
  }

  /** What is left of a connection: messages and notifications as FileTransfer counts
      them, then bytes and operations not yet at rest. */
  predicate Nearer(c: F.Config, w': Conn, w: Conn)
    requires F.OnPath(c, Abs(w')) && F.OnPath(c, Abs(w))
  {
    var s', s := Abs(w'), Abs(w);
    || F.Less(F.Left(c, s', s'.se.sv.pos), F.Left(c, s, s.se.sv.pos))
    || (s' == s && 0 <= Moving(w') < Moving(w))
  }

  lemma NearerStep(c: F.Config, b: Buffers, sh: F.Shared, w: Conn, e: Event)
    requires ConnInv(c, b, w) && F.OnPath(c, Abs(w)) && |sh.buf| == c.piece && Enabled(c, b, sh, w, e)
    requires |c.file| % c.piece != 1
    ensures F.OnPath(c, Abs(Step(c, b, sh, w, e).1)) && Nearer(c, Step(c, b, sh, w, e).1, w)
  {
    StepMatches(c, b, sh, w, e);
    if e.App? {
      F.PathKept(c, sh, Abs(w), e.k, e.lost);
    }
  }

  lemma NearerNext(c: F.Config, b: Buffers, y: Net, a: Action)
    requires CanAct(c, b, y, a) && ConnInv(c, b, y.ws[a.i]) && F.OnPath(c, Abs(y.ws[a.i]))
    requires |y.sh.buf| == c.piece && |c.file| % c.piece != 1
    ensures F.OnPath(c, Abs(Next(c, b, y, a).ws[a.i])) && Nearer(c, Next(c, b, y, a).ws[a.i], y.ws[a.i])
  {
    NearerStep(c, b, y.sh, y.ws[a.i], a.e);
  }

  /** A step that connection `a.i` can make without a failure. */
  predicate CanGoOn(c: F.Config, b: Buffers, y: Net, a: Action) {
    CanAct(c, b, y, a) && Smooth(y.ws[a.i], a.e)
  }

  /** Whoever can go on over messages can go on over bytes. */
  lemma GoesOn(c: F.Config, b: Buffers, y: Net, m: F.Action) returns (a: Action)
    requires Sound(c, b, y) && F.CanGoOn(c, AbsNet(y), m)
    ensures a.i == m.i && CanGoOn(c, b, y, a)
  {
    if Notified(y.ws[m.i], m.k) {
      a := Perform(c, b, y, m);
    } else {
      var e := KernelServes(c, b, y.sh, y.ws[m.i], m.k);
      a := Act(m.i, e);
    }
  }

  lemma InitialMatches(c: F.Config, b: Buffers, y: Net)
    requires Initial(c, y) && c.file != [] && b.Suit(c)
    ensures Sound(c, b, y) && F.Initial(c, AbsNet(y))
  {
    NewConnOk(c, b);
  }

  lemma SmoothGoesOn(c: F.Config, b: Buffers, y: Net, acts: seq<Action>, i: int) returns (a: Action)
    requires Initial(c, y) && b.Suit(c) && 1 <= |c.file| <= INT_MAX && |c.file| % c.piece != 1
    requires Run(c, b, y, acts) && SmoothRun(c, b, y, acts) && 0 <= i < |y.ws|
    requires !End(c, b, y, acts).ws[i].ce.phase.ClientQuit? && !Stranded(End(c, b, y, acts), i)
    ensures a.i == i && CanGoOn(c, b, End(c, b, y, acts), a)
  {
    InitialMatches(c, b, y);
    RefinesMessages(c, b, y, acts);
    RefinesOrderly(c, b, y, acts);
    var e := End(c, b, y, acts);
    F.EveryClientCopiesExactly(c, AbsNet(y), Messages(acts), i, F.Act(i, F.ServerSent, 0));
    assert AbsNet(e).ss[i] == Abs(e.ws[i]);
    var m: F.Action :| m.i == i && F.CanGoOn(c, AbsNet(e), m);
    a := GoesOn(c, b, e, m);
  }

  lemma SafeAlways(c: F.Config, b: Buffers, y: Net, acts: seq<Action>, i: int)
    requires Initial(c, y) && b.Suit(c) && 1 <= |c.file| <= INT_MAX && |c.file| % c.piece != 1
    requires Run(c, b, y, acts) && 0 <= i < |y.ws|
    ensures var w := End(c, b, y, acts).ws[i];
      && ConnInv(c, b, w) && |End(c, b, y, acts).sh.buf| == c.piece
      && F.OnPath(c, Abs(w)) && F.ExactSoFar(c, w.ce.cl)
      && (w.ce.phase.ClientQuit? ==> F.ExactCopies(c, Abs(w)))
  {
    InitialMatches(c, b, y);
    RefinesMessages(c, b, y, acts);
    F.EveryClientCopiesExactly(c, AbsNet(y), Messages(acts), i, F.Act(i, F.ServerSent, 0));
    assert AbsNet(End(c, b, y, acts)).ss[i] == Abs(End(c, b, y, acts).ws[i]);
  }

  /** The whole example over bytes: any number of connections over one shared file
      handle and buffer, both streams cut and acknowledged in any pieces, any
      interleaving, posts, sends and receives failing at any moment. What each client
      has written is always exact so far, a client that has quit has exact copies,
      and every step of a connection brings it nearer to its end and leaves the
      others alone. As long as nothing fails, a connection whose client has not quit
      can go on, unless the server's loop has quit or its listener stopped before it was
      connected. */
  lemma EveryClientCopiesExactly(c: F.Config, b: Buffers, y: Net, acts: seq<Action>, i: int, a: Action)
    requires Initial(c, y) && b.Suit(c) && 1 <= |c.file| <= INT_MAX && |c.file| % c.piece != 1
    requires Run(c, b, y, acts) && 0 <= i < |y.ws|
    ensures var e := End(c, b, y, acts); var w := e.ws[i];
      && F.OnPath(c, Abs(w)) && F.ExactSoFar(c, w.ce.cl)
      && (w.ce.phase.ClientQuit? ==> F.ExactCopies(c, Abs(w)))
      && (SmoothRun(c, b, y, acts) && !w.ce.phase.ClientQuit? ==>
            Stranded(e, i) || exists v: Action :: v.i == i && CanGoOn(c, b, e, v))
      && (CanAct(c, b, e, a) && a.i == i ==>
            F.OnPath(c, Abs(Next(c, b, e, a).ws[i])) && Nearer(c, Next(c, b, e, a).ws[i], w))
      && (CanAct(c, b, e, a) && a.i != i ==> Next(c, b, e, a).ws[i] == w)
  {
    SafeAlways(c, b, y, acts, i);
    var e := End(c, b, y, acts);
    if SmoothRun(c, b, y, acts) && !e.ws[i].ce.phase.ClientQuit? && !Stranded(e, i) {
      var v := SmoothGoesOn(c, b, y, acts, i);
    }
    if CanAct(c, b, e, a) && a.i == i {
      NearerNext(c, b, e, a);
    }
  }

  // ---- the exact condition ----

  /** Connection `i` can do nothing more unless something fails. */
  ghost predicate Settled(c: F.Config, b: Buffers, y: Net, i: int) {
    forall a: Action :: a.i == i ==> !CanGoOn(c, b, y, a)
  }

  /** Where nothing has failed and nothing more can be done, the client has its copies
      exactly if the connection was not left behind. */
  lemma SettledIff(c: F.Config, b: Buffers, y: Net, acts: seq<Action>, i: int)
    requires Initial(c, y) && b.Suit(c) && 1 <= |c.file| <= INT_MAX && |c.file| % c.piece != 1
    requires Run(c, b, y, acts) && SmoothRun(c, b, y, acts) && 0 <= i < |y.ws|
    requires Settled(c, b, End(c, b, y, acts), i)
    ensures F.ExactCopies(c, Abs(End(c, b, y, acts).ws[i])) <==> !LeftBehind(c, b, y, acts, i)
  {
    EveryClientCopiesExactly(c, b, y, acts, i, Act(i, Up(Rx(Receiver.Lost))));
    StrandedIff(c, b, y, acts, i);
  }

  /** As in FileTransfer, over bytes. */
  ghost predicate AlwaysExact(c: F.Config, b: Buffers, kept: bool) {
    forall y: Net, acts: seq<Action>, i ::
      Initial(c, y) && Run(c, b, y, acts) && (kept ==> Stays(c, b, y, acts)) && 0 <= i < |y.ws| ==>
      && F.ExactSoFar(c, End(c, b, y, acts).ws[i].ce.cl)
      && (End(c, b, y, acts).ws[i].ce.phase.ClientQuit? ==> F.ExactCopies(c, Abs(End(c, b, y, acts).ws[i])))
      && (SmoothRun(c, b, y, acts) && Settled(c, b, End(c, b, y, acts), i) && !LeftBehind(c, b, y, acts, i) ==>
            End(c, b, y, acts).ws[i].ce.phase.ClientQuit?)
  }

  function Two(c: F.Config): Net
    requires c.Valid()
  {
    Net(F.Two(c).sh, [NEW_CONN, NEW_CONN], 2, 0, false)
  }

  lemma TwoMatches(c: F.Config, b: Buffers)
    requires c.Valid() && c.file != [] && b.Suit(c)
    ensures Sound(c, b, Two(c)) && AbsNet(Two(c)) == F.Two(c)
  {
    NewConnOk(c, b);
    assert AbsNet(Two(c)).ss == F.Two(c).ss;
  }

  predicate Wrong(c: F.Config, s: F.Session) {
    !F.ExactSoFar(c, s.ce.cl) || (s.ce.phase.ClientQuit? && !F.ExactCopies(c, s))
  }

  lemma RunWrong(c: F.Config, b: Buffers, facts: seq<F.Action>) returns (acts: seq<Action>)
    requires c.Valid() && c.file != [] && b.Suit(c) && F.Run(c, F.Two(c), facts) && F.TidyRun(c, F.Two(c), facts)
    requires Wrong(c, F.End(c, F.Two(c), facts).ss[0])
    ensures Run(c, b, Two(c), acts) && TidyRun(c, b, Two(c), acts)
    ensures Wrong(c, Abs(End(c, b, Two(c), acts).ws[0]))
  {
    TwoMatches(c, b);
    acts := RealizesMessages(c, b, Two(c), facts);
    assert AbsNet(End(c, b, Two(c), acts)).ss[0] == Abs(End(c, b, Two(c), acts).ws[0]);
  }

  /** A run over messages that goes wrong is also one over bytes. */
  lemma GoesWrongToo(c: F.Config, b: Buffers, facts: seq<F.Action>, kept: bool)
    requires c.Valid() && c.file != [] && b.Suit(c) && F.Run(c, F.Two(c), facts) && F.TidyRun(c, F.Two(c), facts)
    requires Wrong(c, F.End(c, F.Two(c), facts).ss[0])
    ensures !AlwaysExact(c, b, kept)
  {
    var acts := RunWrong(c, b, facts);
    assert Initial(c, Two(c)) && Run(c, b, Two(c), acts);
  }

  /** A run after which the first connection can do nothing more and its client has
      not quit, though the server has it connected. */
  ghost predicate Stalls(c: F.Config, b: Buffers, y: Net, acts: seq<Action>) {
    && y.ws != [] && Run(c, b, y, acts) && TidyRun(c, b, y, acts) && !Stranded(End(c, b, y, acts), 0)
    && Settled(c, b, End(c, b, y, acts), 0) && !End(c, b, y, acts).ws[0].ce.phase.ClientQuit?
  }

  lemma StallsLater(c: F.Config, b: Buffers, y: Net, a: Action, later: seq<Action>)
    requires y.ws != [] && CanAct(c, b, y, a) && Tidy(y, a) && Stalls(c, b, Next(c, b, y, a), later)
    ensures Stalls(c, b, y, [a] + later)
  {
    RunLater(c, b, y, a, later);
  }

  /** A first connection whose server has posted the frame `f` of its empty message. */
  predicate EmptyPosted(c: F.Config, b: Buffers, y: Net, f: seq<Byte>) {
    && c.Valid() && c.file == [] && b.Suit(c) && IsFrame(f, [])
    && y.ws != [] && |y.sh.buf| == c.piece && !y.quit
    && var w := y.ws[0];
    && w.se.sv.pos == 0 && w.se.phase.ServerSending? && w.up == FRESH_LINK && w.ce.cl.files != []
    && w.down.Stream() == f
  }

  lemma StallsHere(c: F.Config, b: Buffers, y: Net)
    requires y.ws != [] && !y.quit
    requires var w := y.ws[0];
      && w.se.phase.ServerReceiving? && w.ce.phase.ClientReceiving?
      && w.down.snd.mode.Idle? && w.up.snd.mode.Idle? && w.down.rcv.mode.Waiting? && w.up.rcv.mode.Waiting?
      && w.down.taken >= |w.down.Stream()| && w.up.taken >= |w.up.Stream()|
    ensures Stalls(c, b, y, [])
  {
  }

  lemma StallsOnCall(c: F.Config, b: Buffers, y: Net, f: seq<Byte>) returns (acts: seq<Action>)
    requires EmptyPosted(c, b, y, f) && y.ws[0].ce.phase.ClientReceiving?
    requires y.ws[0].down.snd.mode.Idle? && y.ws[0].down.rcv.mode.Waiting? && y.ws[0].down.taken == |f|
    ensures Stalls(c, b, y, acts)
  {
    var a := Act(0, App(F.ServerSent, 0, [], true));
    StallsHere(c, b, Next(c, b, y, a));
    StallsLater(c, b, y, a, []);
    acts := [a] + [];
  }

  lemma StallsOnAck(c: F.Config, b: Buffers, y: Net, f: seq<Byte>) returns (acts: seq<Action>)
    requires EmptyPosted(c, b, y, f) && y.ws[0].ce.phase.ClientReceiving?
    requires y.ws[0].down.snd == Sender.SendState(Receiver.Waiting, f, [], 0)
    requires y.ws[0].down.rcv.mode.Waiting? && y.ws[0].down.taken == |f|
    ensures Stalls(c, b, y, acts)
  {
    var a := Act(0, Down(Tx(Sender.Ack(|f|, true), [])));
    var y' := Next(c, b, y, a);
    assert y'.ws[0].down.Stream() == [] + f + [] == f;
    var later := StallsOnCall(c, b, y', f);
    StallsLater(c, b, y, a, later);
    acts := [a] + later;
  }

  /** The client takes the header in and goes on waiting. */
  lemma StallsOnHeader(c: F.Config, b: Buffers, y: Net, f: seq<Byte>) returns (acts: seq<Action>)
    requires EmptyPosted(c, b, y, f) && y.ws[0].ce.phase.ClientReceiving?
    requires y.ws[0].down.snd == Sender.SendState(Receiver.Waiting, f, [], 0)
    requires y.ws[0].down.rcv.mode.Waiting? && y.ws[0].down.rcv.ring == [] && y.ws[0].down.taken == 0
    ensures Stalls(c, b, y, acts)
  {
    var a := Act(0, Down(Rx(Receiver.Bytes(f, true))));
    var later := StallsOnAck(c, b, Next(c, b, y, a), f);
    StallsLater(c, b, y, a, later);
    acts := [a] + later;
  }

  lemma StallsOnConnect(c: F.Config, b: Buffers, y: Net, f: seq<Byte>) returns (acts: seq<Action>)
    requires EmptyPosted(c, b, y, f) && y.ws[0].ce.phase.ClientNew?
    requires y.ws[0].down.snd == Sender.SendState(Receiver.Waiting, f, [], 0)
    requires y.ws[0].down.rcv == Receiver.IDLE_RECEIVER && y.ws[0].down.taken == 0
    ensures Stalls(c, b, y, acts)
  {
    var a := Act(0, App(F.ClientConnected, 0, [], true));
    var later := StallsOnHeader(c, b, Next(c, b, y, a), f);
    StallsLater(c, b, y, a, later);
    acts := [a] + later;
  }

  lemma PostsEmpty(c: F.Config, b: Buffers, f: seq<Byte>)
    requires c.Valid() && c.file == [] && b.Suit(c) && IsFrame(f, [])
    ensures var a := Act(0, App(F.ServerConnected, 0, f, true));
      && CanAct(c, b, Two(c), a)
      && var y := Next(c, b, Two(c), a);
      && EmptyPosted(c, b, y, f) && y.ws[0].ce.phase.ClientNew?
      && y.ws[0].down.snd == Sender.SendState(Receiver.Waiting, f, [], 0)
      && y.ws[0].down.rcv == Receiver.IDLE_RECEIVER && y.ws[0].down.taken == 0
  {
    StreamOfOne(f, []);
    assert [] + f == f;
  }

  lemma StallsFromStart(c: F.Config, b: Buffers) returns (acts: seq<Action>)
    requires c.Valid() && c.file == [] && b.Suit(c)
    ensures Stalls(c, b, Two(c), acts)
  {
    var y, f := Two(c), FrameOf([]);
    FrameOfIsFrame([]);
    PostsEmpty(c, b, f);
    var a := Act(0, App(F.ServerConnected, 0, f, true));
    var later := StallsOnConnect(c, b, Next(c, b, y, a), f);
    StallsLater(c, b, y, a, later);
    acts := [a] + later;
  }

  /** The frame of an empty message is a header and nothing else: the client takes it
      in, waits for more, and nothing ever comes. */
  lemma EmptyFileFails(c: F.Config, b: Buffers, kept: bool)
    requires c.Valid() && c.file == [] && b.Suit(c)
    ensures !AlwaysExact(c, b, kept)
  {
    var acts := StallsFromStart(c, b);
    StrandedIff(c, b, Two(c), acts, 0);
    assert Initial(c, Two(c)) && Stalls(c, b, Two(c), acts);
  }

  /** Over bytes too, the copies are exact exactly when the file is not empty, its
      length is an int, and it has not one byte over: at every moment of every run
      whatever fails, and in the end wherever nothing fails and the connection is not
      left behind. */
  lemma ExactIff(c: F.Config, b: Buffers, kept: bool)
    requires c.Valid() && b.Suit(c)
    ensures AlwaysExact(c, b, kept) <==> 1 <= |c.file| <= INT_MAX && |c.file| % c.piece != 1
  {
    if c.file == [] {
      EmptyFileFails(c, b, kept);
    } else if |c.file| % c.piece == 1 {
      F.NewSessionOk(c);
      F.StartOfPath(c);
      var facts := F.RunShort(c, F.Two(c), 0);
      GoesWrongToo(c, b, facts, kept);
    } else if |c.file| > INT_MAX {
      var facts := F.RunTooLong(c);
      GoesWrongToo(c, b, facts, kept);
    } else {
      GoodFileWorks(c, b, kept);
    }
  }

  lemma GoodFileWorks(c: F.Config, b: Buffers, kept: bool)
    requires c.Valid() && b.Suit(c) && 1 <= |c.file| <= INT_MAX && |c.file| % c.piece != 1
    ensures AlwaysExact(c, b, kept)
  {
    forall y: Net, acts: seq<Action>, i | Initial(c, y) && Run(c, b, y, acts) && 0 <= i < |y.ws|
      ensures F.ExactSoFar(c, End(c, b, y, acts).ws[i].ce.cl)
      ensures End(c, b, y, acts).ws[i].ce.phase.ClientQuit? ==> F.ExactCopies(c, Abs(End(c, b, y, acts).ws[i]))
      ensures SmoothRun(c, b, y, acts) && Settled(c, b, End(c, b, y, acts), i) && !LeftBehind(c, b, y, acts, i) ==>
        End(c, b, y, acts).ws[i].ce.phase.ClientQuit?
    {
      EveryClientCopiesExactly(c, b, y, acts, i, Act(0, Up(Rx(Receiver.Lost))));
      StrandedIff(c, b, y, acts, i);
    }
  }

  // ---- a connection that comes late ----

  /** Over bytes too, a connection stranded by the loop can do nothing once its client
      has called recv. */
  lemma StrandedSettles(c: F.Config, b: Buffers, y: Net, i: int)
    requires Sound(c, b, y) && 0 <= i < |y.ws| && Stranded(y, i) && y.ws[i].ce.phase.ClientReceiving?
    ensures Settled(c, b, y, i)
  {
    var w := y.ws[i];
    assert Polite(c, Abs(w));
    LinkDelivers(w.down, b.down);
    NothingToReceive(w.down, b.down);
  }

  /** One client after the other: for every file that is not empty there is a run in
      which nothing fails, the first client has done, the loop has quit, and the
      second connection can do nothing more although its client has nothing. */
  lemma LateConnectionStranded(c: F.Config, b: Buffers) returns (acts: seq<Action>)
    requires c.Valid() && c.file != [] && b.Suit(c)
    ensures Run(c, b, Two(c), acts) && TidyRun(c, b, Two(c), acts)
    ensures var e := End(c, b, Two(c), acts);
      && e.ws[0].ce.phase.ClientQuit? && e.quit && e.room > 0 && LeftBehind(c, b, Two(c), acts, 1)
      && Settled(c, b, e, 1) && e.ws[1].ce.cl == F.OPENED
  {
    TwoMatches(c, b);
    var facts := F.LateSessionStranded(c);
    acts := RealizesMessages(c, b, Two(c), facts);
    var e := End(c, b, Two(c), acts);
    assert AbsNet(e).ss[0] == Abs(e.ws[0]) && AbsNet(e).ss[1] == Abs(e.ws[1]);
    StrandedIff(c, b, Two(c), acts, 1);
    StrandedSettles(c, b, e, 1);
  }

  /** The example's own buffers suit its messages. */
  lemma ExampleSuits(c: F.Config, kept: bool)
    requires c.Valid() && c.piece == F.BUF_LEN
    ensures EXAMPLE.Suit(c)
    ensures AlwaysExact(c, EXAMPLE, kept) <==> 1 <= |c.file| <= INT_MAX && |c.file| % F.BUF_LEN != 1
  {
    ExactIff(c, EXAMPLE, kept);
  }
}
