/** The example server and client: a file sent piece by piece, each piece
    answered by "ok", an end marker after the last, several copies in a row. */
module FileTransfer {
  import opened IoBuffer
  import opened Framing
  import opened Link

  const OK: seq<Byte> := [111, 107]
  const MARK: Byte := 48

  /** The server's piece size, and the size of all the client's buffers. */
  const BUF_LEN := 65536
  const RECV_BUF_LEN := BUF_LEN + 100

  datatype Config = Config(file: seq<Byte>, piece: int, copies: int) {
    predicate Valid() { 2 <= piece <= INT_MAX && 1 <= copies }
  }

  // ---- the server ----

  /** The server's session_data_t; `pos` is an int that keeps what ftell returned. */
  datatype Server = Server(pos: int, count: nat, id: nat)

  /** What all sessions share: the position of the one file handle and the buffer. */
  datatype Shared = Shared(filePos: nat, buf: seq<Byte>)

  /** Where fseek leaves the handle: at `pos`, or, since it fails on a negative
      offset, wherever the library leaves it then (`lost`). */
  function Seek(pos: int, lost: nat): nat {
    if pos >= 0 then pos else lost
  }

  /** ftell fails with -1 on a position that is not an int. */
  function Tell(p: nat): int {
    if p <= INT_MAX then p else -1
  }

  /** The bytes of the file from `pos` on, one piece at most. */
  function Piece(c: Config, pos: nat): seq<Byte>
    requires c.Valid() && pos <= |c.file|
  {
    if pos + c.piece <= |c.file| then c.file[pos..pos + c.piece] else c.file[pos..]
  }

  predicate Readable(c: Config, sh: Shared, sv: Server, lost: nat) {
    c.Valid() && sv.pos <= |c.file| && lost <= |c.file| && |sh.buf| == c.piece
  }

  /** logic_loop::read: seek, read into the shared buffer, note the new position. */
  function ReadStep(c: Config, sh: Shared, sv: Server, lost: nat): (Shared, Server, int)
    requires Readable(c, sh, sv, lost)
  {
    var p := Seek(sv.pos, lost);
    var bytes := Piece(c, p);
    var len := |bytes|;
    var sh' := Shared(p + len, bytes + sh.buf[len..]);
    if len == 0 then (sh', sv.(pos := 0, count := sv.count + 1), 0)
    else (sh', sv.(pos := Tell(sh'.filePos)), len)
  }

  /** on_connected: the message sent first. */
  function FirstMessage(c: Config, sh: Shared, sv: Server, lost: nat): (Shared, Server, seq<Byte>)
    requires Readable(c, sh, sv, lost)
  {
    var (sh', sv', len) := ReadStep(c, sh, sv, lost);
    (sh', sv', sh'.buf[..len])
  }

  /** on_recv_finished after an "ok". */
  function NextMessage(c: Config, sh: Shared, sv: Server, lost: nat): (Shared, Server, seq<Byte>)
    requires Readable(c, sh, sv, lost)
  {
    var (sh', sv', len) := ReadStep(c, sh, sv, lost);
    var sv'' := sv'.(id := sv'.id + 1);
    if len == 0 then (sh'.(buf := sh'.buf[0 := MARK]), sv'', [MARK])
    else (sh', sv'', sh'.buf[..len])
  }

  function MessageFor(c: Config, pos: nat): seq<Byte>
    requires c.Valid() && pos <= |c.file|
  {
    if pos == |c.file| then [MARK] else Piece(c, pos)
  }

  /** The server's position after that message. */
  function PosAfter(c: Config, pos: nat): nat
    requires c.Valid() && pos <= |c.file|
  {
    if pos == |c.file| then 0 else pos + |Piece(c, pos)|
  }

  /** What is sent, and the position kept afterwards, follow from the place the seek
      leads to; what the shared buffer and handle held before does not show. */
  lemma MessageFromSeek(c: Config, sh: Shared, sv: Server, lost: nat)
    requires Readable(c, sh, sv, lost)
    ensures var p := Seek(sv.pos, lost);
      && NextMessage(c, sh, sv, lost).2 == MessageFor(c, p)
      && FirstMessage(c, sh, sv, lost).2 == Piece(c, p)
      && NextMessage(c, sh, sv, lost).1.pos == FirstMessage(c, sh, sv, lost).1.pos == Tell(PosAfter(c, p))
      && |NextMessage(c, sh, sv, lost).0.buf| == |FirstMessage(c, sh, sv, lost).0.buf| == c.piece
  {
  }

  /** Sessions sharing the handle and the buffer do not disturb each other's messages
      if and only if the position of this session is one that an int could keep. */
  lemma SharingShowsIff(c: Config, sv: Server)
    requires c.Valid() && sv.pos <= |c.file| && |c.file| > 1
    ensures (forall sh, sh', lost: nat, lost': nat | Readable(c, sh, sv, lost) && Readable(c, sh', sv, lost') ::
              NextMessage(c, sh, sv, lost).2 == NextMessage(c, sh', sv, lost').2) <==> sv.pos >= 0
  {
    forall sh, lost: nat | Readable(c, sh, sv, lost)
      ensures NextMessage(c, sh, sv, lost).2 == MessageFor(c, Seek(sv.pos, lost))
    {
      MessageFromSeek(c, sh, sv, lost);
    }
    if sv.pos < 0 {
      var sh := Shared(0, seq(c.piece, _ => MARK));
      assert |MessageFor(c, 0)| >= 2 && |MessageFor(c, |c.file|)| == 1;
      assert Readable(c, sh, sv, 0) && Readable(c, sh, sv, |c.file|);
      assert NextMessage(c, sh, sv, 0).2 != NextMessage(c, sh, sv, |c.file|).2;
    }
  }

  class SessionData {
    var pos: int
    var count: nat
    var id: nat

    constructor ()
      ensures View() == Server(0, 0, 0)
    {
      pos, count, id := 0, 0, 0;
    }

    ghost function View(): Server
      reads this
    {
      Server(pos, count, id)
    }
  }

  class ServerLoop {
    ghost const config: Config
    const file: seq<Byte>
    const pieceSize: int
    const buf: array<Byte>
    var filePos: nat
    var connectCount: int
    var quiting: bool

    ghost predicate Valid() {
      config.Valid() && config.file == file && config.piece == pieceSize == buf.Length
    }

    ghost function View(): Shared
      reads this, buf
    {
      Shared(filePos, buf[..])
    }

    constructor (f: seq<Byte>, piece: int, ghost copies: int)
      requires 2 <= piece <= INT_MAX && 1 <= copies
      ensures Valid() && config == Config(f, piece, copies) && connectCount == 0 && !quiting
    {
      config := Config(f, piece, copies);
      file, pieceSize, filePos, connectCount, quiting := f, piece, 0, 0, false;
      buf := new Byte[piece];
    }

    /** fread: a piece, or what is left of the file, into the front of the buffer. */
    method Fread() returns (len: int)
      requires Valid() && filePos <= |file|
      modifies `filePos, buf
      ensures len == if old(filePos) + pieceSize <= |file| then pieceSize else |file| - old(filePos)
      ensures filePos == old(filePos) + len
      ensures buf[..] == Piece(config, old(filePos)) + old(buf[..])[len..]
      ensures buf[..len] == file[old(filePos)..filePos]
    {
      ghost var p := filePos;
      len := if filePos + pieceSize <= |file| then pieceSize else |file| - filePos;
      forall i | 0 <= i < len {
        buf[i] := file[filePos + i];
      }
      assert buf[..] == Piece(config, p) + old(buf[..])[len..];
      filePos := filePos + len;
    }

    /** `lost`: where a seek that fails leaves the handle. */
    method Read(s: SessionData, lost: nat) returns (len: int)
      requires Valid() && s.pos <= |file| && lost <= |file|
      modifies `filePos, buf, s
      ensures (View(), s.View(), len) == ReadStep(config, old(View()), old(s.View()), lost)
      ensures var p := if old(s.pos) >= 0 then old(s.pos) else lost;
        && len == (if p + pieceSize <= |file| then pieceSize else |file| - p)
        && filePos == p + len && buf[..len] == file[p..p + len]
        && s.pos == (if len == 0 then 0 else if filePos <= 0x7fff_ffff then filePos else -1)
        && s.count == old(s.count) + (if len == 0 then 1 else 0) && s.id == old(s.id)
    {
      filePos := if s.pos >= 0 then s.pos else lost;
      len := Fread();
      if len == 0 {
        s.pos := 0;
        s.count := s.count + 1;
        return 0;
      }
      s.pos := if filePos <= INT_MAX then filePos else -1;
    }

    /** With the count that tick keeps before it calls the handler. */
    method OnConnected(s: SessionData, lost: nat) returns (message: seq<Byte>)
      requires Valid() && s.pos <= |file| && lost <= |file|
      modifies `filePos, `connectCount, buf, s
      ensures (View(), s.View(), message) == FirstMessage(config, old(View()), old(s.View()), lost)
      ensures var p := if old(s.pos) >= 0 then old(s.pos) else lost;
        message == if p + pieceSize <= |file| then file[p..p + pieceSize] else file[p..]
      ensures connectCount == CountAfter(old(connectCount), ServerConnected)
    {
      connectCount := connectCount + 1;
      var len := Read(s, lost);
      message := buf[..len];
    }

    /** With the count that tick keeps; the loop quits when nobody is left. */
    method OnDisconnected()
      modifies `connectCount, `quiting
      ensures connectCount == CountAfter(old(connectCount), ServerDisconnected)
      ensures quiting <==> QuitAfter(old(quiting), old(connectCount), ServerDisconnected)
    {
      connectCount := connectCount - 1;
      if connectCount == 0 {
        quiting := true;
      }
    }

    /** Answers "ok" with the next message; any other reply with nothing. */
    method OnRecvFinished(s: SessionData, reply: seq<Byte>, lost: nat) returns (send: bool, message: seq<Byte>)
      requires Valid() && s.pos <= |file| && lost <= |file| && |reply| == 2
      modifies `filePos, buf, s
      ensures send <==> reply == OK == [111, 107]
      ensures send ==>
        var p := if old(s.pos) >= 0 then old(s.pos) else lost;
        && s.id == old(s.id) + 1
        && message == if p == |file| then [48]
                      else if p + pieceSize <= |file| then file[p..p + pieceSize] else file[p..]
      ensures send ==> (View(), s.View(), message) == NextMessage(config, old(View()), old(s.View()), lost)
      ensures !send ==> View() == old(View()) && s.View() == old(s.View())
    {
      send, message := false, [];
      if reply[0] == 111 && reply[1] == 107 {
        var len := Read(s, lost);
        s.id := s.id + 1;
        if len == 0 {
          buf[0] := MARK;
          len := 1;
          assert buf[..1] == [MARK];
        }
        send, message := true, buf[..len];
      }
    }
  }

  // ---- the client ----

  /** `files`: the contents of the files written, the open one last. */
  datatype Client = Client(count: nat, files: seq<seq<Byte>>, quit: bool)

  const OPENED := Client(0, [[]], false)

  function Append(files: seq<seq<Byte>>, bytes: seq<Byte>): seq<seq<Byte>>
    requires files != []
  {
    files[..|files| - 1] + [files[|files| - 1] + bytes]
  }

  /** on_recv_finished: a one-byte message ends a copy. */
  function Receive(c: Config, cl: Client, m: seq<Byte>): Client
    requires cl.files != []
  {
    if |m| == 1 then
      if cl.count + 1 < c.copies then cl.(count := cl.count + 1, files := cl.files + [[]])
      else cl.(count := cl.count + 1, quit := true)
    else cl.(files := Append(cl.files, m))
  }

  class ClientData {
    const copies: int
    var count: nat
    var files: seq<seq<Byte>>
    var quit: bool

    ghost function View(): Client
      reads this
    {
      Client(count, files, quit)
    }

    /** on_connected opens the first file. */
    constructor (n: int)
      ensures copies == n && View() == OPENED
    {
      copies, count, files, quit := n, 0, [[]], false;
    }

    method OnRecvFinished(ghost c: Config, data: seq<Byte>) returns (reply: seq<Byte>)
      requires files != [] && c.copies == copies && !quit
      modifies this
      ensures View() == Receive(c, old(View()), data)
      ensures reply == if quit then [] else [111, 107]
      ensures quit <==> |data| == 1 && count >= copies
      ensures count == old(count) + if |data| == 1 then 1 else 0
      ensures var k := |old(files)| - 1;
        files == if |data| != 1 then old(files)[..k] + [old(files)[k] + data]
                 else if quit then old(files) else old(files) + [[]]
    {
      if |data| == 1 {
        count := count + 1;
        if count < copies {
          files := files + [[]];
        } else {
          quit := true;
          return [];
        }
      } else {
        var last := |files| - 1;
        files := files[..last] + [files[last] + data];
      }
      return OK;
    }
  }

  // ---- server and client in lockstep ----

  /** The server's position in the file and the client. */
  datatype Pair = Pair(pos: nat, cl: Client)

  const START_PAIR := Pair(0, OPENED)

  /** The buffers of the example programs suit its messages: every message is one
      turn of request and reply as Link asks for it, and fits the user's buffer. */
  lemma ExampleSizesSuitLink(c: Config, pos: nat, e: LinkEvent)
    requires c.Valid() && c.piece == BUF_LEN && pos <= |c.file| && e.Tx?
    ensures var m := MessageFor(c, pos);
      && |m| <= RECV_BUF_LEN
      && (e.msgs == [m] ==> OneMessage(e, Sizes(BUF_LEN + 64, RECV_BUF_LEN)))
      && (e.msgs == [OK] ==> OneMessage(e, Sizes(RECV_BUF_LEN, BUF_LEN + 64)))
      && |m| + HEADER < BUF_LEN + 64 && |OK| + HEADER < RECV_BUF_LEN
  {
  }

  function Current(cl: Client): seq<Byte>
    requires cl.files != []
  {
    cl.files[|cl.files| - 1]
  }

  /** The open copy is as long as what the server has read, unless the server is
      at the end of the file and only the marker is due. */
  predicate PairOk(c: Config, p: Pair) {
    && c.Valid() && c.file != [] && p.pos <= |c.file| && p.cl.files != []
    && (!p.cl.quit ==>
          && p.cl.count < c.copies && |p.cl.files| == p.cl.count + 1
          && |Current(p.cl)| <= |c.file|
          && (|Current(p.cl)| == p.pos || p.pos == |c.file|))
  }

  /** One message from server to client. */
  function Turn(c: Config, p: Pair): Pair
    requires PairOk(c, p)
  {
    Pair(PosAfter(c, p.pos), Receive(c, p.cl, MessageFor(c, p.pos)))
  }

  lemma TurnOk(c: Config, p: Pair)
    requires PairOk(c, p) && !p.cl.quit
    ensures PairOk(c, Turn(c, p))
    ensures Turn(c, p).cl.quit || Turn(c, p).cl.count > p.cl.count ||
      (Turn(c, p).cl.count == p.cl.count && |Current(Turn(c, p).cl)| > |Current(p.cl)|)
  {
  }

  /** How many messages the client takes before it quits. */
  function Turns(c: Config, p: Pair): nat
    requires PairOk(c, p)
    decreases if p.cl.quit then 0 else 1 + c.copies - p.cl.count, |c.file| - |Current(p.cl)|
  {
    if p.cl.quit then 0
    else
      TurnOk(c, p);
      1 + Turns(c, Turn(c, p))
  }

  /** Copies exact so far: the read position is a whole number of pieces. */
  predicate Exact(c: Config, p: Pair) {
    && PairOk(c, p)
    && (forall i :: 0 <= i < |p.cl.files| - 1 ==> p.cl.files[i] == c.file)
    && if p.cl.quit then |p.cl.files| == c.copies && Current(p.cl) == c.file
       else Current(p.cl) == c.file[..p.pos] && (p.pos % c.piece == 0 || p.pos == |c.file|)
  }

  lemma PieceLengths(c: Config, pos: nat)
    requires c.Valid() && pos < |c.file| && pos % c.piece == 0
    ensures if pos + c.piece <= |c.file| then (pos + c.piece) % c.piece == 0 else |c.file| % c.piece == |c.file| - pos
  {
    var q := pos / c.piece;
    assert pos == q * c.piece;
    if pos + c.piece <= |c.file| {
      assert (q + 1) * c.piece == q * c.piece + c.piece;
      ModUnique(pos + c.piece, c.piece, q + 1, 0);
    } else {
      ModUnique(|c.file|, c.piece, q, |c.file| - pos);
    }
  }

  /** After a piece the position is again a whole number of pieces or the end, and
      only a file with one byte over makes a piece of one byte. */
  lemma PosStaysWhole(c: Config, pos: nat)
    requires c.Valid() && pos < |c.file| && pos % c.piece == 0 && |c.file| % c.piece != 1
    ensures PosAfter(c, pos) % c.piece == 0 || PosAfter(c, pos) == |c.file|
    ensures |Piece(c, pos)| >= 2
    ensures c.file[..pos] + Piece(c, pos) == c.file[..PosAfter(c, pos)]
  {
    PieceLengths(c, pos);
  }

  lemma ExactTurn(c: Config, p: Pair)
    requires Exact(c, p) && !p.cl.quit && |c.file| % c.piece != 1
    ensures Exact(c, Turn(c, p))
  {
    TurnOk(c, p);
    if p.pos < |c.file| {
      PosStaysWhole(c, p.pos);
      assert Turn(c, p).cl.files == Append(p.cl.files, Piece(c, p.pos));
    } else {
      ExactMark(c, p);
    }
  }

  lemma ExactMark(c: Config, p: Pair)
    requires Exact(c, p) && !p.cl.quit && p.pos == |c.file|
    ensures Exact(c, Turn(c, p))
  {
    TurnOk(c, p);
    assert c.file[..p.pos] == c.file && c.file[..0] == [];
    ModUnique(0, c.piece, 0, 0);
  }

  /** When the last piece has one byte the client takes it for the end marker. */
  predicate Shortened(c: Config, p: Pair) {
    && PairOk(c, p)
    && if p.cl.count == 0 && !p.cl.quit
       then Current(p.cl) == c.file[..p.pos] && p.pos < |c.file| && p.pos % c.piece == 0
       else p.cl.files[0] == c.file[..|c.file| - 1] && (!p.cl.quit ==> |p.cl.files| >= 2)
  }

  lemma ShortTurn(c: Config, p: Pair)
    requires Shortened(c, p) && !p.cl.quit && |c.file| % c.piece == 1
    ensures Shortened(c, Turn(c, p))
  {
    TurnOk(c, p);
    if p.cl.count == 0 {
      PieceLengths(c, p.pos);
      assert p.pos + c.piece < |c.file| ==> Current(p.cl) + Piece(c, p.pos) == c.file[..PosAfter(c, p.pos)];
    }
  }

  lemma StartOfPath(c: Config)
    requires c.Valid() && c.file != []
    ensures Exact(c, START_PAIR) && (|c.file| % c.piece == 1 ==> Shortened(c, START_PAIR))
  {
    ModUnique(0, c.piece, 0, 0);
    assert c.file[..0] == [];
  }

  // ---- any number of sessions, any interleaving ----

  datatype ServerPhase = ServerNew | ServerSending | ServerReceiving | ServerIdle | ServerGone
  datatype ClientPhase = ClientNew | ClientReceiving | ClientSending | ClientQuit

  datatype ServerEnd = ServerEnd(sv: Server, phase: ServerPhase)
  datatype ClientEnd = ClientEnd(cl: Client, phase: ClientPhase)

  /** Packages dispatched at one end or the other. */
  datatype Kind =
    | ServerConnected | ServerSent | ServerRecv | ServerDisconnected
    | ClientConnected | ClientRecv | ClientSent
  {
    predicate AtServer() { ServerConnected? || ServerSent? || ServerRecv? || ServerDisconnected? }
  }

  /** Whether the package can come; `mail`: a message from the peer is waiting. An
      operation that is under way may fail at any moment. */
  predicate ServerMay(e: ServerEnd, k: Kind, mail: bool) {
    match k
    case ServerConnected => e.phase.ServerNew?
    case ServerSent => e.phase.ServerSending?
    case ServerRecv => e.phase.ServerReceiving? && mail
    case ServerDisconnected => e.phase.ServerSending? || e.phase.ServerReceiving?
    case _ => false
  }

  predicate ClientMay(e: ClientEnd, k: Kind, mail: bool) {
    match k
    case ClientConnected => e.phase.ClientNew?
    case ClientRecv => e.phase.ClientReceiving? && mail
    case ClientSent => e.phase.ClientSending?
    case _ => false
  }

  /** The server's handlers: the new state and the messages sent. `m` is the message
      received, for `ServerRecv`. */
  function ServerHandler(c: Config, sh: Shared, e: ServerEnd, k: Kind, m: seq<Byte>, lost: nat)
    : (Shared, ServerEnd, seq<seq<Byte>>)
    requires Readable(c, sh, e.sv, lost) && k.AtServer()
  {
    match k
    case ServerConnected =>
      var (sh', sv', out) := FirstMessage(c, sh, e.sv, lost);
      (sh', ServerEnd(sv', ServerSending), [out])
    case ServerRecv =>
      if m != OK then (sh, e.(phase := ServerIdle), [])
      else
        var (sh', sv', out) := NextMessage(c, sh, e.sv, lost);
        (sh', ServerEnd(sv', ServerSending), [out])
    case ServerDisconnected => (sh, e.(phase := ServerGone), [])
    case _ => (sh, e.(phase := ServerReceiving), [])
  }

  /** The client's handlers. It opens its first file when it is connected. */
  function ClientHandler(c: Config, e: ClientEnd, k: Kind, m: seq<Byte>): (ClientEnd, seq<seq<Byte>>)
    requires e.cl.files != [] && !k.AtServer()
  {
    match k
    case ClientConnected => (ClientEnd(OPENED, ClientReceiving), [])
    case ClientRecv =>
      var cl' := Receive(c, e.cl, m);
      if cl'.quit then (ClientEnd(cl', ClientQuit), []) else (ClientEnd(cl', ClientSending), [OK])
    case _ => (e.(phase := ClientReceiving), [])
  }

  /** A reply that is not "ok" is answered with nothing and moves nothing; a client
      answers "ok" unless it has its copies. */
  lemma RepliesMatter(c: Config, sh: Shared, e: ServerEnd, d: ClientEnd, m: seq<Byte>, lost: nat)
    requires Readable(c, sh, e.sv, lost) && d.cl.files != []
    ensures var (sh', e', out) := ServerHandler(c, sh, e, ServerRecv, m, lost);
      && (out != [] <==> m == [111, 107])
      && (m != [111, 107] ==> sh' == sh && e'.sv == e.sv)
    ensures var (d', out) := ClientHandler(c, d, ClientRecv, m);
      out == if d.cl.quit || (|m| == 1 && d.cl.count + 1 >= c.copies) then [] else [[111, 107]]
  {
  }

  /** The two ends of one connection and the messages on their way. */
  datatype Session = Session(se: ServerEnd, ce: ClientEnd, toClient: seq<seq<Byte>>, toServer: seq<seq<Byte>>)

  const NEW_SERVER := ServerEnd(Server(0, 0, 0), ServerNew)
  const NEW_CLIENT := ClientEnd(OPENED, ClientNew)
  const NEW_SESSION := Session(NEW_SERVER, NEW_CLIENT, [], [])

  /** The receiver looks at nothing before a byte of content is in, so a message
      without content is never received. */
  predicate Mail(messages: seq<seq<Byte>>) { messages != [] && messages[0] != [] }

  predicate Enabled(s: Session, k: Kind) {
    if k.AtServer() then ServerMay(s.se, k, Mail(s.toServer)) else ClientMay(s.ce, k, Mail(s.toClient))
  }

  /** Nothing fails: the server's recv ends without a message only because the client
      has quit and closed its socket. */
  predicate Orderly(s: Session, k: Kind) {
    k.ServerDisconnected? ==> s.se.phase.ServerReceiving? && s.ce.phase.ClientQuit?
  }

  predicate Sane(c: Config, sh: Shared, s: Session, lost: nat) {
    Readable(c, sh, s.se.sv, lost) && s.ce.cl.files != []
  }

  function Step(c: Config, sh: Shared, s: Session, k: Kind, lost: nat): (Shared, Session)
    requires Sane(c, sh, s, lost) && Enabled(s, k)
  {
    if k.AtServer() then
      var m := if k.ServerRecv? then s.toServer[0] else [];
      var (sh', se', out) := ServerHandler(c, sh, s.se, k, m, lost);
      (sh', s.(se := se', toClient := s.toClient + out,
               toServer := if k.ServerRecv? then s.toServer[1..] else s.toServer))
    else
      var m := if k.ClientRecv? then s.toClient[0] else [];
      var (ce', out) := ClientHandler(c, s.ce, k, m);
      (sh, s.(ce := ce', toServer := s.toServer + out,
              toClient := if k.ClientRecv? then s.toClient[1..] else s.toClient))
  }

  /** Where the pair stands once the message under way has been taken in; `p` is the
      position the server has really reached. */
  function Ahead(c: Config, s: Session, p: nat): Pair
    requires s.ce.cl.files != []
  {
    Pair(p, if s.toClient == [] then s.ce.cl else Receive(c, s.ce.cl, s.toClient[0]))
  }

  /** One message under way at most, and each end where the other expects it. */
  predicate SessionInv(c: Config, s: Session, p: nat) {
    && c.file != [] && s.ce.cl.files != [] && s.se.sv.pos == Tell(p)
    && |s.toClient| + |s.toServer| <= 1
    && PairOk(c, Ahead(c, s, p))
    && (s.se.phase.ServerNew? ==>
          && p == 0 && s.ce.cl == OPENED && s.toClient == []
          && (s.ce.phase.ClientNew? || s.ce.phase.ClientReceiving?))
    && (s.ce.phase.ClientNew? ==> s.ce.cl == OPENED && s.toServer == [])
    && (s.toServer != [] ==> s.toServer == [OK] && !s.se.phase.ServerNew?)
    && (s.toClient != [] ==> s.toClient[0] != [] && !s.se.phase.ServerNew? && !s.ce.phase.ClientQuit?)
    && (s.ce.phase.ClientSending? ==> !s.se.phase.ServerNew?)
    && (s.toClient == [] && s.toServer == [] ==> s.se.phase.ServerNew? || s.ce.phase.ClientQuit?)
    && (s.ce.phase.ClientQuit? <==> s.ce.cl.quit)
    && (s.ce.phase.ClientQuit? ==> s.toClient == [] && s.toServer == [])
    && !s.se.phase.ServerIdle?
  }

  lemma NewSessionOk(c: Config)
    requires c.Valid() && c.file != []
    ensures SessionInv(c, NEW_SESSION, 0) && Ahead(c, NEW_SESSION, 0) == START_PAIR
  {
  }

  /** What is left to do: messages, then the notifications around the next one. */
  function Left(c: Config, s: Session, p: nat): (int, int)
    requires SessionInv(c, s, p)
  {
    (Turns(c, Ahead(c, s, p)),
     |s.toClient| * 4 + |s.toServer| * 2
     + (if s.se.phase.ServerSending? then 1 else 0)
     + (if s.ce.phase.ClientNew? || s.ce.phase.ClientSending? then 1 else 0)
     + (if s.se.phase.ServerGone? then 0 else 1))
  }

  predicate Less(a: (int, int), b: (int, int)) {
    a.0 < b.0 || (a.0 == b.0 && a.1 < b.1)
  }

  predicate Sends(k: Kind) { k.ServerConnected? || k.ServerRecv? }

  function PosNext(c: Config, k: Kind, p: nat): nat
    requires c.Valid() && p <= |c.file|
  {
    if Sends(k) then PosAfter(c, p) else p
  }

  /** A step that sends the next message is one turn of the pair. */
  lemma SendKeeps(c: Config, sh: Shared, s: Session, k: Kind, lost: nat, p: nat)
    requires SessionInv(c, s, p) && Sane(c, sh, s, lost) && Enabled(s, k) && Sends(k)
    requires Seek(s.se.sv.pos, lost) == p
    ensures |Step(c, sh, s, k, lost).0.buf| == c.piece
    ensures !Ahead(c, s, p).cl.quit
    ensures var s' := Step(c, sh, s, k, lost).1;
      SessionInv(c, s', PosAfter(c, p)) && Ahead(c, s', PosAfter(c, p)) == Turn(c, Ahead(c, s, p))
  {
    MessageFromSeek(c, sh, s.se.sv, lost);
    TurnOk(c, Ahead(c, s, p));
  }

  lemma QuietKeeps(c: Config, sh: Shared, s: Session, k: Kind, lost: nat, p: nat)
    requires SessionInv(c, s, p) && Sane(c, sh, s, lost) && Enabled(s, k) && !Sends(k) && !k.ClientRecv?
    ensures Step(c, sh, s, k, lost).0 == sh
    ensures var s' := Step(c, sh, s, k, lost).1; SessionInv(c, s', p) && Ahead(c, s', p) == Ahead(c, s, p)
  {
  }

  lemma ClientRecvKeeps(c: Config, sh: Shared, s: Session, lost: nat, p: nat)
    requires SessionInv(c, s, p) && Sane(c, sh, s, lost) && Enabled(s, ClientRecv)
    ensures Step(c, sh, s, ClientRecv, lost).0 == sh
    ensures var s' := Step(c, sh, s, ClientRecv, lost).1; SessionInv(c, s', p) && Ahead(c, s', p) == Ahead(c, s, p)
  {
  }

  /** Every step keeps the invariant and strictly lowers what is left, as long as
      the seek leads where the session really is. */
  lemma StepKeeps(c: Config, sh: Shared, s: Session, k: Kind, lost: nat, p: nat)
    requires SessionInv(c, s, p) && Sane(c, sh, s, lost) && Enabled(s, k)
    requires Sends(k) ==> Seek(s.se.sv.pos, lost) == p
    ensures |Step(c, sh, s, k, lost).0.buf| == c.piece
    ensures var s', p' := Step(c, sh, s, k, lost).1, PosNext(c, k, p);
      && SessionInv(c, s', p') && Less(Left(c, s', p'), Left(c, s, p))
      && (if Sends(k) then !Ahead(c, s, p).cl.quit && Ahead(c, s', p') == Turn(c, Ahead(c, s, p))
          else Ahead(c, s', p') == Ahead(c, s, p))
  {
    if Sends(k) {
      SendKeeps(c, sh, s, k, lost, p);
    } else if k.ClientRecv? {
      ClientRecvKeeps(c, sh, s, lost, p);
    } else {
      QuietKeeps(c, sh, s, k, lost, p);
    }
  }

  /** Connected as the server's loop counts it. */
  predicate Alive(s: Session) { !s.se.phase.ServerNew? && !s.se.phase.ServerGone? }

  lemma NotStuck(c: Config, s: Session, p: nat) returns (k: Kind)
    requires SessionInv(c, s, p) && !s.ce.phase.ClientQuit? && !s.se.phase.ServerGone?
    ensures Enabled(s, k) && !k.ServerDisconnected?
    ensures k.AtServer() ==> s.se.phase.ServerNew? || Alive(s)
    ensures k.ServerRecv? ==> forall o :: Enabled(s, o) && Orderly(s, o) ==> o == ServerRecv
  {
    if s.se.phase.ServerNew? {
      k := ServerConnected;
    } else if s.se.phase.ServerSending? {
      k := ServerSent;
    } else if s.ce.phase.ClientNew? {
      k := ClientConnected;
    } else if s.ce.phase.ClientSending? {
      k := ClientSent;
    } else if s.toClient != [] {
      k := ClientRecv;
    } else {
      k := ServerRecv;
    }
  }

  /** Closed copies are the file, the open one is the beginning of it. */
  predicate ExactSoFar(c: Config, cl: Client) {
    && cl.files != []
    && (forall i :: 0 <= i < |cl.files| - 1 ==> cl.files[i] == c.file)
    && Current(cl) <= c.file
  }

  predicate ExactCopies(c: Config, s: Session) {
    && s.ce.phase.ClientQuit?
    && |s.ce.cl.files| == c.copies && forall i :: 0 <= i < c.copies ==> s.ce.cl.files[i] == c.file
  }

  lemma ExactAhead(c: Config, s: Session, p: nat)
    requires SessionInv(c, s, p) && Exact(c, Ahead(c, s, p))
    ensures ExactSoFar(c, s.ce.cl)
    ensures s.ce.phase.ClientQuit? ==> ExactCopies(c, s)
  {
    var cl, cl' := s.ce.cl, Ahead(c, s, p).cl;
    if s.toClient != [] {
      if |s.toClient[0]| != 1 {
        assert forall i :: 0 <= i < |cl.files| - 1 ==> cl'.files[i] == cl.files[i];
        assert Current(cl) <= Current(cl');
      } else if !cl'.quit {
        assert forall i :: 0 <= i < |cl.files| ==> cl'.files[i] == cl.files[i];
      }
    }
  }

  /** All connections with what the server keeps for all of them: handle and buffer, how
      many connections the listener still accepts, the loop's count of connections and
      its quit flag. */
  datatype System = System(sh: Shared, ss: seq<Session>, room: nat, count: int, quit: bool)

  /** `lost`: where a failing seek of this step leaves the handle. */
  datatype Action = Act(i: int, k: Kind, lost: nat)

  predicate CanAct(c: Config, y: System, a: Action) {
    && 0 <= a.i < |y.ss| && Sane(c, y.sh, y.ss[a.i], a.lost) && Enabled(y.ss[a.i], a.k)
    && (a.k.AtServer() ==> !y.quit) && (a.k.ServerConnected? ==> y.room > 0)
  }

  /** The listener stops for good after so many connections. */
  function RoomAfter(room: nat, k: Kind): nat {
    if k.ServerConnected? && room > 0 then room - 1 else room
  }

  /** The count of connections after the package. */
  function CountAfter(count: int, k: Kind): int {
    if k.ServerConnected? then count + 1 else if k.ServerDisconnected? then count - 1 else count
  }

  /** on_disconnected quits the loop when nobody is left. */
  predicate QuitAfter(quit: bool, count: int, k: Kind) {
    quit || (k.ServerDisconnected? && CountAfter(count, k) == 0)
  }

  function Next(c: Config, y: System, a: Action): System
    requires CanAct(c, y, a)
  {
    var (sh, s) := Step(c, y.sh, y.ss[a.i], a.k, a.lost);
    System(sh, y.ss[a.i := s], RoomAfter(y.room, a.k), CountAfter(y.count, a.k), QuitAfter(y.quit, y.count, a.k))
  }

  predicate Run(c: Config, y: System, acts: seq<Action>)
    decreases |acts|
  {
    acts == [] || (CanAct(c, y, acts[0]) && Run(c, Next(c, y, acts[0]), acts[1..]))
  }

  function End(c: Config, y: System, acts: seq<Action>): (e: System)
    requires Run(c, y, acts)
    ensures |e.ss| == |y.ss|
    decreases |acts|
  {
    if acts == [] then y else End(c, Next(c, y, acts[0]), acts[1..])
  }

  /** Whatever the shared buffer and handle hold at the start, whatever the limit. */
  predicate Initial(c: Config, y: System) {
    && c.Valid() && |y.sh.buf| == c.piece && y.count == 0 && !y.quit
    && forall i :: 0 <= i < |y.ss| ==> y.ss[i] == NEW_SESSION
  }

  /** A session that an int can follow, on the exact path. */
  predicate OnPath(c: Config, s: Session) {
    && |c.file| <= INT_MAX && 0 <= s.se.sv.pos
    && SessionInv(c, s, s.se.sv.pos) && Exact(c, Ahead(c, s, s.se.sv.pos))
  }

  predicate SystemInv(c: Config, y: System) {
    c.Valid() && |y.sh.buf| == c.piece && forall i :: 0 <= i < |y.ss| ==> OnPath(c, y.ss[i])
  }

  lemma PathKept(c: Config, sh: Shared, s: Session, k: Kind, lost: nat)
    requires OnPath(c, s) && Sane(c, sh, s, lost) && Enabled(s, k) && |c.file| % c.piece != 1
    ensures var (sh', s') := Step(c, sh, s, k, lost);
      |sh'.buf| == c.piece && OnPath(c, s') && Less(Left(c, s', s'.se.sv.pos), Left(c, s, s.se.sv.pos))
  {
    var p := s.se.sv.pos;
    StepKeeps(c, sh, s, k, lost, p);
    if Sends(k) {
      ExactTurn(c, Ahead(c, s, p));
    }
  }

  lemma {:induction false} RunKeeps(c: Config, y: System, acts: seq<Action>)
    requires SystemInv(c, y) && Run(c, y, acts) && |c.file| % c.piece != 1
    ensures SystemInv(c, End(c, y, acts))
    decreases |acts|
  {
    if acts == [] {
    } else {
      PathKept(c, y.sh, y.ss[acts[0].i], acts[0].k, acts[0].lost);
      RunKeeps(c, Next(c, y, acts[0]), acts[1..]);
    }
  }

  // ---- the server's loop ----

  /** How many sessions are connected. */
  function Connected(ss: seq<Session>): nat {
    if ss == [] then 0 else (if Alive(ss[0]) then 1 else 0) + Connected(ss[1..])
  }

  lemma {:induction false} ConnectedUpdate(ss: seq<Session>, i: int, s: Session)
    requires 0 <= i < |ss|
    ensures Connected(ss[i := s]) == Connected(ss) - (if Alive(ss[i]) then 1 else 0) + if Alive(s) then 1 else 0
    decreases |ss|
  {
    if i == 0 {
      assert ss[0 := s][1..] == ss[1..];
    } else {
      ConnectedUpdate(ss[1..], i - 1, s);
      assert ss[i := s][1..] == ss[1..][i - 1 := s];
    }
  }

  lemma {:induction false} ConnectedIff(ss: seq<Session>)
    ensures Connected(ss) == 0 <==> forall i :: 0 <= i < |ss| ==> !Alive(ss[i])
  {
    if ss == [] {
    } else {
      ConnectedIff(ss[1..]);
      assert forall i :: 0 < i < |ss| ==> ss[i] == ss[1..][i - 1];
    }
  }

  /** The count is right, and the loop has quit only with nobody connected. */
  predicate CountInv(y: System) {
    y.count == Connected(y.ss) && (y.quit ==> y.count == 0)
  }

  lemma {:induction false} RunCounts(c: Config, y: System, acts: seq<Action>)
    requires CountInv(y) && Run(c, y, acts)
    ensures CountInv(End(c, y, acts))
    decreases |acts|
  {
    if acts == [] {
    } else {
      var y' := Next(c, y, acts[0]);
      ConnectedUpdate(y.ss, acts[0].i, y'.ss[acts[0].i]);
      RunCounts(c, y', acts[1..]);
    }
  }

  /** How many sessions have ever been connected. */
  function Accepted(ss: seq<Session>): nat {
    if ss == [] then 0 else (if ss[0].se.phase.ServerNew? then 0 else 1) + Accepted(ss[1..])
  }

  lemma {:induction false} AcceptedUpdate(ss: seq<Session>, i: int, s: Session)
    requires 0 <= i < |ss|
    ensures Accepted(ss[i := s]) ==
      Accepted(ss) - (if ss[i].se.phase.ServerNew? then 0 else 1) + if s.se.phase.ServerNew? then 0 else 1
    decreases |ss|
  {
    if i == 0 {
      assert ss[0 := s][1..] == ss[1..];
    } else {
      AcceptedUpdate(ss[1..], i - 1, s);
      assert ss[i := s][1..] == ss[1..][i - 1 := s];
    }
  }

  /** The listener never takes more than its limit. */
  lemma {:induction false} RunKeepsLimit(c: Config, y: System, acts: seq<Action>)
    requires Run(c, y, acts)
    ensures Accepted(End(c, y, acts).ss) + End(c, y, acts).room == Accepted(y.ss) + y.room
    decreases |acts|
  {
    if acts == [] {
    } else {
      var y' := Next(c, y, acts[0]);
      AcceptedUpdate(y.ss, acts[0].i, y'.ss[acts[0].i]);
      RunKeepsLimit(c, y', acts[1..]);
    }
  }

  /** The loop has quit before it dispatched the connected package of session `i`, or the
      listener had stopped before it came. */
  predicate Stranded(y: System, i: int)
    requires 0 <= i < |y.ss|
  {
    (y.quit || y.room == 0) && y.ss[i].se.phase.ServerNew?
  }

  /** At some moment of the run there is no room left, or a step takes the count back to
      0, while session `i` is still to be connected. */
  predicate LeftBehind(c: Config, y: System, acts: seq<Action>, i: int)
    requires Run(c, y, acts) && 0 <= i < |y.ss|
    decreases |acts|
  {
    || (y.room == 0 && y.ss[i].se.phase.ServerNew?)
    || (acts != [] && acts[0].k.ServerDisconnected? && y.count == 1 && y.ss[i].se.phase.ServerNew?)
    || (acts != [] && LeftBehind(c, Next(c, y, acts[0]), acts[1..], i))
  }

  lemma {:induction false} StrandedIff(c: Config, y: System, acts: seq<Action>, i: int)
    requires Run(c, y, acts) && 0 <= i < |y.ss|
    ensures Stranded(End(c, y, acts), i) <==> Stranded(y, i) || LeftBehind(c, y, acts, i)
    decreases |acts|
  {
    if acts == [] {
    } else {
      StrandedIff(c, Next(c, y, acts[0]), acts[1..], i);
    }
  }

  predicate OrderlyRun(c: Config, y: System, acts: seq<Action>)
    requires Run(c, y, acts)
    decreases |acts|
  {
    acts == [] || (Orderly(y.ss[acts[0].i], acts[0].k) && OrderlyRun(c, Next(c, y, acts[0]), acts[1..]))
  }

  lemma OrderlyLater(c: Config, y: System, a: Action, later: seq<Action>)
    requires CanAct(c, y, a) && Orderly(y.ss[a.i], a.k)
    requires Run(c, Next(c, y, a), later) && OrderlyRun(c, Next(c, y, a), later)
    ensures Run(c, y, [a] + later) && OrderlyRun(c, y, [a] + later)
  {
    assert ([a] + later)[1..] == later;
  }

  /** In an orderly run a session the server has done with is one whose client quit. */
  predicate Calm(y: System) {
    forall i :: 0 <= i < |y.ss| && y.ss[i].se.phase.ServerGone? ==> y.ss[i].ce.phase.ClientQuit?
  }

  lemma {:induction false} RunCalm(c: Config, y: System, acts: seq<Action>)
    requires Calm(y) && Run(c, y, acts) && OrderlyRun(c, y, acts)
    ensures Calm(End(c, y, acts))
    decreases |acts|
  {
    if acts == [] {
    } else {
      RunCalm(c, Next(c, y, acts[0]), acts[1..]);
    }
  }

  /** An orderly step that session `i` can make. */
  predicate CanGoOn(c: Config, y: System, a: Action) {
    CanAct(c, y, a) && Orderly(y.ss[a.i], a.k)
  }

  lemma GoesOn(c: Config, y: System, i: int) returns (a: Action)
    requires SystemInv(c, y) && CountInv(y) && Calm(y) && 0 <= i < |y.ss|
    requires !y.ss[i].ce.phase.ClientQuit? && !Stranded(y, i)
    ensures a.i == i && CanGoOn(c, y, a)
  {
    var k := NotStuck(c, y.ss[i], y.ss[i].se.sv.pos);
    a := Act(i, k, 0);
    ConnectedIff(y.ss);
  }

  lemma InitialOk(c: Config, y: System)
    requires Initial(c, y)
    ensures CountInv(y) && Calm(y)
    ensures 1 <= |c.file| <= INT_MAX ==> SystemInv(c, y)
  {
    ConnectedIff(y.ss);
    if 1 <= |c.file| <= INT_MAX {
      NewSessionOk(c);
      StartOfPath(c);
    }
  }

  /** Any number of sessions over the shared handle and buffer, any interleaving, any
      failures: at every moment what each client has written is exact so far, a
      client that has quit has exact copies, and every step of a session brings it
      nearer to its end and leaves the others alone. As long as nothing fails, a
      session whose client has not quit can go on, unless the server's loop has quit
      or its listener stopped before the session was connected. */
  lemma EveryClientCopiesExactly(c: Config, y: System, acts: seq<Action>, i: int, a: Action)
    requires Initial(c, y) && 1 <= |c.file| <= INT_MAX && |c.file| % c.piece != 1
    requires Run(c, y, acts) && 0 <= i < |y.ss|
    ensures var e := End(c, y, acts);
      && OnPath(c, e.ss[i]) && ExactSoFar(c, e.ss[i].ce.cl)
      && (e.ss[i].ce.phase.ClientQuit? ==> ExactCopies(c, e.ss[i]))
      && (OrderlyRun(c, y, acts) && !e.ss[i].ce.phase.ClientQuit? ==>
            Stranded(e, i) || exists b: Action :: b.i == i && CanGoOn(c, e, b))
      && (CanAct(c, e, a) && a.i == i ==>
            var s' := Next(c, e, a).ss[i];
            OnPath(c, s') && Less(Left(c, s', s'.se.sv.pos), Left(c, e.ss[i], e.ss[i].se.sv.pos)))
      && (CanAct(c, e, a) && a.i != i ==> Next(c, e, a).ss[i] == e.ss[i])
  {
    InitialOk(c, y);
    RunKeeps(c, y, acts);
    RunCounts(c, y, acts);
    var e := End(c, y, acts);
    ExactAhead(c, e.ss[i], e.ss[i].se.sv.pos);
    if OrderlyRun(c, y, acts) && !e.ss[i].ce.phase.ClientQuit? && !Stranded(e, i) {
      RunCalm(c, y, acts);
      var b := GoesOn(c, e, i);
    }
    if CanAct(c, e, a) {
      PathKept(c, e.sh, e.ss[a.i], a.k, a.lost);
    }
  }

  // ---- the exact condition ----

  /** Session `i` can do nothing more unless something fails. */
  ghost predicate Settled(c: Config, y: System, i: int) {
    forall a: Action :: a.i == i ==> !CanGoOn(c, y, a)
  }

  /** Where nothing has failed and nothing more can be done, the client has its copies
      exactly if the session was not left behind. */
  lemma SettledIff(c: Config, y: System, acts: seq<Action>, i: int)
    requires Initial(c, y) && 1 <= |c.file| <= INT_MAX && |c.file| % c.piece != 1
    requires Run(c, y, acts) && OrderlyRun(c, y, acts) && 0 <= i < |y.ss| && Settled(c, End(c, y, acts), i)
    ensures ExactCopies(c, End(c, y, acts).ss[i]) <==> !LeftBehind(c, y, acts, i)
  {
    EveryClientCopiesExactly(c, y, acts, i, Act(i, ServerSent, 0));
    StrandedIff(c, y, acts, i);
  }

  /** If the seek of this step fails, it leaves the handle where it was. */
  predicate SeekKept(y: System, a: Action)
    requires 0 <= a.i < |y.ss|
  {
    y.ss[a.i].se.sv.pos < 0 ==> a.lost == y.sh.filePos
  }

  predicate Stays(c: Config, y: System, acts: seq<Action>)
    requires Run(c, y, acts)
    decreases |acts|
  {
    acts == [] || (SeekKept(y, acts[0]) && Stays(c, Next(c, y, acts[0]), acts[1..]))
  }

  /** In every run of any number of sessions, whatever fails, every client is exact so
      far and has exact copies once it has quit; and if nothing has failed and its
      session can do nothing more it has quit, unless the session was left behind.
      `kept`: of the runs in which failing seeks leave the handle where it was. */
  ghost predicate AlwaysExact(c: Config, kept: bool) {
    forall y: System, acts: seq<Action>, i ::
      Initial(c, y) && Run(c, y, acts) && (kept ==> Stays(c, y, acts)) && 0 <= i < |y.ss| ==>
      && ExactSoFar(c, End(c, y, acts).ss[i].ce.cl)
      && (End(c, y, acts).ss[i].ce.phase.ClientQuit? ==> ExactCopies(c, End(c, y, acts).ss[i]))
      && (OrderlyRun(c, y, acts) && Settled(c, End(c, y, acts), i) && !LeftBehind(c, y, acts, i) ==>
            End(c, y, acts).ss[i].ce.phase.ClientQuit?)
  }

  /** Two sessions, for the runs that go wrong; the second has not begun. */
  function Two(c: Config): System
    requires c.Valid()
  {
    System(Shared(0, seq(c.piece, _ => MARK)), [NEW_SESSION, NEW_SESSION], 2, 0, false)
  }

  /** As long as only the first one is at work the handle stays where it needs it. */
  predicate TwoInv(c: Config, y: System, p: nat) {
    && |y.ss| == 2 && y.ss[1] == NEW_SESSION && |y.sh.buf| == c.piece
    && !y.quit && y.count == (if y.ss[0].se.phase.ServerNew? then 0 else 1) && y.count + y.room == 2
    && SessionInv(c, y.ss[0], p) && !y.ss[0].se.phase.ServerGone?
    && y.sh.filePos <= |c.file| && (y.ss[0].se.sv.pos < 0 ==> y.sh.filePos == p)
  }

  /** A step after which failing seeks have left the handle alone and nothing else
      has failed. */
  predicate Tidy(y: System, a: Action)
    requires 0 <= a.i < |y.ss|
  {
    SeekKept(y, a) && Orderly(y.ss[a.i], a.k)
  }

  predicate TidyRun(c: Config, y: System, acts: seq<Action>)
    requires Run(c, y, acts)
  {
    Stays(c, y, acts) && OrderlyRun(c, y, acts)
  }

  /** The next step of the first session. */
  lemma TwoStep(c: Config, y: System, p: nat) returns (a: Action, p': nat)
    requires TwoInv(c, y, p) && !y.ss[0].ce.phase.ClientQuit?
    ensures CanAct(c, y, a) && a.i == 0 && Tidy(y, a) && Seek(y.ss[0].se.sv.pos, a.lost) == p
    ensures a.k.ServerRecv? ==> forall o :: Enabled(y.ss[0], o) && Orderly(y.ss[0], o) ==> o == ServerRecv
    ensures TwoInv(c, Next(c, y, a), p') && Less(Left(c, Next(c, y, a).ss[0], p'), Left(c, y.ss[0], p))
    ensures if Sends(a.k) then
        !Ahead(c, y.ss[0], p).cl.quit && Ahead(c, Next(c, y, a).ss[0], p') == Turn(c, Ahead(c, y.ss[0], p))
      else Ahead(c, Next(c, y, a).ss[0], p') == Ahead(c, y.ss[0], p)
  {
    var k := NotStuck(c, y.ss[0], p);
    a, p' := Act(0, k, y.sh.filePos), PosNext(c, k, p);
    StepKeeps(c, y.sh, y.ss[0], k, y.sh.filePos, p);
    HandleFollows(c, y.sh, y.ss[0], k, y.sh.filePos, p);
  }

  /** A position that is lost is where the handle has been left. */
  lemma HandleFollows(c: Config, sh: Shared, s: Session, k: Kind, lost: nat, p: nat)
    requires SessionInv(c, s, p) && Sane(c, sh, s, lost) && Enabled(s, k)
    requires sh.filePos <= |c.file| && (s.se.sv.pos < 0 ==> sh.filePos == p == lost)
    ensures var (sh', s') := Step(c, sh, s, k, lost);
      sh'.filePos <= |c.file| && (s'.se.sv.pos < 0 ==> sh'.filePos == PosNext(c, k, p))
  {
  }

  /** With one byte over, a session can be run to its end, with the first copy one
      byte short. */
  lemma {:induction false} RunShort(c: Config, y: System, p: nat) returns (acts: seq<Action>)
    requires TwoInv(c, y, p) && Shortened(c, Ahead(c, y.ss[0], p)) && |c.file| % c.piece == 1
    ensures Run(c, y, acts) && TidyRun(c, y, acts) && End(c, y, acts).ss[0].ce.phase.ClientQuit?
    ensures var files := End(c, y, acts).ss[0].ce.cl.files; files != [] && files[0] == c.file[..|c.file| - 1]
    ensures !ExactCopies(c, End(c, y, acts).ss[0])
    decreases Left(c, y.ss[0], p).0, Left(c, y.ss[0], p).1
  {
    if y.ss[0].ce.phase.ClientQuit? {
      acts := [];
    } else {
      var a, p' := TwoStep(c, y, p);
      if Sends(a.k) {
        ShortTurn(c, Ahead(c, y.ss[0], p));
      }
      var rest := RunShort(c, Next(c, y, a), p');
      acts := [a] + rest;
    }
  }

  /** The first copy is whole but not closed: the marker is due. */
  predicate MarkerDue(c: Config, y: System) {
    && |y.ss| == 2 && |y.sh.buf| == c.piece && y.ss[1] == NEW_SESSION && y.sh.filePos <= |c.file|
    && !y.quit && y.room > 0
    && var s := y.ss[0];
      && s.se.phase.ServerReceiving? && s.ce.phase.ClientReceiving? && s.toServer == [OK] && s.toClient == []
      && s.se.sv.pos == Tell(|c.file|) && s.ce.cl.files == [c.file]
  }

  /** On the way there: the first copy is open and exact, no one-byte message about. */
  predicate Riding(c: Config, y: System, p: nat) {
    && TwoInv(c, y, p) && Exact(c, Ahead(c, y.ss[0], p))
    && Ahead(c, y.ss[0], p).cl.count == 0 && !Ahead(c, y.ss[0], p).cl.quit
    && (y.ss[0].toClient != [] ==> |y.ss[0].toClient[0]| != 1)
  }

  lemma RideTurn(c: Config, y: System, p: nat, a: Action, p': nat)
    requires Riding(c, y, p) && |c.file| % c.piece != 1 && p < |c.file| && Sends(a.k)
    requires CanAct(c, y, a) && TwoInv(c, Next(c, y, a), p')
    requires Ahead(c, Next(c, y, a).ss[0], p') == Turn(c, Ahead(c, y.ss[0], p))
    requires Next(c, y, a).ss[0].toClient == [MessageFor(c, p)]
    ensures Riding(c, Next(c, y, a), p')
  {
    PosStaysWhole(c, p);
    ExactTurn(c, Ahead(c, y.ss[0], p));
  }

  /** At the end of the file, with only the answer to "ok" left to do, it is the
      marker's turn. */
  lemma RideArrives(c: Config, y: System, p: nat)
    requires Riding(c, y, p) && p == |c.file| && Enabled(y.ss[0], ServerRecv) && !Enabled(y.ss[0], ClientSent)
    ensures MarkerDue(c, y)
  {
    var cl := y.ss[0].ce.cl;
    assert cl.files == [Current(cl)] && Current(cl) == c.file[..p] == c.file;
  }

  lemma RideStep(c: Config, y: System, p: nat) returns (a: Action, p': nat)
    requires Riding(c, y, p) && |c.file| % c.piece != 1 && !MarkerDue(c, y)
    ensures CanAct(c, y, a) && Tidy(y, a) && Riding(c, Next(c, y, a), p')
    ensures Less(Left(c, Next(c, y, a).ss[0], p'), Left(c, y.ss[0], p))
  {
    a, p' := TwoStep(c, y, p);
    if Sends(a.k) {
      if p == |c.file| {
        RideArrives(c, y, p);
      }
      MessageFromSeek(c, y.sh, y.ss[0].se.sv, a.lost);
      RideTurn(c, y, p, a, p');
    }
  }

  lemma {:induction false} RunToMarker(c: Config, y: System, p: nat) returns (acts: seq<Action>)
    requires Riding(c, y, p) && |c.file| % c.piece != 1
    ensures Run(c, y, acts) && TidyRun(c, y, acts) && MarkerDue(c, End(c, y, acts))
    decreases Left(c, y.ss[0], p).0, Left(c, y.ss[0], p).1
  {
    if MarkerDue(c, y) {
      acts := [];
    } else {
      var a, p' := RideStep(c, y, p);
      var rest := RunToMarker(c, Next(c, y, a), p');
      acts := [a] + rest;
    }
  }

  lemma {:induction false} RunOn(c: Config, y: System, acts: seq<Action>, a: Action)
    requires Run(c, y, acts) && CanAct(c, End(c, y, acts), a)
    ensures Run(c, y, acts + [a]) && End(c, y, acts + [a]) == Next(c, End(c, y, acts), a)
    ensures TidyRun(c, y, acts) && Tidy(End(c, y, acts), a) ==> TidyRun(c, y, acts + [a])
    ensures OrderlyRun(c, y, acts) && Orderly(End(c, y, acts).ss[a.i], a.k) ==> OrderlyRun(c, y, acts + [a])
    decreases |acts|
  {
    if acts == [] {
      assert [] + [a] == [a] && [a][1..] == [];
    } else {
      assert (acts + [a])[1..] == acts[1..] + [a];
      RunOn(c, Next(c, y, acts[0]), acts[1..], a);
    }
  }

  /** With the marker due and the position lost, the other session's first read moves
      the handle and its second piece goes out in the marker's place. */
  lemma OtherMovesHandle(c: Config, y: System) returns (a: Action, b: Action, d: Action)
    requires c.Valid() && MarkerDue(c, y) && |c.file| > INT_MAX && |c.file| % c.piece != 1
    ensures CanAct(c, y, a) && Tidy(y, a)
    ensures CanAct(c, Next(c, y, a), b) && Tidy(Next(c, y, a), b)
    ensures var y' := Next(c, Next(c, y, a), b);
      CanAct(c, y', d) && Tidy(y', d) && !ExactSoFar(c, Next(c, y', d).ss[0].ce.cl)
  {
    a, b, d := Act(1, ServerConnected, 0), Act(0, ServerRecv, c.piece), Act(0, ClientRecv, c.piece);
    var y1 := Next(c, y, a);
    assert y1.sh.filePos == c.piece && y1.ss[0] == y.ss[0];
    MessageFromSeek(c, y1.sh, y1.ss[0].se.sv, c.piece);
    var y2 := Next(c, y1, b);
    var m := Piece(c, c.piece);
    assert y2.ss[0].toClient == [m];
    if |c.file| == c.piece + 1 {
      ModUnique(|c.file|, c.piece, 1, 1);
    }
    assert y2.sh.filePos <= |c.file|;
    d := Act(0, ClientRecv, y2.sh.filePos);
    assert Next(c, y2, d).ss[0].ce.cl.files == [c.file + m];
  }

  /** A position past the ints is lost, and another session is enough to show it: the
      copy grows beyond the file. */
  lemma RunTooLong(c: Config) returns (acts: seq<Action>)
    requires c.Valid() && |c.file| > INT_MAX && |c.file| % c.piece != 1
    ensures Run(c, Two(c), acts) && TidyRun(c, Two(c), acts)
    ensures !ExactSoFar(c, End(c, Two(c), acts).ss[0].ce.cl)
  {
    var y := Two(c);
    NewSessionOk(c);
    StartOfPath(c);
    acts := RunToMarker(c, y, 0);
    var a, b, d := OtherMovesHandle(c, End(c, y, acts));
    RunOn(c, y, acts, a);
    RunOn(c, y, acts + [a], b);
    RunOn(c, y, acts + [a] + [b], d);
    acts := acts + [a] + [b] + [d];
  }

  lemma TooLongFails(c: Config, kept: bool)
    requires c.Valid() && |c.file| > INT_MAX && |c.file| % c.piece != 1
    ensures !AlwaysExact(c, kept)
  {
    var acts := RunTooLong(c);
    assert Initial(c, Two(c)) && !ExactSoFar(c, End(c, Two(c), acts).ss[0].ce.cl);
  }

  lemma NobodyMoves(c: Config, y: System, i: int)
    requires 0 <= i < |y.ss| && y.ss[i].se.phase.ServerReceiving? && y.ss[i].ce.phase.ClientReceiving?
    requires !Mail(y.ss[i].toServer) && !Mail(y.ss[i].toClient)
    ensures Settled(c, y, i)
  {
  }

  lemma RunEmpty(c: Config) returns (acts: seq<Action>)
    requires c.Valid() && c.file == []
    ensures Run(c, Two(c), acts) && TidyRun(c, Two(c), acts)
    ensures var s := End(c, Two(c), acts).ss[0];
      && s.se.phase.ServerReceiving? && s.ce.phase.ClientReceiving? && !Mail(s.toServer) && !Mail(s.toClient)
  {
    var y0 := Two(c);
    var a0, a1, a2 := Act(0, ServerConnected, 0), Act(0, ServerSent, 0), Act(0, ClientConnected, 0);
    var y1 := Next(c, y0, a0);
    var y2 := Next(c, y1, a1);
    RunOn(c, y0, [], a0);
    RunOn(c, y0, [] + [a0], a1);
    RunOn(c, y0, [] + [a0] + [a1], a2);
    acts := [] + [a0] + [a1] + [a2];
  }

  /** An empty file never reaches the client: the first message has no content. */
  lemma EmptyFileFails(c: Config, kept: bool)
    requires c.Valid() && c.file == []
    ensures !AlwaysExact(c, kept)
  {
    var acts := RunEmpty(c);
    StrandedIff(c, Two(c), acts, 0);
    NobodyMoves(c, End(c, Two(c), acts), 0);
    assert Initial(c, Two(c)) && Run(c, Two(c), acts);
  }

  lemma ByteOverFails(c: Config, kept: bool)
    requires c.Valid() && c.file != [] && |c.file| % c.piece == 1
    ensures !AlwaysExact(c, kept)
  {
    var y := Two(c);
    NewSessionOk(c);
    StartOfPath(c);
    var acts := RunShort(c, y, 0);
    assert Initial(c, y) && !ExactCopies(c, End(c, y, acts).ss[0]);
  }

  lemma GoodFileWorks(c: Config, kept: bool)
    requires c.Valid() && 1 <= |c.file| <= INT_MAX && |c.file| % c.piece != 1
    ensures AlwaysExact(c, kept)
  {
    forall y: System, acts: seq<Action>, i | Initial(c, y) && Run(c, y, acts) && 0 <= i < |y.ss|
      ensures ExactSoFar(c, End(c, y, acts).ss[i].ce.cl)
      ensures End(c, y, acts).ss[i].ce.phase.ClientQuit? ==> ExactCopies(c, End(c, y, acts).ss[i])
      ensures OrderlyRun(c, y, acts) && Settled(c, End(c, y, acts), i) && !LeftBehind(c, y, acts, i) ==>
        End(c, y, acts).ss[i].ce.phase.ClientQuit?
    {
      EveryClientCopiesExactly(c, y, acts, i, Act(0, ServerSent, 0));
      StrandedIff(c, y, acts, i);
    }
  }

  // ---- a session that comes late ----

  /** The first session's client has its copies; the second session has not begun. */
  predicate FirstDone(c: Config, y: System) {
    && c.Valid() && |y.ss| == 2 && y.ss[1] == NEW_SESSION && |y.sh.buf| == c.piece
    && !y.quit && y.count == 1 && y.room > 0 && y.sh.filePos <= |c.file|
    && var s := y.ss[0];
      && s.ce.phase.ClientQuit? && s.ce.cl.files != [] && s.se.sv.pos <= |c.file|
      && (s.se.phase.ServerSending? || s.se.phase.ServerReceiving?)
  }

  /** The loop has quit and only the first session has ever been connected. */
  predicate Closed(c: Config, y: System) {
    && y.quit && y.room > 0 && |y.ss| == 2 && y.ss[1] == NEW_SESSION && y.ss[0].ce.phase.ClientQuit?
    && y.sh.filePos <= |c.file| && |y.sh.buf| == c.piece
  }

  /** The last notifications of the first session. */
  lemma LoopQuits(c: Config, y: System) returns (acts: seq<Action>)
    requires FirstDone(c, y)
    ensures Run(c, y, acts) && TidyRun(c, y, acts) && Closed(c, End(c, y, acts))
  {
    var a, b := Act(0, ServerSent, y.sh.filePos), Act(0, ServerDisconnected, y.sh.filePos);
    if y.ss[0].se.phase.ServerSending? {
      RunOn(c, y, [], a);
      RunOn(c, y, [] + [a], b);
      acts := [] + [a] + [b];
    } else {
      RunOn(c, y, [], b);
      acts := [] + [b];
    }
  }

  lemma {:induction false} RunFirst(c: Config, y: System, p: nat) returns (acts: seq<Action>)
    requires TwoInv(c, y, p)
    ensures Run(c, y, acts) && TidyRun(c, y, acts) && Closed(c, End(c, y, acts))
    decreases Left(c, y.ss[0], p).0, Left(c, y.ss[0], p).1
  {
    if y.ss[0].ce.phase.ClientQuit? {
      acts := LoopQuits(c, y);
    } else {
      var a, p' := TwoStep(c, y, p);
      var rest := RunFirst(c, Next(c, y, a), p');
      acts := [a] + rest;
    }
  }

  /** One client after the other: for every file that is not empty there is a run in
      which nothing fails, the first client has done, the loop has quit, and the
      second session can do nothing more although its client has nothing. */
  lemma LateSessionStranded(c: Config) returns (acts: seq<Action>)
    requires c.Valid() && c.file != []
    ensures Run(c, Two(c), acts) && TidyRun(c, Two(c), acts)
    ensures var e := End(c, Two(c), acts);
      && e.ss[0].ce.phase.ClientQuit? && e.quit && e.room > 0 && Stranded(e, 1) && LeftBehind(c, Two(c), acts, 1)
      && Settled(c, e, 1) && e.ss[1].ce == ClientEnd(OPENED, ClientReceiving)
  {
    var y := Two(c);
    NewSessionOk(c);
    acts := RunFirst(c, y, 0);
    var e := End(c, y, acts);
    var a := Act(1, ClientConnected, e.sh.filePos);
    RunOn(c, y, acts, a);
    acts := acts + [a];
    StrandedIff(c, y, acts, 1);
  }

  /** The copies are exact exactly when the file is not empty, its length is an int, and
      it has not one byte over: at every moment of every run whatever fails, and in
      the end wherever nothing fails and the session is not left behind. */
  lemma ExactIff(c: Config, kept: bool)
    requires c.Valid()
    ensures AlwaysExact(c, kept) <==> 1 <= |c.file| <= INT_MAX && |c.file| % c.piece != 1
  {
    if c.file == [] {
      EmptyFileFails(c, kept);
    } else if |c.file| % c.piece == 1 {
      ByteOverFails(c, kept);
    } else if |c.file| > INT_MAX {
      TooLongFails(c, kept);
    } else {
      GoodFileWorks(c, kept);
    }
  }
}
