/** session_ioT itself: the methods that move bytes between the user's buffers,
    the two iobufs and the kernel, proved against the machines of Receiver and
    Sender. `postOk` parameters stand for the answer of WSARecv or WSASend. */
module SessionIo {
  import opened IoBuffer
  import opened Framing
  import opened Receiver
  import opened Sender

  /** Calls made on the derived session class. */
  datatype Notice =
    | SendFinished | RecvFinished | RecvFailed | ProtocolFault
    | SendError | RecvError | Disconnected

  datatype Operation = IoQuit | IoSend | IoRecv

  /** The user's buffer, holding `user` before, after recv_package has looked at `s`. */
  function UserBuffer(s: seq<Byte>, cap: int, userLen: int, user: seq<Byte>): seq<Byte>
    requires userLen <= |user|
  {
    match FrontOf(s, cap)
    case Frame(n) => if n > userLen then user else s[HEADER..HEADER + n] + user[n..]
    case _ => user
  }

  /** What recv_package reports once it has looked at the bytes `s`. */
  function RecvNotices(s: seq<Byte>, cap: int, userLen: int, postOk: bool): seq<Notice> {
    match FrontOf(s, cap)
    case Incomplete => if postOk then [] else [RecvError, Disconnected]
    case Malformed => [ProtocolFault]
    case Frame(n) => if n > userLen then [RecvFailed] else [RecvFinished]
  }

  /** What recv_package returns once it has looked at the bytes `s`. */
  function RecvResult(s: seq<Byte>, cap: int, userLen: int): int {
    match FrontOf(s, cap)
    case Incomplete => 0
    case Malformed => -1
    case Frame(n) => if n > userLen then 0 else 1
  }

  /** What a send completion reports, `last` if it acknowledges all that was left. */
  function AckNotices(last: bool, postOk: bool): seq<Notice> {
    if last then [SendFinished] else if postOk then [] else [SendError, Disconnected]
  }

  /** Writes a header at index `t`; the two padding bytes keep what was there. */
  method WriteHeader(b: array<Byte>, t: int, n: int)
    requires 0 <= t && t + HEADER <= b.Length && 0 <= n <= INT_MAX
    modifies b
    ensures MagicOf(b[t..t + HEADER]) == MAGIC && SizeOf(b[t..t + HEADER]) == n
    ensures b[t] == 0xfe && b[t + 1] == 0xef
    ensures b[t + 4] as int + 0x100 * b[t + 5] as int + 0x1_0000 * b[t + 6] as int + 0x100_0000 * b[t + 7] as int == n
    ensures forall i :: 0 <= i < b.Length && i != t && i != t + 1 && !(t + 4 <= i < t + HEADER) ==> b[i] == old(b[i])
  {
    b[t], b[t + 1] := MAGIC % 0x100, MAGIC / 0x100;
    b[t + 4], b[t + 5], b[t + 6], b[t + 7] :=
      SizeByte(n, 0), SizeByte(n, 1), SizeByte(n, 2), SizeByte(n, 3);
    ghost var header := b[t..t + HEADER];
    LeNatOfTwo(header[0..2]);
    assert forall k :: 0 <= k < 4 ==> header[4 + k] == SizeByte(n, k);
    SizeRoundTrip(header, n);
    SizeBytesSum(n);
  }

  lemma SizeBytesSum(n: int)
    requires 0 <= n <= INT_MAX
    ensures SizeByte(n, 0) as int + 0x100 * SizeByte(n, 1) as int
      + 0x1_0000 * SizeByte(n, 2) as int + 0x100_0000 * SizeByte(n, 3) as int == n
  {
    var n1 := n / 0x100;
    var n2 := n1 / 0x100;
    assert n / 0x1_0000 == n2 && n / 0x100_0000 == n2 / 0x100;
  }

  lemma FrameFromParts(frame: seq<Byte>, header: seq<Byte>, content: seq<Byte>)
    requires |header| == HEADER && frame == header + content
    requires MagicOf(header) == MAGIC && SizeOf(header) == |content|
    ensures IsFrame(frame, content)
  {
    assert frame[..HEADER] == header[..HEADER];
    SameHeader(frame, header);
  }

  /** Writes a frame at index `t`, its content in two parts. */
  method WriteFrame(b: array<Byte>, t: int, data1: array<Byte>, len1: int, data2: array<Byte>, len2: int)
    requires 0 <= len1 <= data1.Length && 0 <= len2 <= data2.Length && b != data1 && b != data2
    requires 0 <= t && t + HEADER + len1 + len2 <= b.Length <= INT_MAX
    modifies b
    ensures forall i :: 0 <= i < t ==> b[i] == old(b[i])
    ensures IsFrame(b[t..t + HEADER + len1 + len2], data1[..len1] + data2[..len2])
  {
    WriteHeader(b, t, len1 + len2);
    ghost var header := b[t..t + HEADER];
    Memcpy(b, t + HEADER, data1, 0, len1);
    Memcpy(b, t + HEADER + len1, data2, 0, len2);
    ghost var frame := b[t..t + HEADER + len1 + len2];
    assert frame == header + (data1[..len1] + data2[..len2]);
    FrameFromParts(frame, header, data1[..len1] + data2[..len2]);
  }

  /** Puts a frame behind what `b` holds, if that stays below the end of its array. */
  method AppendFrame(b: IoBuf, data1: array<Byte>, len1: int, data2: array<Byte>, len2: int) returns (ok: bool)
    requires b.Valid() && b.head <= b.trail
    requires 0 <= len1 <= data1.Length && data1 != b.buf
    requires 0 <= len2 <= data2.Length && data2 != b.buf
    modifies b, b.buf
    ensures b.Valid() && b.head <= b.trail
    ensures ok <==> old(b.trail) + HEADER + len1 + len2 < b.size
    ensures !ok ==> b.Contents() == old(b.Contents())
    ensures ok ==> old(b.Contents()) <= b.Contents()
    ensures ok ==> IsFrame(b.Contents()[|old(b.Contents())|..], old(data1[..len1] + data2[..len2]))
    ensures b.head == old(b.head)
  {
    var total := len1 + len2 + HEADER;
    ok := b.DetectAdd(total);
    if !ok {
      return;
    }
    WriteFrame(b.buf, b.trail, data1, len1, data2, len2);
    assert b.Ahead(total) == b.buf[b.trail..b.trail + total];
    assert b.Contents() == old(b.Contents());
    b.TrailMove(total);
  }

  lemma BatchGrows(before: seq<Byte>, building: seq<seq<Byte>>, now: seq<Byte>, content: seq<Byte>)
    requires IsStream(before, building) && before <= now && IsFrame(now[|before|..], content)
    ensures IsStream(now, building + [content])
  {
    StreamAppend(before, building, now[|before|..], content);
    assert now == before + now[|before|..];
  }

  /** Moves the content of the frame at the front of `b` to `data`. */
  method TakeFrame(b: IoBuf, n: int, data: array<Byte>)
    requires b.Valid() && 0 < n <= data.Length && HEADER + n <= b.Used() && data != b.buf
    modifies b, data
    ensures b.Valid() && b.Contents() == old(b.Contents())[HEADER + n..]
    ensures data[..] == old(b.Contents())[HEADER..HEADER + n] + old(data[n..])
  {
    ghost var ring, user := b.Contents(), data[..];
    b.HeadMove(HEADER);
    assert b.Contents()[..n] == ring[HEADER..HEADER + n];
    assert b.Contents()[n..] == ring[HEADER + n..];
    b.FastCopy(data, n);
    assert data[..] == data[..n] + user[n..];
    b.HeadMove(n);
  }

  class Session {
    const sendBuf: IoBuf
    const recvBuf: IoBuf
    var ioRecvBuf: array<Byte>
    var ioRecvLen: int
    var packSize: int
    var notices: seq<Notice>

    // What the kernel holds, and the history the proofs speak about.
    ghost var recvMode: Mode
    ghost var sendMode: Mode
    ghost var log: seq<Outcome>
    ghost var acked: seq<Byte>
    ghost var finished: nat

    // The messages added to the batch since it was begun.
    ghost var building: seq<seq<Byte>>

    ghost predicate Valid()
      reads this, recvBuf, sendBuf, sendBuf.buf
    {
      && recvBuf.Valid() && sendBuf.Valid()
      && recvBuf != sendBuf && recvBuf.buf != sendBuf.buf
      && sendBuf.head <= sendBuf.trail
      && ioRecvBuf != recvBuf.buf && ioRecvBuf != sendBuf.buf
      && ioRecvLen <= ioRecvBuf.Length
      && (sendMode.Idle? ==> IsBatch(sendBuf.Contents(), building, sendBuf.size))
    }

    ghost function RecvView(): RecvState
      requires Valid()
      reads this, recvBuf, sendBuf, sendBuf.buf, recvBuf.buf
    {
      RecvState(recvBuf.Contents(), recvMode, ioRecvLen, log)
    }

    /** The send buffer belongs to the batch being built until it is posted. */
    ghost function SendView(): SendState
      requires Valid()
      reads this, recvBuf, sendBuf, sendBuf.buf
    {
      SendState(sendMode, if sendMode.Idle? then [] else sendBuf.Contents(), acked, finished)
    }

    constructor (sendSize: int, recvSize: int)
      requires 0 < sendSize <= INT_MAX && 0 < recvSize <= INT_MAX
      ensures Valid() && RecvView() == IDLE_RECEIVER && SendView() == IDLE_SENDER
      ensures fresh(recvBuf) && fresh(sendBuf) && fresh(recvBuf.buf) && fresh(sendBuf.buf)
      ensures recvBuf.size == recvSize && sendBuf.size == sendSize && notices == [] && building == []
    {
      recvBuf := new IoBuf(recvSize);
      sendBuf := new IoBuf(sendSize);
      ioRecvBuf := new Byte[0];
      ioRecvLen, packSize := 0, 0;
      notices, log, acked, finished := [], [], [], 0;
      recvMode, sendMode, building := Idle, Idle, [];
    }

    // ---- sending ----

    method SendInit()
      requires Valid() && sendMode.Idle?
      modifies sendBuf, `building
      ensures Valid() && sendBuf.Contents() == [] && sendBuf.head == sendBuf.trail == 0 && building == []
      ensures RecvView() == old(RecvView()) && SendView() == old(SendView())
    {
      sendBuf.Reset();
      building := [];
    }

    /** Adds the frame of data[..len] to the batch, or reports that it does not fit. */
    method SendAdd(data: array<Byte>, len: int) returns (ok: bool)
      requires Valid() && sendMode.Idle? && 0 <= len <= data.Length && data != sendBuf.buf
      modifies sendBuf, sendBuf.buf, `building
      ensures Valid()
      ensures ok <==> old(sendBuf.trail) + HEADER + len < sendBuf.size
      ensures !ok ==> sendBuf.Contents() == old(sendBuf.Contents())
      ensures ok ==> old(sendBuf.Contents()) <= sendBuf.Contents()
      ensures ok ==> IsFrame(sendBuf.Contents()[|old(sendBuf.Contents())|..], old(data[..len]))
      ensures building == old(building) + if ok then [old(data[..len])] else []
      ensures sendBuf.head == old(sendBuf.head)
      ensures sendBuf.head == 0 ==> (ok <==> FrameBytes(old(building)) + HEADER + len < sendBuf.size)
      ensures RecvView() == old(RecvView()) && SendView() == old(SendView())
    {
      ok := AddFrame(data, len, data, 0);
      assert old(data[..len]) + [] == old(data[..len]);
    }

    /** The common body of send_add and of the two-part send: one frame whose
        content is data1[..len1] followed by data2[..len2]. */
    method AddFrame(data1: array<Byte>, len1: int, data2: array<Byte>, len2: int) returns (ok: bool)
      requires Valid() && sendMode.Idle?
      requires 0 <= len1 <= data1.Length && data1 != sendBuf.buf
      requires 0 <= len2 <= data2.Length && data2 != sendBuf.buf
      modifies sendBuf, sendBuf.buf, `building
      ensures Valid()
      ensures ok <==> old(sendBuf.trail) + HEADER + len1 + len2 < sendBuf.size
      ensures !ok ==> sendBuf.Contents() == old(sendBuf.Contents())
      ensures ok ==> old(sendBuf.Contents()) <= sendBuf.Contents()
      ensures ok ==> IsFrame(sendBuf.Contents()[|old(sendBuf.Contents())|..], old(data1[..len1] + data2[..len2]))
      ensures building == old(building) + if ok then [old(data1[..len1] + data2[..len2])] else []
      ensures sendBuf.head == old(sendBuf.head)
      ensures sendBuf.head == 0 ==> (ok <==> FrameBytes(old(building)) + HEADER + len1 + len2 < sendBuf.size)
      ensures RecvView() == old(RecvView()) && SendView() == old(SendView())
    {
      ghost var before, content := sendBuf.Contents(), data1[..len1] + data2[..len2];
      assert sendBuf.head == 0 ==> FrameBytes(building) == sendBuf.trail by { StreamLength(before, building); }
      ok := AppendFrame(sendBuf, data1, len1, data2, len2);
      if ok {
        BatchGrows(before, building, sendBuf.Contents(), content);
        building := building + [content];
      }
    }

    /** Posts what is left of the batch. */
    method PostSend(postOk: bool) returns (r: int, sp: Spans)
      requires Valid() && !sendMode.Dead?
      modifies `sendMode, `notices
      ensures Valid() && sendMode == (if postOk then Waiting else Dead)
      ensures sp.len2 == 0 && sp.Walks(sendBuf.head, |sendBuf.Contents()|, sendBuf.size)
      ensures notices == old(notices) + (if postOk then [] else [SendError, Disconnected])
      ensures r == if postOk then 1 else 0
    {
      sp := sendBuf.GetUsedBufs();
      if !postOk {
        notices := notices + [SendError, Disconnected];
        sendMode := Dead;
        return 0, sp;
      }
      sendMode := Waiting;
      return 1, sp;
    }

    method SendPackages(postOk: bool) returns (r: int)
      requires Valid() && sendMode.Idle?
      modifies `sendMode, `notices
      ensures Valid()
      ensures IsBatch(old(sendBuf.Contents()), old(building), sendBuf.size)
      ensures SendView() == SendStep(old(SendView()), Batch(old(sendBuf.Contents()), postOk))
      ensures RecvView() == old(RecvView())
      ensures notices == old(notices) + (if postOk then [] else [SendError, Disconnected])
      ensures r == if postOk then 1 else 0
    {
      var sp;
      r, sp := PostSend(postOk);
    }

    /** One message, from one or two parts; -1 if it cannot be held. */
    method Send(data1: array<Byte>, len1: int, data2: array<Byte>, len2: int, postOk: bool)
      returns (r: int, ghost batch: seq<Byte>)
      requires Valid() && sendMode.Idle?
      requires 0 <= len1 <= data1.Length && data1 != sendBuf.buf
      requires 0 <= len2 <= data2.Length && data2 != sendBuf.buf
      modifies `sendMode, `notices, `building, sendBuf, sendBuf.buf
      ensures Valid() && RecvView() == old(RecvView())
      ensures r == -1 <==> HEADER + len1 + len2 >= sendBuf.size
      ensures r == -1 ==> SendView() == old(SendView()) && notices == old(notices)
      ensures r != -1 ==>
        && IsFrame(batch, old(data1[..len1] + data2[..len2]))
        && IsBatch(batch, [old(data1[..len1] + data2[..len2])], sendBuf.size)
        && SendView() == SendStep(old(SendView()), Batch(batch, postOk))
        && notices == old(notices) + (if postOk then [] else [SendError, Disconnected])
        && r == if postOk then 1 else 0
    {
      SendInit();
      var ok := AddFrame(data1, len1, data2, len2);
      batch := sendBuf.Contents();
      if !ok {
        return -1, batch;
      }
      assert batch[0..] == batch;
      assert building == [old(data1[..len1] + data2[..len2])];
      r := SendPackages(postOk);
    }

    /** Drops the bytes the kernel has taken; returns how many are left. */
    method TakeAck(trans: int) returns (left: int)
      requires Valid() && sendMode.Waiting? && 0 < trans <= |sendBuf.Contents()|
      modifies `acked, sendBuf
      ensures Valid() && acked == old(acked) + old(sendBuf.Contents())[..trans]
      ensures sendBuf.Contents() == old(sendBuf.Contents())[trans..] && left == |sendBuf.Contents()|
      ensures RecvView() == old(RecvView())
    {
      acked := acked + sendBuf.Contents()[..trans];
      sendBuf.HeadMove(trans);
      left := sendBuf.Length();
    }

    method SendPackage(trans: int, postOk: bool) returns (r: int)
      requires Valid() && SendEnabled(SendView(), Ack(trans, postOk))
      modifies `sendMode, `notices, `acked, `finished, `building, sendBuf
      ensures Valid()
      ensures SendView() == SendStep(old(SendView()), Ack(trans, postOk))
      ensures RecvView() == old(RecvView())
      ensures notices == old(notices) + AckNotices(trans == |old(SendView()).left|, postOk)
      ensures if trans == |old(sendBuf.Contents())|
        then r == 1 && sendMode == Idle && finished == old(finished) + 1 && notices == old(notices) + [SendFinished]
        else
          && r == (if postOk then 1 else 0) && sendMode == (if postOk then Waiting else Dead)
          && finished == old(finished) && sendBuf.Contents() == old(sendBuf.Contents())[trans..]
          && notices == old(notices) + if postOk then [] else [SendError, Disconnected]
    {
      var left := TakeAck(trans);
      if left == 0 {
        notices, sendMode, finished, building := notices + [SendFinished], Idle, finished + 1, [];
        return 1;
      }
      var sp;
      r, sp := PostSend(postOk);
    }

    // ---- receiving ----

    /** What the user sees once the bytes `ring` have been looked at for a buffer of
        length `len`: one notification appended to those `before`, the buffer filled
        or left alone, and the size of the package in hand. */
    ghost predicate Reported(ring: seq<Byte>, before: seq<Notice>, len: int, user: seq<Byte>, postOk: bool)
      requires len <= |user|
      reads this, ioRecvBuf
    {
      && ioRecvLen == len
      && notices == before + RecvNotices(ring, recvBuf.size, len, postOk)
      && ioRecvBuf[..] == UserBuffer(ring, recvBuf.size, len, user)
      && (FrontOf(ring, recvBuf.size).Frame? ==> packSize == FrontOf(ring, recvBuf.size).size)
    }

    /** Hands the free part of the ring to the kernel. */
    method Receive(postOk: bool) returns (r: int, sp: Spans)
      requires Valid()
      modifies `recvMode, `notices
      ensures Valid() && recvMode == (if postOk then Waiting else Dead)
      ensures 0 < sp.len1 && sp.Walks(recvBuf.trail, recvBuf.size - recvBuf.Used(), recvBuf.size)
      ensures notices == old(notices) + (if postOk then [] else [RecvError, Disconnected])
    {
      sp := recvBuf.GetUnusedBufs();
      if !postOk {
        notices := notices + [RecvError, Disconnected];
        recvMode := Dead;
        return -1, sp;
      }
      recvMode := Waiting;
      return 0, sp;
    }

    method ExtractPackage() returns (r: int, magic: int, size: int)
      requires Valid()
      ensures match FrontOf(recvBuf.Contents(), recvBuf.size)
              case Incomplete => r == 0
              case Malformed => r == -1
              case Frame(n) => r == 1 && size == n
      ensures var s := recvBuf.Contents();
        if |s| <= HEADER then r == 0
        else if MagicOf(s) != MAGIC || SizeOf(s) < 1 || recvBuf.size <= SizeOf(s) then r == -1
        else if |s| < HEADER + SizeOf(s) then r == 0
        else r == 1 && size == SizeOf(s) && IsFrame(s[..HEADER + size], s[HEADER..HEADER + size])
      ensures Valid() && RecvView() == old(RecvView()) && SendView() == old(SendView())
    {
      magic, size := 0, 0;
      var len := recvBuf.Length();
      var recved := len - HEADER;
      if recved <= 0 {
        return 0, 0, 0;
      }
      FrontSound(recvBuf.Contents(), recvBuf.size);
      var h := new Byte[8];
      recvBuf.SafeCopy(h, HEADER);
      ghost var s := recvBuf.Contents();
      assert h[..][..HEADER] == h[..HEADER] == s[..HEADER];
      SameHeader(h[..], s);
      magic, size := MagicOf(h[..]), SizeOf(h[..]);
      if magic != MAGIC {
        return -1, magic, size;
      }
      if size <= 0 || size >= recvBuf.size {
        return -1, magic, size;
      }
      if size > recved {
        return 0, magic, size;
      }
      return 1, magic, size;
    }

    /** A malformed header is at the front. */
    method ReportFault(ghost postOk: bool)
      requires Valid() && FrontOf(recvBuf.Contents(), recvBuf.size).Malformed?
      modifies `recvMode, `log, `notices
      ensures Valid() && RecvView() == Examine(old(RecvView()), recvBuf.size, postOk)
      ensures SendView() == old(SendView())
      ensures Reported(old(recvBuf.Contents()), old(notices), ioRecvLen, old(ioRecvBuf[..]), postOk)
      ensures notices == old(notices) + [ProtocolFault] && recvMode == Idle && log == old(log) + [ProtocolError]
    {
      notices := notices + [ProtocolFault];
      recvMode, log := Idle, log + [ProtocolError];
    }

    /** Nothing complete is at the front yet. */
    method WaitForMore(postOk: bool)
      requires Valid() && FrontOf(recvBuf.Contents(), recvBuf.size).Incomplete?
      modifies `recvMode, `notices
      ensures Valid() && RecvView() == Examine(old(RecvView()), recvBuf.size, postOk)
      ensures SendView() == old(SendView())
      ensures Reported(old(recvBuf.Contents()), old(notices), ioRecvLen, old(ioRecvBuf[..]), postOk)
      ensures recvMode == if postOk then Waiting else Dead
      ensures notices == old(notices) + if postOk then [] else [RecvError, Disconnected]
    {
      var _, sp := Receive(postOk);
    }

    /** Answers the call in hand from the ring, if it can. */
    method ExamineRing(postOk: bool) returns (r: int)
      requires Valid()
      modifies this, recvBuf, ioRecvBuf
      ensures Valid() && ioRecvBuf == old(ioRecvBuf)
      ensures RecvView() == Examine(old(RecvView()), recvBuf.size, postOk)
      ensures SendView() == old(SendView())
      ensures Reported(old(recvBuf.Contents()), old(notices), ioRecvLen, old(ioRecvBuf[..]), postOk)
      ensures r == RecvResult(old(recvBuf.Contents()), recvBuf.size, ioRecvLen)
      ensures var s := old(recvBuf.Contents());
        && (r == -1 <==> |s| > HEADER && !(MagicOf(s) == MAGIC && 1 <= SizeOf(s) < recvBuf.size))
        && (r == 1 <==>
              |s| > HEADER && MagicOf(s) == MAGIC && 1 <= SizeOf(s) < recvBuf.size
              && HEADER + SizeOf(s) <= |s| && SizeOf(s) <= ioRecvLen)
        && (r == 0 || r == 1 || r == -1)
    {
      FrontSound(recvBuf.Contents(), recvBuf.size);
      var e, magic, size := ExtractPackage();
      packSize := size;
      if e == -1 {
        ReportFault(postOk);
        return -1;
      }
      if e == 0 {
        WaitForMore(postOk);
        return 0;
      }
      r := AnswerPackage(postOk);
    }

    /** A complete package is at the front: hand it out, or say how large it is. */
    method AnswerPackage(ghost postOk: bool) returns (r: int)
      requires Valid() && FrontOf(recvBuf.Contents(), recvBuf.size) == Frame(packSize)
      modifies `recvMode, `log, `notices, recvBuf, ioRecvBuf
      ensures Valid()
      ensures RecvView() == Examine(old(RecvView()), recvBuf.size, postOk)
      ensures SendView() == old(SendView())
      ensures notices == old(notices) + [if packSize > ioRecvLen then RecvFailed else RecvFinished]
      ensures recvMode == Idle
      ensures if packSize > ioRecvLen
        then
          && r == 0 && log == old(log) + [Failed(packSize)]
          && recvBuf.Contents() == old(recvBuf.Contents()) && ioRecvBuf[..] == old(ioRecvBuf[..])
        else
          && r == 1 && log == old(log) + [Finished(old(recvBuf.Contents())[HEADER..HEADER + packSize])]
          && ioRecvBuf[..] == old(recvBuf.Contents()[HEADER..HEADER + packSize]) + old(ioRecvBuf[packSize..])
          && recvBuf.Contents() == old(recvBuf.Contents())[HEADER + packSize..]
      ensures Reported(old(recvBuf.Contents()), old(notices), ioRecvLen, old(ioRecvBuf[..]), postOk)
    {
      if packSize > ioRecvLen {
        notices := notices + [RecvFailed];
        recvMode, log := Idle, log + [Failed(packSize)];
        return 0;
      }
      TakePackage();
      notices := notices + [RecvFinished];
      return 1;
    }

    /** Moves a complete package from the ring to the user's buffer. */
    method TakePackage()
      requires Valid() && FrontOf(recvBuf.Contents(), recvBuf.size) == Frame(packSize) && packSize <= ioRecvLen
      modifies `recvMode, `log, recvBuf, ioRecvBuf
      ensures Valid()
      ensures RecvView() == Examine(old(RecvView()), recvBuf.size, true)
      ensures SendView() == old(SendView())
      ensures ioRecvBuf[..] == old(recvBuf.Contents()[HEADER..HEADER + packSize]) + old(ioRecvBuf[packSize..])
      ensures recvMode == Idle && recvBuf.Contents() == old(recvBuf.Contents())[HEADER + packSize..]
      ensures log == old(log) + [Finished(old(recvBuf.Contents())[HEADER..HEADER + packSize])]
    {
      ghost var ring := recvBuf.Contents();
      TakeFrame(recvBuf, packSize, ioRecvBuf);
      recvMode, log := Idle, log + [Finished(ring[HEADER..HEADER + packSize])];
    }

    /** Takes in `trans` bytes that lie past the trail, then looks at the ring. */
    method RecvPackage(trans: int, postOk: bool) returns (r: int)
      requires Valid() && 0 <= trans <= recvBuf.size - recvBuf.Used()
      modifies this, recvBuf, ioRecvBuf
      ensures Valid() && ioRecvBuf == old(ioRecvBuf)
      ensures SendView() == old(SendView())
      ensures var ring := Absorb(old(recvBuf.Contents()), old(recvBuf.Ahead(trans)), recvBuf.size);
        && RecvView() == Examine(old(RecvView()).(ring := ring), recvBuf.size, postOk)
        && Reported(ring, old(notices), ioRecvLen, old(ioRecvBuf[..]), postOk)
        && r == RecvResult(ring, recvBuf.size, ioRecvLen)
    {
      recvBuf.TrailMove(trans);
      r := ExamineRing(postOk);
    }

    method Recv(data: array<Byte>, len: int, postOk: bool) returns (r: int)
      requires Valid() && recvMode.Idle?
      requires data != recvBuf.buf && data != sendBuf.buf && len <= data.Length
      modifies this, recvBuf, data
      ensures Valid() && ioRecvBuf == data
      ensures RecvView() == Step(old(RecvView()), Call(len, postOk), recvBuf.size)
      ensures SendView() == old(SendView())
      ensures Reported(old(recvBuf.Contents()), old(notices), len, old(data[..]), postOk)
      ensures r == RecvResult(old(recvBuf.Contents()), recvBuf.size, len)
    {
      ioRecvBuf, ioRecvLen := data, len;
      assert recvBuf.Contents() + recvBuf.Ahead(0) == recvBuf.Contents();
      r := RecvPackage(0, postOk);
    }

    // ---- completions ----

    /** The entry point of the worker threads. For a receive the kernel has already
        put `trans` bytes past the trail. */
    method ProcessIocp(trans: int, op: Operation, postOk: bool)
      requires Valid() && 0 <= trans
      requires op.IoSend? ==> sendMode.Waiting? && trans <= |SendView().left|
      requires op.IoRecv? ==> recvMode.Waiting? && trans <= recvBuf.size - recvBuf.Used()
      modifies this, recvBuf, sendBuf, ioRecvBuf
      ensures Valid()
      ensures op.IoSend? ==>
        && RecvView() == old(RecvView())
        && SendView() == SendStep(old(SendView()), if trans == 0 then SendLost else Ack(trans, postOk))
      ensures op.IoRecv? ==>
        && SendView() == old(SendView())
        && RecvView() == Step(old(RecvView()),
             if trans == 0 then Lost else Bytes(old(recvBuf.Ahead(trans)), postOk), recvBuf.size)
        && ioRecvBuf == old(ioRecvBuf)
      ensures op.IoQuit? ==>
        && recvMode == Dead && notices == old(notices) + [Disconnected]
        && SendView() == old(SendView())
        && RecvView() == Step(old(RecvView()), Lost, recvBuf.size)
      ensures trans == 0 && op.IoSend? ==> sendMode == Dead && notices == old(notices) + [SendError, Disconnected]
      ensures trans == 0 && op.IoRecv? ==> recvMode == Dead && notices == old(notices) + [RecvError, Disconnected]
      ensures trans != 0 && op.IoSend? ==>
        notices == old(notices) + AckNotices(trans == |old(SendView()).left|, postOk)
      ensures trans != 0 && op.IoRecv? ==>
        Reported(Absorb(old(recvBuf.Contents()), old(recvBuf.Ahead(trans)), recvBuf.size),
                 old(notices), ioRecvLen, old(ioRecvBuf[..]), postOk)
      ensures !(op.IoRecv? && trans != 0) ==> ioRecvBuf[..] == old(ioRecvBuf[..])
    {
      match op
      case IoSend =>
        if trans == 0 {
          notices, sendMode := notices + [SendError, Disconnected], Dead;
        } else {
          var _ := SendPackage(trans, postOk);
        }
      case IoRecv =>
        if trans == 0 {
          notices, recvMode := notices + [RecvError, Disconnected], Dead;
        } else {
          var _ := RecvPackage(trans, postOk);
        }
      case IoQuit =>
        notices, recvMode := notices + [Disconnected], Dead;
    }
  }
}
