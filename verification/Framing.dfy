/** The wire format of session_ioT: `header | content`, one frame after another,
    and the whole-stream parser that says what a series of recv calls must answer. */
module Framing {
  import opened IoBuffer

  const MAGIC := 0xeffe
  const HEADER: int := 8
  const INT_MAX := 0x7fff_ffff

  // ---- header ----

  /** Little-endian value of some bytes. */
  function LeNat(b: seq<Byte>): nat {
    if b == [] then 0 else b[0] + 0x100 * LeNat(b[1..])
  }

  /** The 16-bit field at offset 0, little endian. */
  function MagicOf(h: seq<Byte>): int
    requires |h| >= HEADER
  {
    LeNat(h[0..2])
  }

  /** The signed 32-bit field at offset 4, little endian, two's complement. */
  function SizeOf(h: seq<Byte>): int
    requires |h| >= HEADER
  {
    var u := LeNat(h[4..8]);
    if u > INT_MAX then u - 0x1_0000_0000 else u
  }

  /** The byte at offset `4 + k` of a header that announces `n` bytes. */
  function SizeByte(n: int, k: int): Byte
    requires 0 <= n <= INT_MAX && 0 <= k < 4
  {
    if k == 0 then n % 0x100
    else if k == 1 then n / 0x100 % 0x100
    else if k == 2 then n / 0x1_0000 % 0x100
    else n / 0x100_0000
  }

  lemma LeNatOfTwo(b: seq<Byte>)
    requires |b| == 2
    ensures LeNat(b) == b[0] as int + 0x100 * b[1] as int
  {
    assert LeNat(b[1..][1..]) == 0;
    assert LeNat(b[1..]) == b[1];
  }

  lemma LeNatOfFour(b: seq<Byte>)
    requires |b| == 4
    ensures LeNat(b) == b[0] as int + 0x100 * (b[1] as int + 0x100 * (b[2] as int + 0x100 * b[3] as int))
  {
    assert b[1..][1..] == b[2..];
    LeNatOfTwo(b[2..]);
    assert LeNat(b[1..]) == b[1] + 0x100 * LeNat(b[2..]);
  }

  lemma SizeRoundTrip(h: seq<Byte>, n: int)
    requires |h| >= HEADER && 0 <= n <= INT_MAX
    requires forall k :: 0 <= k < 4 ==> h[4 + k] == SizeByte(n, k)
    ensures SizeOf(h) == n
  {
    var b := h[4..8];
    assert h[4 + 0] == SizeByte(n, 0) && h[4 + 1] == SizeByte(n, 1);
    assert h[4 + 2] == SizeByte(n, 2) && h[4 + 3] == SizeByte(n, 3);
    var n1 := n / 0x100;
    var n2 := n1 / 0x100;
    assert n / 0x1_0000 == n2 && n / 0x100_0000 == n2 / 0x100;
    LeNatOfFour(b);
    assert LeNat(b) == n;
  }

  /** Magic and size depend on the eight header bytes only. */
  lemma SameHeader(s: seq<Byte>, t: seq<Byte>)
    requires |s| >= HEADER && |t| >= HEADER && s[..HEADER] == t[..HEADER]
    ensures MagicOf(s) == MagicOf(t) && SizeOf(s) == SizeOf(t)
  {
    assert s[0..2] == s[..HEADER][0..2] == t[0..2];
    assert s[4..8] == s[..HEADER][4..8] == t[4..8];
  }

  // ---- one frame ----

  /** What the receiver sees at the front of the bytes it holds. */
  datatype Front = Incomplete | Malformed | Frame(size: int)

  /** `cap` is the size of the receive ring. Nothing is looked at before a byte
      of content has arrived. */
  function FrontOf(s: seq<Byte>, cap: int): Front {
    if |s| - HEADER <= 0 then Incomplete
    else if MagicOf(s) != MAGIC then Malformed
    else if SizeOf(s) <= 0 || SizeOf(s) >= cap then Malformed
    else if SizeOf(s) > |s| - HEADER then Incomplete
    else Frame(SizeOf(s))
  }

  /** Bytes that arrive later never change a verdict already reached. */
  lemma FrontStable(s: seq<Byte>, t: seq<Byte>, cap: int)
    requires !FrontOf(s, cap).Incomplete?
    ensures FrontOf(s + t, cap) == FrontOf(s, cap)
    ensures FrontOf(s, cap).Frame? ==>
      (s + t)[HEADER..HEADER + FrontOf(s, cap).size] == s[HEADER..HEADER + FrontOf(s, cap).size]
  {
    assert (s + t)[..HEADER] == s[..HEADER];
    SameHeader(s, s + t);
  }

  /** `f` is a header, padding unspecified, followed by the content `m`. */
  predicate IsFrame(f: seq<Byte>, m: seq<Byte>) {
    && |f| == HEADER + |m|
    && MagicOf(f) == MAGIC
    && SizeOf(f) == |m|
    && f[HEADER..] == m
  }

  /** On any bytes at all: what is taken for a frame is one, and what is refused is
      refused for its magic or for its size. */
  lemma FrontSound(s: seq<Byte>, cap: int)
    ensures FrontOf(s, cap).Frame? ==>
      var n := FrontOf(s, cap).size;
      1 <= n < cap && HEADER + n <= |s| && IsFrame(s[..HEADER + n], s[HEADER..HEADER + n])
    ensures FrontOf(s, cap).Malformed? <==>
      |s| > HEADER && !(MagicOf(s) == MAGIC && 1 <= SizeOf(s) < cap)
    ensures FrontOf(s, cap).Incomplete? <==>
      |s| <= HEADER || (MagicOf(s) == MAGIC && 1 <= SizeOf(s) < cap && |s| < HEADER + SizeOf(s))
  {
    if FrontOf(s, cap).Frame? {
      var f := s[..HEADER + FrontOf(s, cap).size];
      assert f[..HEADER] == s[..HEADER];
      SameHeader(f, s);
    }
  }

  /** A frame for the content, with zeros for padding. */
  function FrameOf(m: seq<Byte>): seq<Byte>
    requires |m| <= INT_MAX
  {
    [MAGIC % 0x100, MAGIC / 0x100, 0, 0,
     SizeByte(|m|, 0), SizeByte(|m|, 1), SizeByte(|m|, 2), SizeByte(|m|, 3)] + m
  }

  lemma FrameOfIsFrame(m: seq<Byte>)
    requires |m| <= INT_MAX
    ensures IsFrame(FrameOf(m), m)
  {
    var f := FrameOf(m);
    LeNatOfTwo(f[0..2]);
    assert forall k :: 0 <= k < 4 ==> f[4 + k] == SizeByte(|m|, k);
    SizeRoundTrip(f, |m|);
  }

  /** A frame can be completed inside the ring, which holds at most `cap - 1` bytes,
      exactly when it has content and is shorter than the ring. A longer one is not
      refused while its size is below the ring's: it only stays incomplete. */
  lemma Completable(f: seq<Byte>, m: seq<Byte>, cap: int)
    requires IsFrame(f, m)
    ensures (exists s: seq<Byte> :: |s| < cap && f[..HEADER] <= s && FrontOf(s, cap) == Frame(|m|))
      <==> 1 <= |m| && |m| + HEADER < cap
    ensures (forall s: seq<Byte> | |s| < cap && f[..HEADER] <= s :: FrontOf(s, cap) == Incomplete)
      <==> cap <= HEADER + 1 || (1 <= |m| && cap - HEADER <= |m| < cap)
  {
    if 1 <= |m| && |m| + HEADER < cap {
      assert f[..HEADER] <= f && FrontOf(f, cap) == Frame(|m|);
    }
    forall s: seq<Byte> | |s| < cap && f[..HEADER] <= s && FrontOf(s, cap) == Frame(|m|)
      ensures 1 <= |m| && |m| + HEADER < cap
    {
      SameHeader(s, f);
    }
    forall s: seq<Byte> | |s| < cap && f[..HEADER] <= s
      ensures FrontOf(s, cap) == Incomplete <==>
        |s| == HEADER || (1 <= |m| < cap && |s| < |m| + HEADER)
    {
      SameHeader(s, f);
    }
    if HEADER + 1 < cap && (|m| == 0 || cap <= |m|) {
      var s := f[..HEADER] + [0];
      assert |s| < cap && f[..HEADER] <= s && FrontOf(s, cap) != Incomplete;
    }
  }

  // ---- a stream of frames ----

  predicate IsStream(s: seq<Byte>, msgs: seq<seq<Byte>>)
    decreases |msgs|
  {
    if msgs == [] then s == []
    else
      var l := HEADER + |msgs[0]|;
      l <= |s| && IsFrame(s[..l], msgs[0]) && IsStream(s[l..], msgs[1..])
  }

  lemma {:induction false} StreamConcat(s: seq<Byte>, ms: seq<seq<Byte>>, t: seq<Byte>, ns: seq<seq<Byte>>)
    requires IsStream(s, ms) && IsStream(t, ns)
    ensures IsStream(s + t, ms + ns)
    decreases |ms|
  {
    if ms == [] {
      assert s + t == t && ms + ns == ns;
    } else {
      var l := HEADER + |ms[0]|;
      StreamConcat(s[l..], ms[1..], t, ns);
      assert (s + t)[..l] == s[..l] && (s + t)[l..] == s[l..] + t;
      assert (ms + ns)[1..] == ms[1..] + ns;
    }
  }

  lemma StreamOfOne(f: seq<Byte>, m: seq<Byte>)
    requires IsFrame(f, m)
    ensures IsStream(f, [m])
  {
    assert f[..HEADER + |m|] == f && f[HEADER + |m|..] == [];
    assert [m][1..] == [];
  }

  lemma StreamAppend(s: seq<Byte>, ms: seq<seq<Byte>>, f: seq<Byte>, m: seq<Byte>)
    requires IsStream(s, ms) && IsFrame(f, m)
    ensures IsStream(s + f, ms + [m])
  {
    StreamOfOne(f, m);
    StreamConcat(s, ms, f, [m]);
  }

  /** What a send buffer of `sendCap` bytes can hold, ready to be posted. */
  predicate IsBatch(s: seq<Byte>, msgs: seq<seq<Byte>>, sendCap: int) {
    IsStream(s, msgs) && |s| < sendCap
  }

  /** Every message can pass through a ring of `cap` bytes. */
  predicate Passable(msgs: seq<seq<Byte>>, cap: int) {
    forall i :: 0 <= i < |msgs| ==> 1 <= |msgs[i]| && |msgs[i]| + HEADER < cap
  }

  // ---- the whole-stream parser ----

  datatype Outcome = Finished(content: seq<Byte>) | Failed(needed: int) | ProtocolError

  /** The answer to one call, with the bytes it leaves; or it has to wait. */
  datatype Reply = Wait | Says(outcome: Outcome, rest: seq<Byte>)

  function ReplyTo(s: seq<Byte>, u: int, cap: int): Reply {
    match FrontOf(s, cap)
    case Incomplete => Wait
    case Malformed => Says(ProtocolError, s)
    case Frame(n) => if n > u then Says(Failed(n), s) else Says(Finished(s[HEADER..HEADER + n]), s[HEADER + n..])
  }

  /** One call on any bytes: a message handed out is the content of a frame at the
      front that fits the buffer, a size reported is that of a frame that does not,
      and only the frame handed out is consumed. */
  lemma ReplySound(s: seq<Byte>, u: int, cap: int)
    ensures match ReplyTo(s, u, cap)
      case Wait => |s| <= HEADER || (MagicOf(s) == MAGIC && 1 <= SizeOf(s) < cap && |s| < HEADER + SizeOf(s))
      case Says(ProtocolError, rest) => rest == s && |s| > HEADER && !(MagicOf(s) == MAGIC && 1 <= SizeOf(s) < cap)
      case Says(Failed(n), rest) =>
        rest == s && u < n < cap && 1 <= n && HEADER + n <= |s| && IsFrame(s[..HEADER + n], s[HEADER..HEADER + n])
      case Says(Finished(m), rest) =>
        && 1 <= |m| <= u && |m| < cap && HEADER + |m| <= |s|
        && IsFrame(s[..HEADER + |m|], m) && s == s[..HEADER + |m|] + rest
  {
    FrontSound(s, cap);
  }

  /** What `recv` calls with user buffers of lengths `lens`, made one after the
      other, answer on the byte stream `s`. The list stops at the first call
      that has to wait for more bytes. */
  function ParseStream(s: seq<Byte>, lens: seq<int>, cap: int): seq<Outcome>
    decreases |lens|
  {
    if lens == [] then []
    else match ReplyTo(s, lens[0], cap)
      case Wait => []
      case Says(o, rest) => [o] + ParseStream(rest, lens[1..], cap)
  }

  /** The bytes left over once those calls have been answered. */
  function Rest(s: seq<Byte>, lens: seq<int>, cap: int): seq<Byte>
    decreases |lens|
  {
    if lens == [] then s
    else match ReplyTo(s, lens[0], cap)
      case Wait => s
      case Says(_, rest) => Rest(rest, lens[1..], cap)
  }

  /** One more call: it is answered from the leftover bytes. */
  lemma {:induction false} ParseOneMore(s: seq<Byte>, lens: seq<int>, u: int, cap: int)
    requires |ParseStream(s, lens, cap)| == |lens|
    ensures ParseStream(s, lens + [u], cap) ==
      ParseStream(s, lens, cap) + ParseStream(Rest(s, lens, cap), [u], cap)
    ensures Rest(s, lens + [u], cap) == Rest(Rest(s, lens, cap), [u], cap)
    decreases |lens|
  {
    if lens == [] {
      assert lens + [u] == [u];
    } else {
      var r := ReplyTo(s, lens[0], cap);
      assert (lens + [u])[1..] == lens[1..] + [u] && (lens + [u])[0] == lens[0];
      ParseOneMore(r.rest, lens[1..], u, cap);
    }
  }

  lemma ReplyStable(s: seq<Byte>, t: seq<Byte>, u: int, cap: int)
    requires ReplyTo(s, u, cap).Says?
    ensures ReplyTo(s + t, u, cap) == Says(ReplyTo(s, u, cap).outcome, ReplyTo(s, u, cap).rest + t)
  {
    FrontStable(s, t, cap);
    if FrontOf(s, cap).Frame? {
      var l := HEADER + FrontOf(s, cap).size;
      assert (s + t)[l..] == s[l..] + t;
    }
  }

  /** More bytes: the answers given stand, and the bytes go to the leftover. */
  lemma {:induction false} ParseMoreBytes(s: seq<Byte>, t: seq<Byte>, lens: seq<int>, cap: int)
    requires |ParseStream(s, lens, cap)| == |lens|
    ensures ParseStream(s + t, lens, cap) == ParseStream(s, lens, cap)
    ensures Rest(s + t, lens, cap) == Rest(s, lens, cap) + t
    decreases |lens|
  {
    if lens == [] {
    } else {
      ReplyStable(s, t, lens[0], cap);
      ParseMoreBytes(ReplyTo(s, lens[0], cap).rest, t, lens[1..], cap);
    }
  }

  // ---- round trip ----

  /** The contents reported by recv_finished, in order. */
  function Delivered(log: seq<Outcome>): seq<seq<Byte>>
  {
    if log == [] then []
    else (if log[0].Finished? then [log[0].content] else []) + Delivered(log[1..])
  }

  lemma {:induction false} DeliveredConcat(a: seq<Outcome>, b: seq<Outcome>)
    ensures Delivered(a + b) == Delivered(a) + Delivered(b)
  {
    if a == [] {
      assert a + b == b;
    } else {
      DeliveredConcat(a[1..], b);
      assert (a + b)[0] == a[0] && (a + b)[1..] == a[1..] + b;
      var h := if a[0].Finished? then [a[0].content] else [];
      assert h + (Delivered(a[1..]) + Delivered(b)) == h + Delivered(a[1..]) + Delivered(b);
    }
  }

  lemma DeliveredCons(o: Outcome, r: seq<Outcome>)
    ensures Delivered([o] + r) == if o.Finished? then [o.content] + Delivered(r) else Delivered(r)
  {
    assert ([o] + r)[1..] == r && [] + Delivered(r) == Delivered(r);
  }

  predicate Large(u: int, msgs: seq<seq<Byte>>) {
    forall i :: 0 <= i < |msgs| ==> |msgs[i]| <= u
  }

  /** How many of the calls bring a buffer that holds every message. */
  function LargeCalls(lens: seq<int>, msgs: seq<seq<Byte>>): nat {
    if lens == [] then 0
    else (if Large(lens[0], msgs) then 1 else 0) + LargeCalls(lens[1..], msgs)
  }

  lemma {:induction false} FewerMessagesMoreLarge(lens: seq<int>, msgs: seq<seq<Byte>>)
    requires msgs != []
    ensures LargeCalls(lens, msgs) <= LargeCalls(lens, msgs[1..])
  {
    if lens == [] {
    } else {
      FewerMessagesMoreLarge(lens[1..], msgs);
    }
  }

  /** Enough large calls stay enough after the first one has been used. */
  lemma CallsLeft(lens: seq<int>, msgs: seq<seq<Byte>>)
    requires msgs != [] && LargeCalls(lens, msgs) >= |msgs|
    ensures lens != []
    ensures if |msgs[0]| > lens[0] then LargeCalls(lens[1..], msgs) >= |msgs|
            else LargeCalls(lens[1..], msgs[1..]) >= |msgs| - 1
  {
    if |msgs[0]| > lens[0] {
      assert !Large(lens[0], msgs);
    } else {
      FewerMessagesMoreLarge(lens[1..], msgs);
    }
  }

  lemma FrontOfPrefix(s: seq<Byte>, p: seq<Byte>, msgs: seq<seq<Byte>>, cap: int)
    requires IsStream(s, msgs) && Passable(msgs, cap) && p <= s
    ensures !FrontOf(p, cap).Malformed?
    ensures FrontOf(p, cap).Frame? ==>
      && msgs != []
      && FrontOf(p, cap).size == |msgs[0]|
      && p[HEADER..HEADER + |msgs[0]|] == msgs[0]
      && p[HEADER + |msgs[0]|..] <= s[HEADER + |msgs[0]|..]
      && IsStream(s[HEADER + |msgs[0]|..], msgs[1..])
    ensures msgs != [] && HEADER + |msgs[0]| <= |p| ==> FrontOf(p, cap).Frame?
  {
    if msgs != [] {
      var l := HEADER + |msgs[0]|;
      assert s[..l][..HEADER] == s[..HEADER];
      SameHeader(s[..l], s);
      if |p| > HEADER {
        assert p[..HEADER] == s[..HEADER];
        SameHeader(p, s);
        if FrontOf(p, cap).Frame? {
          assert p[HEADER..l] == s[..l][HEADER..];
        }
      }
    }
  }

  /** On a prefix of a stream of messages a call waits, asks for the first message's
      size, or gets that message and leaves a prefix of the rest. */
  lemma ReplyOnPrefix(s: seq<Byte>, p: seq<Byte>, msgs: seq<seq<Byte>>, u: int, cap: int)
    requires IsStream(s, msgs) && Passable(msgs, cap) && p <= s && ReplyTo(p, u, cap).Says?
    ensures msgs != []
    ensures var l := HEADER + |msgs[0]|;
      if |msgs[0]| > u then ReplyTo(p, u, cap) == Says(Failed(|msgs[0]|), p)
      else
        && l <= |p| && ReplyTo(p, u, cap) == Says(Finished(msgs[0]), p[l..])
        && p[l..] <= s[l..] && IsStream(s[l..], msgs[1..])
  {
    FrontOfPrefix(s, p, msgs, cap);
  }

  /** Whatever prefix of the stream has arrived and whatever buffers the user
      brings, only sent messages come out, in order and none skipped. */
  lemma {:induction false} ParsePrefix(s: seq<Byte>, p: seq<Byte>, msgs: seq<seq<Byte>>, lens: seq<int>, cap: int)
    requires IsStream(s, msgs) && Passable(msgs, cap) && p <= s
    ensures Delivered(ParseStream(p, lens, cap)) <= msgs
    ensures ProtocolError !in ParseStream(p, lens, cap)
    decreases |lens|
  {
    if lens == [] || ReplyTo(p, lens[0], cap).Wait? {
    } else {
      ReplyOnPrefix(s, p, msgs, lens[0], cap);
      var o, rest := ReplyTo(p, lens[0], cap).outcome, ReplyTo(p, lens[0], cap).rest;
      DeliveredCons(o, ParseStream(rest, lens[1..], cap));
      if o.Finished? {
        ParsePrefix(s[HEADER + |msgs[0]|..], rest, msgs[1..], lens[1..], cap);
        assert msgs == [msgs[0]] + msgs[1..];
      } else {
        ParsePrefix(s, rest, msgs, lens[1..], cap);
      }
    }
  }

  /** `rest`, the end of the prefix `p` of `s`, starts where the frame of message `d` does. */
  predicate Aligned(s: seq<Byte>, p: seq<Byte>, msgs: seq<seq<Byte>>, rest: seq<Byte>, d: nat)
    requires p <= s
  {
    && |rest| <= |p| && rest == p[|p| - |rest|..]
    && d <= |msgs| && IsStream(s[|p| - |rest|..], msgs[d..])
  }

  lemma AlignedLater(s: seq<Byte>, p: seq<Byte>, msgs: seq<seq<Byte>>, l: nat, rest: seq<Byte>, d: nat)
    requires p <= s && l <= |p| && msgs != [] && p[l..] <= s[l..]
    requires Aligned(s[l..], p[l..], msgs[1..], rest, d)
    ensures Aligned(s, p, msgs, rest, 1 + d)
  {
    var n := |p| - |rest|;
    assert p[l..][n - l..] == p[n..] && s[l..][n - l..] == s[n..] && msgs[1..][d..] == msgs[1 + d..];
  }

  /** The leftover always starts where a frame starts: what is still to come carries
      exactly the messages not yet delivered. */
  lemma {:induction false} RestAligned(s: seq<Byte>, p: seq<Byte>, msgs: seq<seq<Byte>>, lens: seq<int>, cap: int)
    requires IsStream(s, msgs) && Passable(msgs, cap) && p <= s
    ensures Aligned(s, p, msgs, Rest(p, lens, cap), |Delivered(ParseStream(p, lens, cap))|)
    decreases |lens|
  {
    if lens == [] || ReplyTo(p, lens[0], cap).Wait? {
      assert p[0..] == p && s[0..] == s && msgs[0..] == msgs;
    } else {
      ReplyOnPrefix(s, p, msgs, lens[0], cap);
      var o, rest := ReplyTo(p, lens[0], cap).outcome, ReplyTo(p, lens[0], cap).rest;
      var later := ParseStream(rest, lens[1..], cap);
      DeliveredCons(o, later);
      assert Rest(p, lens, cap) == Rest(rest, lens[1..], cap) && ParseStream(p, lens, cap) == [o] + later;
      if o.Finished? {
        var l := HEADER + |msgs[0]|;
        assert rest == p[l..];
        RestAligned(s[l..], rest, msgs[1..], lens[1..], cap);
        AlignedLater(s, p, msgs, l, Rest(rest, lens[1..], cap), |Delivered(later)|);
      } else {
        assert rest == p && |Delivered([o] + later)| == |Delivered(later)|;
        RestAligned(s, rest, msgs, lens[1..], cap);
      }
    }
  }

  /** Once the whole stream has arrived, enough calls with large enough buffers
      get every message; the small ones in between do no harm. */
  lemma {:induction false} ParseAll(s: seq<Byte>, msgs: seq<seq<Byte>>, lens: seq<int>, cap: int)
    requires IsStream(s, msgs) && Passable(msgs, cap)
    requires LargeCalls(lens, msgs) >= |msgs|
    ensures Delivered(ParseStream(s, lens, cap)) == msgs
    decreases |lens|
  {
    if msgs == [] {
      ParsePrefix(s, s, msgs, lens, cap);
    } else {
      CallsLeft(lens, msgs);
      FrontOfPrefix(s, s, msgs, cap);
      ReplyOnPrefix(s, s, msgs, lens[0], cap);
      var o, rest := ReplyTo(s, lens[0], cap).outcome, ReplyTo(s, lens[0], cap).rest;
      DeliveredCons(o, ParseStream(rest, lens[1..], cap));
      if o.Finished? {
        ParseAll(rest, msgs[1..], lens[1..], cap);
        assert msgs == [msgs[0]] + msgs[1..];
      } else {
        ParseAll(rest, msgs, lens[1..], cap);
      }
    }
  }

  // ---- byte accounting ----

  function FrameBytes(msgs: seq<seq<Byte>>): nat {
    if msgs == [] then 0 else HEADER + |msgs[0]| + FrameBytes(msgs[1..])
  }

  lemma {:induction false} FrameBytesAppend(msgs: seq<seq<Byte>>, m: seq<Byte>)
    ensures FrameBytes(msgs + [m]) == FrameBytes(msgs) + HEADER + |m|
  {
    if msgs == [] {
      assert ([m])[1..] == [] && [] + [m] == [m];
    } else {
      FrameBytesAppend(msgs[1..], m);
      assert (msgs + [m])[1..] == msgs[1..] + [m];
    }
  }

  lemma {:induction false} StreamLength(s: seq<Byte>, msgs: seq<seq<Byte>>)
    requires IsStream(s, msgs)
    ensures |s| == FrameBytes(msgs)
    decreases |msgs|
  {
    if msgs == [] {
    } else {
      StreamLength(s[HEADER + |msgs[0]|..], msgs[1..]);
    }
  }

  /** No byte is lost or used twice: on any bytes at all, the delivered frames
      and the leftover make up what arrived. */
  lemma {:induction false} ParseConserves(s: seq<Byte>, lens: seq<int>, cap: int)
    ensures FrameBytes(Delivered(ParseStream(s, lens, cap))) + |Rest(s, lens, cap)| == |s|
    decreases |lens|
  {
    if lens == [] || ReplyTo(s, lens[0], cap).Wait? {
    } else {
      var o, rest := ReplyTo(s, lens[0], cap).outcome, ReplyTo(s, lens[0], cap).rest;
      var r := ParseStream(rest, lens[1..], cap);
      ParseConserves(rest, lens[1..], cap);
      DeliveredCons(o, r);
      if o.Finished? {
        assert ([o.content] + Delivered(r))[1..] == Delivered(r);
      }
    }
  }

  lemma StreamCons(f: seq<Byte>, m: seq<Byte>, s: seq<Byte>, ms: seq<seq<Byte>>)
    requires IsFrame(f, m) && IsStream(s, ms)
    ensures IsStream(f + s, [m] + ms)
  {
    StreamOfOne(f, m);
    StreamConcat(f, [m], s, ms);
  }

  /** On any bytes at all, what has been consumed is exactly the frames of the messages
      delivered, one after the other. */
  lemma {:induction false} ParseSound(s: seq<Byte>, lens: seq<int>, cap: int)
    ensures |Rest(s, lens, cap)| <= |s|
    ensures var t := s[..|s| - |Rest(s, lens, cap)|];
      s == t + Rest(s, lens, cap) && IsStream(t, Delivered(ParseStream(s, lens, cap)))
    decreases |lens|
  {
    if lens == [] || ReplyTo(s, lens[0], cap).Wait? {
      assert s[..0] == [];
    } else {
      ReplySound(s, lens[0], cap);
      var o, rest := ReplyTo(s, lens[0], cap).outcome, ReplyTo(s, lens[0], cap).rest;
      ParseSound(rest, lens[1..], cap);
      DeliveredCons(o, ParseStream(rest, lens[1..], cap));
      var left := Rest(rest, lens[1..], cap);
      if o.Finished? {
        var f, t := s[..HEADER + |o.content|], rest[..|rest| - |left|];
        StreamCons(f, o.content, t, Delivered(ParseStream(rest, lens[1..], cap)));
        TakenCons(s, f, rest, left);
      }
    }
  }

  lemma TakenCons(s: seq<Byte>, f: seq<Byte>, rest: seq<Byte>, left: seq<Byte>)
    requires s == f + rest && |left| <= |rest| && rest == rest[..|rest| - |left|] + left
    ensures s[..|s| - |left|] == f + rest[..|rest| - |left|] && s == s[..|s| - |left|] + left
  {
  }
}
