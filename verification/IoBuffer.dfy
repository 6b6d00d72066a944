/** The circular byte buffer of inc/sglib/iocp/iocp_buffer.h. */
module IoBuffer {

  type Byte = b: int | 0 <= b < 256

  /** The index `i` brought back into a buffer of `n` bytes after at most one lap. */
  function Wrap(i: int, n: int): int {
    if i < n then i else i - n
  }

  /** The `n` elements found from index `start` on, going round the end of `b`. */
  function Window<T>(b: seq<T>, start: int, n: int): (w: seq<T>)
    requires 0 <= start < |b| && 0 <= n <= |b|
    ensures |w| == n
    ensures forall i :: 0 <= i < n ==> w[i] == b[Wrap(start + i, |b|)]
  {
    seq(n, i requires 0 <= i < n => b[Wrap(start + i, |b|)])
  }

  lemma WindowTail<T>(b: seq<T>, start: int, n: int)
    requires 0 <= start < |b| && 0 < n <= |b|
    ensures Window(b, start, n) == [b[start]] + Window(b, Wrap(start + 1, |b|), n - 1)
  {
  }

  /** Quotient and remainder are the only ones there are. */
  lemma ModUnique(i: int, n: int, q: int, r: int)
    requires i == q * n + r && 0 <= r < n
    ensures i % n == r
  {
    var p := i / n;
    assert i == p * n + i % n;
    if p < q { MulMono(p + 1, q, n); }
    if p > q { MulMono(q + 1, p, n); }
  }

  lemma MulMono(a: int, b: int, n: int)
    requires a <= b && 0 <= n
    ensures a * n <= b * n
  {
  }

  lemma ModIsWrap(i: int, n: int)
    requires 0 <= i < 2 * n
    ensures i % n == Wrap(i, n)
  {
    ModUnique(i, n, if i < n then 0 else 1, Wrap(i, n));
  }

  /** The two stretches of the array handed out by one call: `len1` bytes from
      `start1`, then `len2` bytes from `start2`. */
  datatype Spans = Spans(start1: int, len1: int, start2: int, len2: int) {
    function Total(): int { len1 + len2 }

    function At(j: int): int {
      if j < len1 then start1 + j else start2 + j - len1
    }

    /** The spans walk the array from `start`, in ring order, for `n` bytes. */
    ghost predicate Walks(start: int, n: int, size: int) {
      && 0 <= len1 && 0 <= len2
      && Total() == n
      && forall j :: 0 <= j < n ==> At(j) == Wrap(start + j, size)
    }

    ghost predicate Covers(i: int) {
      exists j :: 0 <= j < Total() && At(j) == i
    }
  }

  class IoBuf {
    const buf: array<Byte>
    const size: int
    var head: int
    var trail: int

    ghost predicate Valid()
      reads this
    {
      0 < size == buf.Length <= 0x7fff_ffff && 0 <= head < size && 0 <= trail < size
    }

    /** How many bytes are in use; `head == trail` always means none. */
    ghost function Used(): int
      reads this
    {
      if trail >= head then trail - head else trail - head + size
    }

    ghost function Contents(): seq<Byte>
      requires Valid()
      reads this, buf
    {
      Window(buf[..], head, Used())
    }

    /** The `k` array bytes lying just past the trail. */
    ghost function Ahead(k: int): seq<Byte>
      requires Valid() && 0 <= k <= size
      reads this, buf
    {
      Window(buf[..], trail, k)
    }

    constructor (n: int)
      requires 0 < n <= 0x7fff_ffff
      ensures Valid() && size == n && fresh(buf)
      ensures head == 0 && trail == 0 && Contents() == []
    {
      buf := new Byte[n];
      size := n;
      head, trail := 0, 0;
    }

    method GetUsedBufs() returns (sp: Spans)
      requires Valid()
      ensures sp.Walks(head, Used(), size)
      ensures 0 < Used() ==> 0 < sp.len1
      ensures sp.start1 == head && (head <= trail ==> sp.len2 == 0)
      ensures head > trail ==> sp.len1 == size - head && sp.start2 == 0
    {
      if trail >= head {
        sp := Spans(head, trail - head, 0, 0);
      } else {
        sp := Spans(head, size - head, 0, trail);
      }
    }

    method GetUnusedBufs() returns (sp: Spans)
      requires Valid()
      ensures sp.Walks(trail, size - Used(), size)
      ensures 0 < sp.len1
    {
      if trail < head {
        sp := Spans(trail, head - trail, 0, 0);
      } else {
        sp := Spans(trail, size - trail, 0, head);
      }
    }

    /** The kernel's part of a receive: it fills the spans handed out, in order. */
    method KernelFill(sp: Spans, bytes: seq<Byte>)
      requires Valid() && sp.Walks(trail, size - Used(), size)
      requires |bytes| <= sp.Total()
      modifies buf
      ensures Contents() == old(Contents()) && Ahead(|bytes|) == bytes
    {
      assert forall j :: 0 <= j < |bytes| ==> sp.At(j) == Wrap(trail + j, size);
      forall j | 0 <= j < |bytes| {
        buf[sp.At(j)] := bytes[j];
      }
      forall j | 0 <= j < |bytes|
        ensures Ahead(|bytes|)[j] == bytes[j]
      {
        assert sp.At(j) == Wrap(trail + j, size);
      }
      forall j | 0 <= j < Used()
        ensures Contents()[j] == old(Contents())[j]
      {
        assert forall k :: 0 <= k < |bytes| ==> sp.At(k) != Wrap(head + j, size);
      }
    }

    method HeadMove(step: int)
      requires Valid() && 0 <= step <= size
      modifies `head
      ensures Valid()
      ensures step <= old(Used()) ==> Contents() == old(Contents())[step..]
      ensures step <= old(Used()) && old(head <= trail) ==> head == old(head) + step
    {
      head := head + step;
      if head >= size {
        head := head - size;
      }
      if step <= old(Used()) {
        assert forall j :: 0 <= j < Used() ==> Contents()[j] == old(Contents())[step..][j];
      }
    }

    /** Appends the bytes already lying past the trail; this is right exactly
        when it does not fill the buffer. */
    method TrailMove(step: int)
      requires Valid() && 0 <= step <= size - Used()
      modifies `trail
      ensures Valid()
      ensures old(Used()) + step < size ==> Contents() == old(Contents() + Ahead(step))
      ensures old(Used()) + step == size ==> Contents() == []
      ensures old(trail) + step < size ==> trail == old(trail) + step
    {
      trail := trail + step;
      if trail >= size {
        trail := trail - size;
      }
      if old(Used()) + step < size {
        assert forall j :: 0 <= j < Used() ==> Contents()[j] == old(Contents() + Ahead(step))[j];
      }
    }

    method Length() returns (len: int)
      requires Valid()
      ensures len == Used() == |Contents()| < size
    {
      len := trail - head;
      if len < 0 {
        len := len + size;
      }
    }

    method DetectAdd(addlen: int) returns (fits: bool)
      requires Valid()
      ensures fits <==> trail + addlen < size
    {
      if trail + addlen >= size {
        return false;
      }
      return true;
    }

    method SafeCopy(dst: array<Byte>, n: int)
      requires Valid() && 0 <= n <= size && n <= dst.Length && dst != buf
      modifies dst
      ensures dst[..n] == Window(buf[..], head, n)
      ensures n <= Used() ==> dst[..n] == Contents()[..n]
      ensures dst[n..] == old(dst[n..])
    {
      if head + n <= size {
        Memcpy(dst, 0, buf, head, n);
        return;
      }
      var base := head;
      for i := 0 to n
        invariant forall j :: 0 <= j < i ==> dst[j] == buf[Wrap(head + j, size)]
        invariant forall j :: i <= j < dst.Length ==> dst[j] == old(dst[j])
      {
        ModIsWrap(base + i, size);
        var idx := (base + i) % size;
        dst[i] := buf[idx];
      }
    }

    method FastCopy(dst: array<Byte>, n: int)
      requires Valid() && 0 < n <= Used() && n <= dst.Length && dst != buf
      modifies dst
      ensures dst[..n] == Contents()[..n]
      ensures dst[n..] == old(dst[n..])
    {
      var sp := GetUsedBufs();
      var n1 := if n >= sp.len1 then sp.len1 else n;
      var n2 := n - n1;
      Memcpy(dst, 0, buf, sp.start1, n1);
      if n2 != 0 {
        Memcpy(dst, n1, buf, sp.start2, n2);
      }
    }

    method Reset()
      requires 0 < size == buf.Length <= 0x7fff_ffff
      modifies `head, `trail
      ensures Valid() && head == 0 && trail == 0 && Contents() == []
    {
      head, trail := 0, 0;
    }
  }

  method Memcpy(dst: array<Byte>, to: int, src: array<Byte>, from: int, n: int)
    requires dst != src && 0 <= n
    requires 0 <= to <= to + n <= dst.Length && 0 <= from <= from + n <= src.Length
    modifies dst
    ensures forall j :: 0 <= j < dst.Length ==>
      dst[j] == if to <= j < to + n then src[from + j - to] else old(dst[j])
  {
    forall j | to <= j < to + n {
      dst[j] := src[from + j - to];
    }
  }

  /** Every array index lies in the used spans or in the unused ones, never in both. */
  lemma SpansPartition(used: Spans, unused: Spans, b: IoBuf, i: int)
    requires b.Valid() && 0 <= i < b.size
    requires used.Walks(b.head, b.Used(), b.size)
    requires unused.Walks(b.trail, b.size - b.Used(), b.size)
    ensures used.Covers(i) <==> !unused.Covers(i)
  {
    var j := if i >= b.head then i - b.head else i - b.head + b.size;
    assert Wrap(b.head + j, b.size) == i;
    if j < b.Used() {
      assert used.At(j) == i;
    } else {
      assert unused.At(j - b.Used()) == Wrap(b.trail + (j - b.Used()), b.size) == i;
    }
    forall a, c | 0 <= a < b.Used() && 0 <= c < b.size - b.Used()
      ensures used.At(a) != unused.At(c)
    {
      assert used.At(a) == Wrap(b.head + a, b.size) && unused.At(c) == Wrap(b.trail + c, b.size);
    }
  }
}
