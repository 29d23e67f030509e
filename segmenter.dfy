/**
 * The frame segmenter of the loopback demo, as values: a buffer of captured bytes is cut
 * into whole segments of a fixed size, taken from the front in order, and the tail that
 * is too short to fill a segment is kept for the next capture event.
 */
module Segmenter {
  import opened Primitives

  /** The bytes of `parts`, one part after the other. */
  function Concat(parts: seq<seq<byte>>): (flat: seq<byte>)
    decreases |parts|
  {
    if parts == [] then [] else parts[0] + Concat(parts[1..])
  }

  lemma {:induction false} ConcatAppend(a: seq<seq<byte>>, b: seq<seq<byte>>)
    ensures Concat(a + b) == Concat(a) + Concat(b)
    decreases |a|
  {
    if a == [] {
      assert a + b == b;
    } else {
      assert (a + b)[1..] == a[1..] + b;
      ConcatAppend(a[1..], b);
    }
  }

  lemma ConcatCons(part: seq<byte>, parts: seq<seq<byte>>)
    ensures Concat([part] + parts) == part + Concat(parts)
  {
    assert ([part] + parts)[1..] == parts;
  }

  /** Quotient and remainder are determined by `n == q * size + r` with `0 <= r < size`. */
  lemma DivModUnique(n: int, size: int, q: int, r: int)
    requires 0 < size && 0 <= r < size && n == q * size + r
    ensures n / size == q && n % size == r
  {
    var q', r' := n / size, n % size;
    assert q' * size + r' == n;
    if q' > q {
      MulAtLeast(q' - q, size);
      assert false;
    } else if q' < q {
      MulAtLeast(q - q', size);
      assert false;
    }
  }

  lemma MulAtLeast(k: int, size: int)
    requires k >= 1 && size > 0
    ensures k * size >= size
  {
    assert k * size == (k - 1) * size + size;
  }

  lemma DivStep(n: nat, size: nat)
    requires 0 < size <= n
    ensures (n - size) / size == n / size - 1
    ensures (n - size) % size == n % size
  {
    var q, r := (n - size) / size, (n - size) % size;
    assert n - size == q * size + r;
    assert n == (q + 1) * size + r;
    DivModUnique(n, size, q + 1, r);
  }

  /** The whole segments of `buffer`, front to back, each `size` bytes long. */
  function Segments(buffer: seq<byte>, size: nat): (segments: seq<seq<byte>>)
    requires size > 0
    ensures forall i :: 0 <= i < |segments| ==> |segments[i]| == size
    decreases |buffer|
  {
    if |buffer| < size then [] else [buffer[..size]] + Segments(buffer[size..], size)
  }

  /** The tail of `buffer` after its last whole segment: shorter than one segment. */
  function Remainder(buffer: seq<byte>, size: nat): (rest: seq<byte>)
    requires size > 0
    ensures |rest| < size
    decreases |buffer|
  {
    if |buffer| < size then buffer else Remainder(buffer[size..], size)
  }

  /**
   * There are `|buffer| / size` whole segments. Integer division here is the floor of a
   * non-negative decimal quotient that Form1.cs computes.
   */
  lemma {:induction false} SegmentsCount(buffer: seq<byte>, size: nat)
    requires size > 0
    ensures |Segments(buffer, size)| == |buffer| / size
    decreases |buffer|
  {
    if |buffer| < size {
      DivModUnique(|buffer|, size, 0, |buffer|);
    } else {
      SegmentsCount(buffer[size..], size);
      DivStep(|buffer|, size);
    }
  }

  /** The remainder holds `|buffer| % size` bytes. */
  lemma {:induction false} RemainderLength(buffer: seq<byte>, size: nat)
    requires size > 0
    ensures |Remainder(buffer, size)| == |buffer| % size
    decreases |buffer|
  {
    if |buffer| < size {
      DivModUnique(|buffer|, size, 0, |buffer|);
    } else {
      RemainderLength(buffer[size..], size);
      DivStep(|buffer|, size);
    }
  }

  /** The remainder starts where the last whole segment ends, `segmentCount * size`. */
  lemma {:induction false} RemainderStartsAtSegmentsEnd(buffer: seq<byte>, size: nat)
    requires size > 0
    ensures 0 <= (|buffer| / size) * size <= |buffer|
    ensures Remainder(buffer, size) == buffer[(|buffer| / size) * size..]
    decreases |buffer|
  {
    var n := |buffer|;
    if n < size {
      DivModUnique(n, size, 0, n);
    } else {
      var tail := buffer[size..];
      RemainderStartsAtSegmentsEnd(tail, size);
      DivStep(n, size);
      var k := (n - size) / size;
      MulSucc(k, size);
      assert (n / size) * size == k * size + size;
      assert tail[k * size..] == buffer[k * size + size..];
    }
  }

  /** Segment `i` is the slice `[i * size, (i + 1) * size)` of the buffer. */
  lemma {:induction false} SegmentAt(buffer: seq<byte>, size: nat, i: nat)
    requires size > 0
    requires i < |buffer| / size
    ensures 0 <= i * size && i * size + size == (i + 1) * size <= |buffer|
    ensures i < |Segments(buffer, size)|
    ensures Segments(buffer, size)[i] == buffer[i * size..(i + 1) * size]
    decreases i
  {
    SegmentsCount(buffer, size);
    MulSucc(i, size);
    var n := |buffer|;
    if n < size {
      DivModUnique(n, size, 0, n);
      assert false;
    }
    DivStep(n, size);
    if i > 0 {
      SegmentInTail(buffer, size, i);
    }
  }

  lemma {:induction false} SegmentInTail(buffer: seq<byte>, size: nat, i: nat)
    requires 0 < size <= |buffer|
    requires 0 < i < |buffer| / size
    requires (|buffer| - size) / size == |buffer| / size - 1
    ensures (i + 1) * size <= |buffer|
    ensures i < |Segments(buffer, size)|
    ensures Segments(buffer, size)[i] == buffer[i * size..(i + 1) * size]
    decreases i, 0
  {
    var tail := buffer[size..];
    SegmentAt(tail, size, i - 1);
    var lo, hi := (i - 1) * size, i * size;
    MulSucc(i - 1, size);
    MulSucc(i, size);
    assert Segments(buffer, size)[i] == Segments(tail, size)[i - 1];
    assert tail[lo..hi] == buffer[lo + size..hi + size];
  }

  lemma MulSucc(i: int, size: int)
    ensures (i + 1) * size == i * size + size
  {
  }

  /** No byte is dropped or duplicated: the segments followed by the remainder are the buffer. */
  lemma {:induction false} SegmentsConserve(buffer: seq<byte>, size: nat)
    requires size > 0
    ensures Concat(Segments(buffer, size)) + Remainder(buffer, size) == buffer
    decreases |buffer|
  {
    if |buffer| < size {
      assert Concat(Segments(buffer, size)) == [];
    } else {
      var head, tail := buffer[..size], buffer[size..];
      assert head + tail == buffer;
      var rest := Segments(tail, size);
      SegmentsConserve(tail, size);
      ConcatCons(head, rest);
      AppendAssociates(head, Concat(rest), Remainder(tail, size));
    }
  }

  lemma AppendAssociates(a: seq<byte>, b: seq<byte>, c: seq<byte>)
    ensures (a + b) + c == a + (b + c)
  {
  }

  /** A buffer shorter than one segment yields no segment and is kept whole. */
  lemma ShortBufferIsKept(buffer: seq<byte>, size: nat)
    requires 0 < size && |buffer| < size
    ensures Segments(buffer, size) == [] && Remainder(buffer, size) == buffer
  {
  }

  /** The segments and the remainder of one capture event. */
  datatype Split = Split(segments: seq<seq<byte>>, remainder: seq<byte>)

  /**
   * One capture event: the previous remainder comes first, then the new chunk, and the
   * result is cut into segments and a new remainder.
   */
  function Cut(previous: seq<byte>, chunk: seq<byte>, size: nat): (split: Split)
    requires size > 0
    ensures |split.remainder| < size
    ensures forall i :: 0 <= i < |split.segments| ==> |split.segments[i]| == size
    ensures Concat(split.segments) + split.remainder == previous + chunk
    ensures chunk == [] && |previous| < size ==> split == Split([], previous)
  {
    var buffer := previous + chunk;
    SegmentsConserve(buffer, size);
    assert chunk == [] ==> buffer == previous;
    Split(Segments(buffer, size), Remainder(buffer, size))
  }

  /** A stream of capture events: every segment emitted, in order, and the final remainder. */
  function Feed(remainder: seq<byte>, chunks: seq<seq<byte>>, size: nat): (out: Split)
    requires size > 0
    ensures chunks == [] ==> out == Split([], remainder)
    ensures chunks != [] ==> |out.remainder| < size
    ensures forall i :: 0 <= i < |out.segments| ==> |out.segments[i]| == size
    decreases |chunks|
  {
    if chunks == [] then Split([], remainder)
    else
      var first := Cut(remainder, chunks[0], size);
      var rest := Feed(first.remainder, chunks[1..], size);
      Split(first.segments + rest.segments, rest.remainder)
  }

  /**
   * Conservation over any sequence of chunks: all segments emitted, followed by the final
   * remainder, are the initial remainder followed by every chunk, in order.
   */
  lemma {:induction false} FeedConserves(remainder: seq<byte>, chunks: seq<seq<byte>>, size: nat)
    requires size > 0
    ensures var out := Feed(remainder, chunks, size);
      Concat(out.segments) + out.remainder == remainder + Concat(chunks)
    decreases |chunks|
  {
    if chunks != [] {
      var first := Cut(remainder, chunks[0], size);
      var rest := Feed(first.remainder, chunks[1..], size);
      FeedConserves(first.remainder, chunks[1..], size);
      ConcatAppend(first.segments, rest.segments);
      Regroup(Concat(first.segments), first.remainder, Concat(rest.segments), rest.remainder,
        remainder, chunks[0], Concat(chunks[1..]));
    }
  }

  lemma Regroup(a: seq<byte>, r1: seq<byte>, b: seq<byte>, r2: seq<byte>, p: seq<byte>, c: seq<byte>, d: seq<byte>)
    requires a + r1 == p + c && b + r2 == r1 + d
    ensures (a + b) + r2 == p + (c + d)
  {
    calc {
      (a + b) + r2;
      a + (b + r2);
      a + (r1 + d);
      (a + r1) + d;
      (p + c) + d;
    }
  }

  /**
   * A 30-byte remainder and a 250-byte chunk with 100-byte segments: two segments are
   * emitted and 80 bytes are kept.
   */
  lemma CutExample(previous: seq<byte>, chunk: seq<byte>)
    requires |previous| == 30 && |chunk| == 250
    ensures var split := Cut(previous, chunk, 100);
      |split.segments| == 2 && split.remainder == chunk[170..]
  {
    var buffer := previous + chunk;
    SegmentsCount(buffer, 100);
    RemainderStartsAtSegmentsEnd(buffer, 100);
    assert buffer[200..] == chunk[170..];
  }

  /**
   * 20 ms of 16-bit mono audio at 48 kHz is 1920 bytes. Chunks of 1000, 500 and 460 bytes
   * emit no segment, no segment, then one segment, leaving 40 bytes.
   */
  lemma StreamExample(c1: seq<byte>, c2: seq<byte>, c3: seq<byte>)
    requires |c1| == 1000 && |c2| == 500 && |c3| == 460
    ensures var first := Cut([], c1, 1920);
      var second := Cut(first.remainder, c2, 1920);
      var third := Cut(second.remainder, c3, 1920);
      && |first.segments| == 0 && |second.segments| == 0 && |third.segments| == 1
      && third.segments[0] == c1 + c2 + c3[..420] && third.remainder == c3[420..]
  {
    assert [] + c1 == c1;
    ShortBufferIsKept(c1, 1920);
    ShortBufferIsKept(c1 + c2, 1920);
    var buffer := c1 + c2 + c3;
    SegmentsCount(buffer, 1920);
    SegmentAt(buffer, 1920, 0);
    RemainderStartsAtSegmentsEnd(buffer, 1920);
    assert buffer[..1920] == c1 + c2 + c3[..420];
    assert buffer[1920..] == c3[420..];
  }
}
