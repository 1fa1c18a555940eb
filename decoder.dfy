/** The H.264-to-raw-BGR decoder: an external ffmpeg process whose input pipe
    is fed encoded bytes and whose output pipe is read in chunks and cut into
    fixed-size frames (decoder.py). The process itself is not modelled: what
    a write does and what each read returns are inputs of the model. */
module Decoder {
  import opened Base

  /** What one `process.stdout.read(4096)` call gave back. `chunk` is the
      data read; `exited` is what `process.poll()` would report at that
      moment, and is consulted only when `chunk` is empty. */
  datatype ReadResult = ReadResult(chunk: seq<byte>, exited: bool)

  /** The read that ends the frame sequence: no data and the process is gone. */
  predicate IsEnd(r: ReadResult) { |r.chunk| == 0 && r.exited }

  /** Bytes in one raw BGR frame (three bytes per pixel). */
  function FrameSize(width: int, height: int): int { width * height * 3 }

  /** Index of the first read that ends the sequence, or |results| if none does. */
  function EndIndex(results: seq<ReadResult>): (k: nat)
    ensures k <= |results|
    ensures forall j :: 0 <= j < k ==> !IsEnd(results[j])
    ensures k < |results| ==> IsEnd(results[k])
  {
    if results == [] then 0
    else if IsEnd(results[0]) then 0
    else 1 + EndIndex(results[1..])
  }

  /** All bytes carried by a run of reads, in read order. It peels the
      last read off, as the frame loop appends each new chunk at the end of
      its buffer; it is `Base.Gather` specialised to the `chunk` field, kept
      first-order so the decoder's proofs need no function-valued argument. */
  function Concat(results: seq<ReadResult>): (r: seq<byte>)
  {
    if results == [] then [] else Concat(results[..|results| - 1]) + results[|results| - 1].chunk
  }

  /** The byte stream the frame loop takes in: every chunk before the
      ending read. */
  function Delivered(results: seq<ReadResult>): seq<byte>
  {
    Concat(results[..EndIndex(results)])
  }

  /** The whole frames of a byte stream, front to back. */
  function Split(s: seq<byte>, n: nat): (frames: seq<seq<byte>>)
    requires n > 0
    ensures forall i :: 0 <= i < |frames| ==> |frames[i]| == n
    decreases |s|
  {
    if |s| < n then [] else [s[..n]] + Split(s[n..], n)
  }

  /** What is left of a byte stream after its whole frames are cut off. */
  function Rest(s: seq<byte>, n: nat): (r: seq<byte>)
    requires n > 0
    ensures |r| < n
    ensures |r| <= |s|
    decreases |s|
  {
    if |s| < n then s else Rest(s[n..], n)
  }

  /** Cutting a stream into frames and keeping the leftover loses nothing
      and reorders nothing. */
  lemma {:induction false} SplitRecombine(s: seq<byte>, n: nat)
    requires n > 0
    ensures Flatten(Split(s, n)) + Rest(s, n) == s
    decreases |s|
  {
    if |s| >= n {
      var tail := s[n..];
      SplitRecombine(tail, n);
      var f := Split(s, n);
      assert f == [s[..n]] + Split(tail, n);
      assert f[0] == s[..n] && f[1..] == Split(tail, n);
      assert Flatten(f) == s[..n] + Flatten(Split(tail, n));
      assert Rest(s, n) == Rest(tail, n);
      assert s == s[..n] + tail;
    }
  }

  /** The number of frames is the integer quotient of the byte count by the
      frame size, and the leftover is the remainder. */
  lemma {:induction false} SplitCount(s: seq<byte>, n: nat)
    requires n > 0
    ensures |Split(s, n)| == |s| / n
    ensures |Rest(s, n)| == |s| % n
    decreases |s|
  {
    if |s| >= n {
      SplitCount(s[n..], n);
      DivModStep(|s|, n);
    } else {
      assert |s| / n == 0 && |s| % n == |s|;
    }
  }

  lemma DivModStep(a: nat, n: nat)
    requires n > 0 && a >= n
    ensures a / n == (a - n) / n + 1 && a % n == (a - n) % n
  {
    var q, r := (a - n) / n, (a - n) % n;
    assert a == (q + 1) * n + r;
    DivUnique(a, n, q + 1, r);
  }

  lemma DivUnique(a: int, n: int, q: int, r: int)
    requires n > 0 && 0 <= r < n && a == q * n + r
    ensures a / n == q && a % n == r
  {
    var d := q - a / n;
    assert d * n == a % n - r;
  }

  /** Appending bytes to a stream: the frames of the longer stream are the
      frames already available followed by the frames of the old leftover
      extended by the new bytes. This is what lets the decoder cut frames
      incrementally, chunk by chunk. */
  lemma {:induction false} SplitAppend(x: seq<byte>, y: seq<byte>, n: nat)
    requires n > 0
    ensures Split(x + y, n) == Split(x, n) + Split(Rest(x, n) + y, n)
    ensures Rest(x + y, n) == Rest(Rest(x, n) + y, n)
    decreases |x|
  {
    if |x| >= n {
      assert (x + y)[..n] == x[..n];
      assert (x + y)[n..] == x[n..] + y;
      SplitAppend(x[n..], y, n);
    }
  }

  /** Frames already yielded are never revised by later bytes: the frames of
      a stream are a prefix of the frames of any extension of it. */
  lemma {:induction false} SplitPrefix(x: seq<byte>, y: seq<byte>, n: nat)
    requires n > 0
    ensures Split(x, n) <= Split(x + y, n)
  {
    SplitAppend(x, y, n);
  }

  lemma {:induction false} EndIndexAppend(a: seq<ReadResult>, b: seq<ReadResult>)
    requires EndIndex(a) == |a|
    ensures EndIndex(a + b) == |a| + EndIndex(b)
    decreases |a|
  {
    if a != [] {
      assert (a + b)[0] == a[0];
      assert (a + b)[1..] == a[1..] + b;
      EndIndexAppend(a[1..], b);
    } else {
      assert a + b == b;
    }
  }

  lemma {:induction false} ConcatAppend(a: seq<ReadResult>, b: seq<ReadResult>)
    ensures Concat(a + b) == Concat(a) + Concat(b)
    decreases |b|
  {
    if b == [] {
      assert a + b == a;
    } else {
      var ab := a + b;
      assert ab[..|ab| - 1] == a + b[..|b| - 1];
      assert ab[|ab| - 1] == b[|b| - 1];
      ConcatAppend(a, b[..|b| - 1]);
    }
  }

  /** Reads before the ending one contribute all their bytes, in order. */
  lemma DeliveredAppend(pre: seq<ReadResult>, post: seq<ReadResult>)
    requires EndIndex(pre) == |pre|
    ensures Delivered(pre + post) == Concat(pre) + Delivered(post)
  {
    EndIndexAppend(pre, post);
    var whole := pre + post;
    var k := EndIndex(post);
    assert whole[..EndIndex(whole)] == pre + post[..k];
    ConcatAppend(pre, post[..k]);
  }

  lemma AppendEmptyRead(pre: seq<ReadResult>)
    requires EndIndex(pre) == |pre|
    ensures EndIndex(pre + [ReadResult([], false)]) == |pre| + 1
    ensures Concat(pre + [ReadResult([], false)]) == Concat(pre)
  {
    var e := [ReadResult([], false)];
    EndIndexAppend(pre, e);
    assert (pre + e)[..|pre|] == pre;
  }

  /** An empty read while the process is still running contributes nothing:
      the same bytes, hence the same frames, are delivered without it. */
  lemma EmptyReadIsTransparent(pre: seq<ReadResult>, post: seq<ReadResult>)
    requires EndIndex(pre) == |pre|
    ensures Delivered(pre + [ReadResult([], false)] + post) == Delivered(pre + post)
  {
    AppendEmptyRead(pre);
    DeliveredAppend(pre + [ReadResult([], false)], post);
    DeliveredAppend(pre, post);
  }

  /** An empty read after the process has exited ends the stream: nothing
      read afterwards is delivered. */
  lemma ExitedReadEndsStream(pre: seq<ReadResult>, post: seq<ReadResult>)
    requires EndIndex(pre) == |pre|
    ensures Delivered(pre + [ReadResult([], true)] + post) == Concat(pre)
  {
    var e := [ReadResult([], true)];
    assert pre + e + post == pre + (e + post);
    DeliveredAppend(pre, e + post);
    assert EndIndex(e + post) == 0;
  }

  /** The reads that hand over the bytes of `s` one at a time. */
  function BytewiseReads(s: seq<byte>): (results: seq<ReadResult>)
    ensures |results| == |s|
  {
    seq(|s|, i requires 0 <= i < |s| => ReadResult([s[i]], false))
  }

  lemma {:induction false} ConcatBytewise(s: seq<byte>)
    ensures Concat(BytewiseReads(s)) == s
    decreases |s|
  {
    if s != [] {
      var last := |s| - 1;
      var results := BytewiseReads(s);
      assert results[..last] == BytewiseReads(s[..last]);
      ConcatBytewise(s[..last]);
      assert results[last].chunk == [s[last]];
      assert s == s[..last] + [s[last]];
    }
  }

  /** Reading a stream one byte at a time delivers exactly the bytes of a
      single read holding the whole stream, so by Frames' contract both give
      the same frames. */
  lemma BytewiseReadsDeliverAll(s: seq<byte>)
    ensures Delivered(BytewiseReads(s)) == s == Delivered([ReadResult(s, false)])
  {
    var results := BytewiseReads(s);
    assert forall i :: 0 <= i < |results| ==> !IsEnd(results[i]);
    assert EndIndex(results) == |results|;
    assert results[..|results|] == results;
    ConcatBytewise(s);
    var one := [ReadResult(s, false)];
    assert EndIndex(one) == 1;
    assert one[..1] == one && one[..0] == [];
    assert Concat(one) == Concat([]) + s;
  }

  /** The three states of the process's input pipe seen by feed/close. */
  datatype Stdin = Absent | Open | Closed

  /** What writing one buffer to an open input pipe did. */
  datatype WriteResult = Written | BrokenPipe

  class FFmpegDecoder {
    /** `process.stdin`: missing, open, or closed by `close()`. */
    var stdin: Stdin
    /** Every byte the process accepted on its input, in order. */
    var input: seq<byte>
    /** Whether `close()` had to kill the process. */
    var killed: bool

    /** Spawning the process; `hasStdin` says whether an input pipe exists. */
    constructor (hasStdin: bool)
      ensures stdin == (if hasStdin then Open else Absent)
      ensures input == [] && !killed
    {
      stdin := if hasStdin then Open else Absent;
      input := [];
      killed := false;
    }

    /** `feed`: a no-op when there is no input pipe; a write that breaks the
        pipe or hits a closed handle is swallowed; it never raises. */
    method Feed(data: seq<byte>, outcome: WriteResult)
      modifies this
      ensures stdin == old(stdin) && killed == old(killed)
      ensures input == if old(stdin) == Open && outcome == Written then old(input) + data else old(input)
    {
      if stdin != Absent {
        if stdin == Open && outcome == Written {
          input := input + data;
        }
        // BrokenPipeError and ValueError (closed handle) are ignored
      }
    }

    /** `close`: closes the input pipe when there is one, then waits for the
        process; if it does not exit in time it is killed. Errors from the
        kill are swallowed. */
    method Close(exitsInTime: bool)
      modifies this
      ensures stdin == (if old(stdin) == Absent then Absent else Closed)
      ensures input == old(input)
      ensures killed == (old(killed) || !exitsInTime)
    {
      if stdin != Absent {
        stdin := Closed;
      }
      if !exitsInTime {
        killed := true;
      }
    }

    /** `frames`: successive reads are appended to a buffer; while it holds a
        whole frame the front frame is cut off and yielded. `frames` is what
        has been yielded and `buffer` the leftover when the reads stop, either
        at the ending read (`ended`) or because the modelled reads run out.
        `consumed` is how many reads were taken. */
    method Frames(results: seq<ReadResult>, width: int, height: int)
      returns (frames: seq<seq<byte>>, buffer: seq<byte>, consumed: nat, ended: bool)
      requires width > 0 && height > 0
      ensures frames == Split(Delivered(results), FrameSize(width, height))
      ensures buffer == Rest(Delivered(results), FrameSize(width, height))
      ensures forall i :: 0 <= i < |frames| ==> |frames[i]| == FrameSize(width, height)
      ensures |buffer| < FrameSize(width, height)
      ensures Flatten(frames) + buffer == Delivered(results)
      ensures ended == (EndIndex(results) < |results|)
      ensures consumed == if ended then EndIndex(results) + 1 else |results|
    {
      var bytesPerFrame: nat := width * height * 3;
      frames, buffer := [], [];
      var i := 0;
      while i < |results|
        invariant 0 <= i <= EndIndex(results)
        invariant frames == Split(Concat(results[..i]), bytesPerFrame)
        invariant buffer == Rest(Concat(results[..i]), bytesPerFrame)
      {
        var r := results[i];
        ghost var before := Concat(results[..i]);
        assert results[..i + 1][..i] == results[..i];
        i := i + 1;
        assert Concat(results[..i]) == before + r.chunk;
        if |r.chunk| == 0 {
          if r.exited {
            consumed, ended := i, true;
            SplitRecombine(Delivered(results), bytesPerFrame);
            return;
          }
          assert before + r.chunk == before;
          continue;
        }
        SplitAppend(before, r.chunk, bytesPerFrame);
        buffer := buffer + r.chunk;
        while |buffer| >= bytesPerFrame
          invariant frames + Split(buffer, bytesPerFrame) == Split(Concat(results[..i]), bytesPerFrame)
          invariant Rest(buffer, bytesPerFrame) == Rest(Concat(results[..i]), bytesPerFrame)
          decreases |buffer|
        {
          var frameData := buffer[..bytesPerFrame];
          buffer := buffer[bytesPerFrame..];
          frames := frames + [frameData];
        }
      }
      assert results[..i] == results;
      consumed, ended := i, false;
      SplitRecombine(Delivered(results), bytesPerFrame);
    }
  }
}
