/** 20 ms PCM frames: the push framer of the codec and the pull reader of the runner. */
module PcmFraming {
  import opened Base

  const FRAME_BYTES := 640

  function Zeros(n: nat): (z: bytes)
    ensures |z| == n && forall i :: 0 <= i < n ==> z[i] == 0
  {
    seq(n, i => 0)
  }

  function Pad(b: bytes): (f: bytes)
    requires |b| <= FRAME_BYTES
    ensures |f| == FRAME_BYTES
  {
    b + Zeros(FRAME_BYTES - |b|)
  }

  /** A whole stream as frames: the reference both framers are compared with. */
  function FramesOf(stream: bytes): (fs: seq<bytes>)
    ensures forall f :: f in fs ==> |f| == FRAME_BYTES
  {
    if stream == [] then []
    else if |stream| <= FRAME_BYTES then [Pad(stream)]
    else [stream[..FRAME_BYTES]] + FramesOf(stream[FRAME_BYTES..])
  }

  /** The complete frames at the front of b, and the bytes they leave over. */
  function FullFrames(b: bytes): (fs: seq<bytes>) {
    if |b| < FRAME_BYTES then [] else [b[..FRAME_BYTES]] + FullFrames(b[FRAME_BYTES..])
  }

  function Leftover(b: bytes): (r: bytes)
    ensures |r| < FRAME_BYTES
  {
    if |b| < FRAME_BYTES then b else Leftover(b[FRAME_BYTES..])
  }

  function Flatten(parts: seq<bytes>): bytes {
    if parts == [] then [] else parts[0] + Flatten(parts[1..])
  }

  /** What `finish_padded` adds. */
  function LastFrame(pending: bytes): (fs: seq<bytes>)
    requires |pending| < FRAME_BYTES
  {
    if pending == [] then [] else [Pad(pending)]
  }

  class Pcm20msFramer {
    var pending: bytes

    ghost predicate Valid()
      reads this
    {
      |pending| < FRAME_BYTES
    }

    constructor ()
      ensures Valid() && pending == []
    {
      pending := [];
    }

    method Push(pcm: bytes) returns (frames: seq<bytes>)
      requires Valid()
      modifies this
      ensures Valid()
      ensures frames == FullFrames(old(pending) + pcm)
      ensures pending == Leftover(old(pending) + pcm)
    {
      ghost var all := pending + pcm;
      pending := pending + pcm;
      frames := [];
      while |pending| >= FRAME_BYTES
        invariant frames + FullFrames(pending) == FullFrames(all)
        invariant Leftover(pending) == Leftover(all)
        decreases |pending|
      {
        frames := frames + [pending[..FRAME_BYTES]];
        pending := pending[FRAME_BYTES..];
      }
    }

    method FinishPadded() returns (frame: Option<bytes>)
      requires Valid()
      modifies this
      ensures Valid() && pending == []
      ensures (match frame case None => [] case Some(f) => [f]) == LastFrame(old(pending))
    {
      if pending == [] {
        return None;
      }
      frame := Some(pending + Zeros(FRAME_BYTES - |pending|));
      pending := [];
    }
  }

  /** The frames produced by successive pushes, and what stays pending. */
  function PushAll(pending: bytes, chunks: seq<bytes>): (r: (seq<bytes>, bytes))
    requires |pending| < FRAME_BYTES
    ensures |r.1| < FRAME_BYTES
    decreases |chunks|
  {
    if chunks == [] then ([], pending)
    else
      var b := pending + chunks[0];
      var (frames, rest) := PushAll(Leftover(b), chunks[1..]);
      (FullFrames(b) + frames, rest)
  }

  lemma {:induction false} FramesOfSplit(b: bytes, tail: bytes)
    ensures FramesOf(b + tail) == FullFrames(b) + FramesOf(Leftover(b) + tail)
    decreases |b|
  {
    if |b| >= FRAME_BYTES {
      var rest := b[FRAME_BYTES..];
      assert (b + tail)[..FRAME_BYTES] == b[..FRAME_BYTES] && (b + tail)[FRAME_BYTES..] == rest + tail;
      FramesOfSplit(rest, tail);
      if b + tail == b && |b| == FRAME_BYTES {
        assert Pad(b) == b[..FRAME_BYTES];
      }
      assert FramesOf(b + tail) == [b[..FRAME_BYTES]] + FramesOf(rest + tail);
    }
  }

  /** However the stream is cut into pushes, pushing and finishing give the frames of the stream. */
  lemma {:induction false} PushesAreChunkIndependent(pending: bytes, chunks: seq<bytes>)
    requires |pending| < FRAME_BYTES
    ensures PushAll(pending, chunks).0 + LastFrame(PushAll(pending, chunks).1) == FramesOf(pending + Flatten(chunks))
    decreases |chunks|
  {
    if chunks == [] {
      assert pending + Flatten(chunks) == pending;
      assert [] + LastFrame(pending) == LastFrame(pending);
    } else {
      hide FramesOf;
      hide FullFrames;
      hide Leftover;
      hide LastFrame;
      var b, later := pending + chunks[0], Flatten(chunks[1..]);
      var next := PushAll(Leftover(b), chunks[1..]);
      assert PushAll(pending, chunks) == (FullFrames(b) + next.0, next.1);
      ConcatAssociates(pending, chunks[0], later);
      assert pending + Flatten(chunks) == b + later;
      hide PushAll;
      hide Flatten;
      PushesAreChunkIndependent(Leftover(b), chunks[1..]);
      FramesOfSplit(b, later);
      ConcatAssociates(FullFrames(b), next.0, LastFrame(next.1));
    }
  }

  function FrameCount(n: nat): nat {
    (n + FRAME_BYTES - 1) / FRAME_BYTES
  }

  /** There are ceil(n / 640) frames, and together they are the stream followed by zeros. */
  lemma {:induction false} FramesOfShape(stream: bytes)
    ensures |FramesOf(stream)| == FrameCount(|stream|)
    ensures Flatten(FramesOf(stream)) == stream + Zeros(FrameCount(|stream|) * FRAME_BYTES - |stream|)
    decreases |stream|
  {
    if |stream| == 0 {
    } else if |stream| <= FRAME_BYTES {
      assert FrameCount(|stream|) == 1;
      assert [Pad(stream)][1..] == [];
    } else {
      var rest := stream[FRAME_BYTES..];
      FramesOfShape(rest);
      assert FrameCount(|stream|) == FrameCount(|rest|) + 1;
      assert FramesOf(stream)[1..] == FramesOf(rest);
      assert stream == stream[..FRAME_BYTES] + rest;
    }
  }

  /** The frames of a stream are as few as hold it, of 640 bytes each. */
  lemma FrameCountIs(n: nat)
    ensures 640 * (FrameCount(n) - 1) < n <= 640 * FrameCount(n) || n == 0 == FrameCount(n)
    ensures FRAME_BYTES == 640
  {
  }

  // ----- the pull reader

  datatype ReadOutcome = Count(n: nat) | Interrupted | Failed
  datatype PcmError = ReadFailed | IncompleteSample

  /** A buffer with a piece written into it. */
  function Overwritten(buffer: bytes, from: nat, piece: bytes): bytes
    requires from + |piece| <= |buffer|
  {
    buffer[..from] + piece + buffer[from + |piece|..]
  }

  /** A recording being read. How much each read returns is up to the system;
      interruptions are finitely many, or reading would not end. `failed` records whether a read failed. */
  class PcmSource {
    var rest: bytes
    var interruptions: nat
    ghost var failed: bool

    constructor (data: bytes, interruptions: nat)
      ensures rest == data && !failed
    {
      this.rest, failed := data, false;
      this.interruptions := interruptions;
    }

    method Read(buffer: array<byte>, from: nat) returns (r: ReadOutcome)
      requires from < buffer.Length
      modifies this, buffer
      ensures r.Count? ==> r.n <= buffer.Length - from && r.n <= |old(rest)|
                           && (r.n == 0 ==> old(rest) == []) && rest == old(rest)[r.n..]
                           && buffer[..] == Overwritten(old(buffer[..]), from, old(rest)[..r.n])
                           && interruptions == old(interruptions)
      ensures !r.Count? ==> rest == old(rest) && buffer[..] == old(buffer[..])
      ensures r.Interrupted? ==> interruptions < old(interruptions)
      ensures failed == (old(failed) || r.Failed?)
    {
      var fails, interrupted, n: nat := *, *, *;
      if fails {
        failed := true;
        return Failed;
      }
      if interrupted && interruptions > 0 {
        interruptions := interruptions - 1;
        return Interrupted;
      }
      n := Max(1, n);
      n := Min(n, Min(buffer.Length - from, |rest|));
      forall i | 0 <= i < n {
        buffer[from + i] := rest[i];
      }
      rest := rest[n..];
      return Count(n);
    }
  }

  /** A buffer that holds the first `filled` bytes and is zero behind them. */
  ghost predicate Filled(buffer: bytes, all: bytes, filled: nat) {
    filled <= FRAME_BYTES && filled <= |all| && buffer == all[..filled] + Zeros(FRAME_BYTES - filled)
  }

  lemma TakeFrame(buffer: bytes, all: bytes, n: nat)
    requires Filled(buffer, all, n) && 0 < n && (n == FRAME_BYTES || n == |all|)
    ensures all != [] && |buffer| == FRAME_BYTES && FramesOf(all) == [buffer] + FramesOf(all[n..])
  {
    if n == |all| {
      assert all[..n] == all && all[n..] == [];
    } else {
      assert all[..n] + Zeros(0) == all[..n];
    }
  }

  lemma FillMore(before: bytes, after: bytes, all: bytes, filled: nat, n: nat)
    requires Filled(before, all, filled) && filled + n <= FRAME_BYTES && filled + n <= |all|
    requires |before| == FRAME_BYTES && after == Overwritten(before, filled, all[filled..][..n])
    ensures Filled(after, all, filled + n) && all[filled..][n..] == all[filled + n..]
  {
    assert after == all[..filled + n] + Zeros(FRAME_BYTES - (filled + n));
  }

  method EmptyFrame(ghost all: bytes) returns (frame: array<byte>)
    ensures fresh(frame) && frame.Length == FRAME_BYTES && Filled(frame[..], all, 0)
  {
    frame := new byte[FRAME_BYTES](i => 0);
    assert all[..0] + Zeros(FRAME_BYTES) == Zeros(FRAME_BYTES);
    assert frame[..] == Zeros(FRAME_BYTES);
  }

  /** One read into the unfilled part of the frame. */
  method ReadMore(source: PcmSource, frame: array<byte>, filled: nat, ghost all: bytes) returns (outcome: ReadOutcome)
    requires frame.Length == FRAME_BYTES && filled < FRAME_BYTES && filled <= |all|
    requires source.rest == all[filled..] && Filled(frame[..], all, filled)
    modifies source, frame
    ensures outcome.Count? ==>
              && filled + outcome.n <= FRAME_BYTES && filled + outcome.n <= |all|
              && (outcome.n == 0 ==> filled == |all|)
              && source.rest == all[filled + outcome.n..] && Filled(frame[..], all, filled + outcome.n)
              && source.interruptions == old(source.interruptions)
    ensures !outcome.Count? ==> source.rest == all[filled..] && Filled(frame[..], all, filled)
    ensures outcome.Interrupted? ==> source.interruptions < old(source.interruptions)
    ensures source.failed == (old(source.failed) || outcome.Failed?)
  {
    hide Filled;
    hide Overwritten;
    ghost var before := frame[..];
    outcome := source.Read(frame, filled);
    if outcome.Count? {
      FillMore(before, frame[..], all, filled, outcome.n);
    }
  }

  /** Reads one frame, accumulating short reads; a final partial frame stays zero-padded. */
  method ReadPcmFrame(source: PcmSource) returns (r: Result<Option<bytes>, PcmError>)
    modifies source
    ensures r.Ok? && r.value.None? ==> old(source.rest) == [] == source.rest
    ensures r.Ok? && r.value.Some? ==>
              old(source.rest) != [] && FramesOf(old(source.rest)) == [r.value.value] + FramesOf(source.rest)
              && |source.rest| < |old(source.rest)| && |r.value.value| == FRAME_BYTES
    ensures r.Ok? && |old(source.rest)| % 2 == 0 ==> |source.rest| % 2 == 0
    ensures r == Err(IncompleteSample) ==> |old(source.rest)| % 2 == 1
    ensures source.failed == (old(source.failed) || r == Err(ReadFailed))
  {
    hide FramesOf;
    hide Filled;
    ghost var all := source.rest;
    var frame := EmptyFrame(all);
    var filled: nat := 0;
    while filled < FRAME_BYTES
      invariant filled <= FRAME_BYTES && filled <= |all|
      invariant source.rest == all[filled..] && Filled(frame[..], all, filled)
      invariant source.failed == old(source.failed)
      decreases FRAME_BYTES - filled + source.interruptions
    {
      var outcome := ReadMore(source, frame, filled, all);
      match outcome {
        case Count(n) =>
          if n == 0 && filled == 0 {
            return Ok(None);
          } else if n == 0 {
            break;
          }
          filled := filled + n;
        case Interrupted =>
        case Failed =>
          return Err(ReadFailed);
      }
    }
    if filled % 2 != 0 {
      return Err(IncompleteSample);
    }
    TakeFrame(frame[..], all, filled);
    return Ok(Some(frame[..]));
  }
}
