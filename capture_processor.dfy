/**
 * The audio-thread capture processor: it cuts the microphone's sample stream
 * into fixed-size frames and posts a copy of each full frame to the main
 * thread. Samples are exact reals (Float32 rounding is not modelled); the
 * message port is the sequence of frames posted so far.
 */
module Worklet {
  import opened Wrappers

  const DefaultFrameSize: nat := 1024

  /** All posted frames, concatenated in posting order. */
  function Flatten(frames: seq<seq<real>>): (stream: seq<real>) {
    if frames == [] then [] else Flatten(frames[..|frames| - 1]) + frames[|frames| - 1]
  }

  lemma FlattenPush(frames: seq<seq<real>>, frame: seq<real>)
    ensures Flatten(frames + [frame]) == Flatten(frames) + frame
  {
    assert (frames + [frame])[..|frames|] == frames;
  }

  predicate AllOfSize(frames: seq<seq<real>>, size: nat) {
    forall k | 0 <= k < |frames| :: |frames[k]| == size
  }

  lemma {:induction false} FlattenLength(frames: seq<seq<real>>, size: nat)
    requires AllOfSize(frames, size)
    ensures |Flatten(frames)| == |frames| * size
  {
    if frames != [] {
      var n := |frames| - 1;
      FlattenLength(frames[..n], size);
      assert (n + 1) * size == n * size + size;
    }
  }

  /** Frame k of the port is the stream's slice [k * size, k * size + size). */
  lemma {:induction false} FrameIsSlice(frames: seq<seq<real>>, size: nat, k: nat)
    requires AllOfSize(frames, size) && k < |frames|
    ensures k * size + size <= |Flatten(frames)|
    ensures Flatten(frames)[k * size..k * size + size] == frames[k]
  {
    var init := frames[..|frames| - 1];
    FlattenLength(frames, size);
    FlattenLength(init, size);
    if k == |frames| - 1 {
      assert |Flatten(init)| == k * size;
    } else {
      FrameIsSlice(init, size, k);
      assert k * size + size <= |init| * size by {
        assert k + 1 <= |init|;
        MulMonotone(k + 1, |init|, size);
      }
      assert Flatten(frames)[k * size..k * size + size] == Flatten(init)[k * size..k * size + size];
    }
  }

  lemma MulMonotone(a: nat, b: nat, c: nat)
    requires a <= b
    ensures a * c <= b * c
  {
  }

  /** What waits in the buffer is the stream after the last complete frame. */
  lemma PendingIsTail(frames: seq<seq<real>>, pending: seq<real>, fed: seq<real>, size: nat)
    requires AllOfSize(frames, size) && Flatten(frames) + pending == fed
    ensures |fed| == |frames| * size + |pending|
    ensures fed[|frames| * size..] == pending
  {
    FlattenLength(frames, size);
    SuffixAfterPrefix(Flatten(frames), pending);
  }

  lemma SuffixAfterPrefix(s: seq<real>, t: seq<real>)
    ensures (s + t)[|s|..] == t
  {
  }

  /**
   * The frame count and offset after feeding `fed` samples: the stream
   * lengths before and after determine them by division by the frame size.
   */
  lemma FrameCount(before: seq<seq<real>>, after: seq<seq<real>>, size: nat, off0: nat, off: nat, fed: nat)
    requires size > 0 && off < size && |before| <= |after|
    requires AllOfSize(before, size) && AllOfSize(after, size)
    requires |Flatten(after)| + off == |Flatten(before)| + off0 + fed
    ensures |after| == |before| + (off0 + fed) / size
    ensures off == (off0 + fed) % size
  {
    FlattenLength(before, size);
    FlattenLength(after, size);
    CountArith(|after|, |before|, size, off0, off, fed);
  }

  lemma CountArith(a: nat, b: nat, size: nat, off0: nat, off: nat, fed: nat)
    requires size > 0 && off < size && b <= a
    requires a * size + off == b * size + off0 + fed
    ensures a == b + (off0 + fed) / size && off == (off0 + fed) % size
  {
    var extra: nat := a - b;
    assert a * size == b * size + extra * size;
    DivModUnique(off0 + fed, size, extra, off);
  }

  /** Quotient and remainder are determined by `n == q * d + r` with `0 <= r < d`. */
  lemma DivModUnique(n: nat, d: nat, q: nat, r: nat)
    requires d > 0 && n == q * d + r && r < d
    ensures q == n / d && r == n % d
  {
    var q', r' := n / d, n % d;
    assert n == q' * d + r';
    if q < q' {
      MulMonotone(q + 1, q', d);
    } else if q' < q {
      MulMonotone(q' + 1, q, d);
    }
  }

  /**
   * `inputs[0][channel]`: the samples of the chosen channel of the first
   * input, absent when there is no input, the input has no channels, or the
   * channel does not exist.
   */
  function ChannelData(inputs: seq<seq<seq<real>>>, channel: nat): (r: Option<seq<real>>)
    ensures r.Some? <==> |inputs| > 0 && |inputs[0]| > 0 && channel < |inputs[0]|
    ensures r.Some? ==> r.value == inputs[0][channel]
  {
    if |inputs| == 0 || |inputs[0]| == 0 then None
    else if channel < |inputs[0]| then Some(inputs[0][channel])
    else None
  }

  class CaptureProcessor {
    const frameSize: nat
    const channel: nat
    const buffer: array<real>
    var offset: nat
    /** The messages posted on the port, oldest first. */
    var port: seq<seq<real>>
    /** Every sample of the selected channel the processor has been given. */
    ghost var fed: seq<real>

    ghost predicate Valid()
      reads this, buffer
    {
      && frameSize > 0
      && buffer.Length == frameSize
      && offset < frameSize
      && AllOfSize(port, frameSize)
      && Flatten(port) + buffer[..offset] == fed
    }

    /** `frameSize || 1024` and `channel || 0`, with a zero-filled buffer. */
    constructor (frameSizeOpt: Option<nat>, channelOpt: Option<nat>)
      ensures Valid() && fresh(buffer)
      ensures frameSize == if frameSizeOpt.None? || frameSizeOpt.value == 0 then DefaultFrameSize else frameSizeOpt.value
      ensures channel == channelOpt.GetOr(0)
      ensures offset == 0 && port == [] && fed == []
      ensures buffer[..] == seq(frameSize, _ => 0.0)
    {
      var size := if frameSizeOpt.None? || frameSizeOpt.value == 0 then DefaultFrameSize else frameSizeOpt.value;
      frameSize := size;
      channel := channelOpt.GetOr(0);
      buffer := new real[size](_ => 0.0);
      offset := 0;
      port := [];
      fed := [];
    }

    /** `this._buffer.set(data.subarray(from, from + count), this._offset)` */
    method CopyIn(data: seq<real>, from: nat, count: nat)
      requires buffer.Length == frameSize && offset + count <= frameSize && from + count <= |data|
      modifies buffer
      ensures buffer[..] == old(buffer[..offset]) + data[from..from + count] + old(buffer[offset + count..])
      ensures buffer[..offset + count] == old(buffer[..offset]) + data[from..from + count]
    {
      forall k | 0 <= k < count {
        buffer[offset + k] := data[from + k];
      }
    }

    /**
     * One render quantum: the selected channel of the first input, when there
     * is one, is fed to the buffer. The processor always asks to be kept alive.
     */
    method Process(inputs: seq<seq<seq<real>>>) returns (keepAlive: bool)
      requires Valid()
      modifies this, buffer
      ensures Valid() && keepAlive
      ensures ChannelData(inputs, channel).None? ==>
                port == old(port) && offset == old(offset) && fed == old(fed) && buffer[..] == old(buffer[..])
      ensures ChannelData(inputs, channel).Some? ==>
                var data := ChannelData(inputs, channel).value;
                fed == old(fed) + data &&
                |old(port)| <= |port| && port[..|old(port)|] == old(port) &&
                |port| == |old(port)| + (old(offset) + |data|) / frameSize &&
                offset == (old(offset) + |data|) % frameSize
    {
      keepAlive := true;
      if |inputs| == 0 || |inputs[0]| == 0 {
        return;
      }
      if channel >= |inputs[0]| {
        return;
      }
      var channelData := inputs[0][channel];
      Feed(channelData);
    }

    /**
     * The copy loop: samples go into the buffer in pieces of at most the
     * free space; each time the buffer fills, a copy is posted and the buffer
     * starts over.
     */
    method Feed(data: seq<real>)
      requires Valid()
      modifies this, buffer
      ensures Valid()
      ensures fed == old(fed) + data
      ensures |old(port)| <= |port| && port[..|old(port)|] == old(port)
      ensures |port| == |old(port)| + (old(offset) + |data|) / frameSize
      ensures offset == (old(offset) + |data|) % frameSize
    {
      ghost var fed0, port0, offset0 := fed, port, offset;
      var i := 0;
      while i < |data|
        invariant 0 <= i <= |data|
        invariant offset < frameSize
        invariant AllOfSize(port, frameSize)
        invariant |port0| <= |port| && port[..|port0|] == port0
        invariant Flatten(port) + buffer[..offset] == fed0 + data[..i]
        decreases |data| - i
      {
        var next := CopyStep(data, i, port0);
        assert data[..next] == data[..i] + data[i..next];
        i := next;
      }
      assert data[..i] == data;
      fed := fed0 + data;
      FrameCount(port0, port, frameSize, offset0, offset, |data|);
    }

    /**
     * One pass of the copy loop from sample `i`: copy as much as fits, and
     * post the buffer if that filled it. Returns the next sample index.
     */
    method CopyStep(data: seq<real>, i: nat, ghost port0: seq<seq<real>>) returns (next: nat)
      requires buffer.Length == frameSize && offset < frameSize && i < |data|
      requires AllOfSize(port, frameSize) && |port0| <= |port| && port[..|port0|] == port0
      modifies this`port, this`offset, buffer
      ensures i < next <= |data| && offset < frameSize
      ensures AllOfSize(port, frameSize) && |port0| <= |port| && port[..|port0|] == port0
      ensures Flatten(port) + buffer[..offset] == Flatten(old(port)) + old(buffer[..offset]) + data[i..next]
    {
      var remaining := frameSize - offset;
      var toCopy := if remaining < |data| - i then remaining else |data| - i;
      ghost var prefix, before := Flatten(port), buffer[..offset];
      CopyIn(data, i, toCopy);
      assert prefix + buffer[..offset + toCopy] == prefix + before + data[i..i + toCopy];
      offset := offset + toCopy;
      next := i + toCopy;
      if offset >= frameSize {
        PostFrame(port0);
      }
    }

    /** `this.port.postMessage(this._buffer.slice(0))` and the reset of the offset. */
    method PostFrame(ghost port0: seq<seq<real>>)
      requires buffer.Length == frameSize && offset == frameSize
      requires AllOfSize(port, frameSize) && |port0| <= |port| && port[..|port0|] == port0
      modifies this`port, this`offset
      ensures port == old(port) + [buffer[..]] && offset == 0
      ensures AllOfSize(port, frameSize) && |port0| <= |port| && port[..|port0|] == port0
      ensures Flatten(port) + buffer[..offset] == Flatten(old(port)) + buffer[..old(offset)]
    {
      var frame := buffer[..];
      assert frame == buffer[..offset];
      FlattenPush(port, frame);
      assert (port + [frame])[..|port0|] == port[..|port0|];
      port := port + [frame];
      offset := 0;
    }
  }
}
