/** `Buffer`: one GPU buffer holding `instances` equal frames of `length` bytes each,
    so the CPU can fill one frame while the GPU reads another (triple buffering).
    The buffer is a sequence of bytes; `memcpy` past either end is undefined in the
    source and is an error here. */
module Buffer {
  import opened Wrappers

  /** `BUFFER_SIZE`: the number of frames a buffer holds by default. */
  const BufferSize: nat := 3

  datatype Buffer = Buffer(bytes: seq<int>, length: nat, instances: nat)

  /** A copy that would read or write outside its arrays. */
  datatype Overrun = Overrun

  /** `init(device:length:instances:)`. The device's initial contents are not
      specified; they are modelled as zeros. */
  function NewBuffer(length: nat, instances: nat := BufferSize): (b: Buffer)
    ensures |b.bytes| == length * instances
    ensures b.length == length && b.instances == instances
  {
    Buffer(seq(length * instances, _ => 0), length, instances)
  }

  /** The `size` bytes at `at` are `data`'s first `size`. */
  ghost predicate Holds(bytes: seq<int>, at: int, data: seq<int>, size: nat)
  {
    0 <= at && at + size <= |bytes| && size <= |data|
    && forall p :: at <= p < at + size ==> bytes[p] == data[p - at]
  }

  /** `after` is `before` with `data`'s first `size` bytes written at `at`. */
  ghost predicate Copied(before: seq<int>, after: seq<int>, at: int, data: seq<int>, size: nat)
  {
    && |after| == |before|
    && Holds(after, at, data, size)
    && forall j :: 0 <= j < |before| && !(at <= j < at + size) ==> after[j] == before[j]
  }

  /** `memcpy(contents + at, data, size)`. */
  function Copy(bytes: seq<int>, at: int, data: seq<int>, size: nat): (r: Result<seq<int>, Overrun>)
    ensures r.Success? <==> 0 <= at && at + size <= |bytes| && size <= |data|
    ensures r.Success? ==> Copied(bytes, r.value, at, data, size)
  {
    if 0 <= at && at + size <= |bytes| && size <= |data| then
      Success(bytes[..at] + data[..size] + bytes[at + size..])
    else
      Failure(Overrun)
  }

  /** Where frame `frame` of `b` starts. */
  function FrameStart(b: Buffer, frame: int): int
  {
    frame * b.length
  }

  /** `add(data:size:offset:)`: the same `size` bytes into each of the first three
      frames, `offset` counted in units of `size`. The number of frames is not
      consulted. */
  function Add(b: Buffer, data: seq<int>, size: nat, offset: int := 0): (r: Result<Buffer, Overrun>)
    ensures r.Success? <==>
              && 0 <= size * offset
              && 2 * b.length + size * offset + size <= |b.bytes|
              && size <= |data|
    ensures r.Success? ==>
              && r.value.length == b.length && r.value.instances == b.instances
              && |r.value.bytes| == |b.bytes|
              && (forall j :: (&& 0 <= j < |b.bytes|
                               && !(size * offset <= j < size * offset + size)
                               && !(b.length + size * offset <= j < b.length + size * offset + size)
                               && !(2 * b.length + size * offset <= j < 2 * b.length + size * offset + size))
                              ==> r.value.bytes[j] == b.bytes[j])
              && Holds(r.value.bytes, 2 * b.length + size * offset, data, size)
    ensures r.Success? && size <= b.length ==>
              && Holds(r.value.bytes, size * offset, data, size)
              && Holds(r.value.bytes, b.length + size * offset, data, size)
  {
    AddAt(b, data, size, size * offset)
  }

  /** The three copies of `add`, at byte `at` of each frame. */
  function AddAt(b: Buffer, data: seq<int>, size: nat, at: int): (r: Result<Buffer, Overrun>)
    ensures r.Success? <==> 0 <= at && 2 * b.length + at + size <= |b.bytes| && size <= |data|
    ensures r.Success? ==>
              && r.value.length == b.length && r.value.instances == b.instances
              && |r.value.bytes| == |b.bytes|
              && (forall j :: (&& 0 <= j < |b.bytes|
                               && !(at <= j < at + size)
                               && !(b.length + at <= j < b.length + at + size)
                               && !(2 * b.length + at <= j < 2 * b.length + at + size))
                              ==> r.value.bytes[j] == b.bytes[j])
              && Holds(r.value.bytes, 2 * b.length + at, data, size)
    ensures r.Success? && size <= b.length ==>
              && Holds(r.value.bytes, at, data, size)
              && Holds(r.value.bytes, b.length + at, data, size)
  {
    var first := Copy(b.bytes, at, data, size);
    if first.Failure? then Failure(Overrun)
    else
      var second := Copy(first.value, at + b.length, data, size);
      if second.Failure? then Failure(Overrun)
      else
        var third := Copy(second.value, b.length * 2 + at, data, size);
        if third.Failure? then Failure(Overrun)
        else
          ThreeCopies(b.bytes, first.value, second.value, third.value, at, b.length, data, size);
          Success(b.(bytes := third.value))
  }

  /** Three successive copies of the same data, `length` bytes apart: bytes outside
      the three ranges keep their value, the last range holds the data, and so do
      the first two when the ranges do not overlap. */
  lemma ThreeCopies(b0: seq<int>, b1: seq<int>, b2: seq<int>, b3: seq<int>, at: int, length: nat, data: seq<int>, size: nat)
    requires Copied(b0, b1, at, data, size)
    requires Copied(b1, b2, at + length, data, size)
    requires Copied(b2, b3, length * 2 + at, data, size)
    ensures |b3| == |b0|
    ensures forall j :: (&& 0 <= j < |b0|
                         && !(at <= j < at + size)
                         && !(length + at <= j < length + at + size)
                         && !(2 * length + at <= j < 2 * length + at + size))
                        ==> b3[j] == b0[j]
    ensures Holds(b3, 2 * length + at, data, size)
    ensures size <= length ==> Holds(b3, at, data, size) && Holds(b3, length + at, data, size)
  {
    OutsideKept(b0, b1, b2, b3, at, length, data, size);
    if size <= length {
      HeldBelow(b1, b2, at, at + length, data, size);
      HeldBelow(b2, b3, at, length * 2 + at, data, size);
      HeldBelow(b2, b3, length + at, length * 2 + at, data, size);
    }
  }

  /** Three copies leave the bytes outside their ranges alone. */
  lemma OutsideKept(b0: seq<int>, b1: seq<int>, b2: seq<int>, b3: seq<int>, at: int, length: nat, data: seq<int>, size: nat)
    requires Copied(b0, b1, at, data, size)
    requires Copied(b1, b2, at + length, data, size)
    requires Copied(b2, b3, length * 2 + at, data, size)
    ensures forall j :: (&& 0 <= j < |b0|
                         && !(at <= j < at + size)
                         && !(length + at <= j < length + at + size)
                         && !(2 * length + at <= j < 2 * length + at + size))
                        ==> b3[j] == b0[j]
  {
    forall j | (&& 0 <= j < |b0|
                && !(at <= j < at + size)
                && !(length + at <= j < length + at + size)
                && !(2 * length + at <= j < 2 * length + at + size))
      ensures b3[j] == b0[j]
    {
      assert b1[j] == b0[j];
      assert b2[j] == b1[j];
    }
  }

  /** A copy to `to` keeps data held at `at` in place when it ends by `to`. */
  lemma HeldBelow(before: seq<int>, after: seq<int>, at: int, to: int, data: seq<int>, size: nat)
    requires Holds(before, at, data, size) && at + size <= to
    requires Copied(before, after, to, data, size)
    ensures Holds(after, at, data, size)
  {
    forall p | at <= p < at + size
      ensures after[p] == data[p - at]
    {
      assert after[p] == before[p];
    }
  }

  /** `update(data:size:bufferIndex:offset:)`: `size` bytes at byte `offset` of frame
      `bufferIndex`. */
  function Update(b: Buffer, data: seq<int>, size: nat, bufferIndex: int, offset: int := 0): (r: Result<Buffer, Overrun>)
    ensures r.Success? <==>
              0 <= offset + FrameStart(b, bufferIndex) && offset + FrameStart(b, bufferIndex) + size <= |b.bytes| && size <= |data|
    ensures r.Success? ==>
              && r.value.length == b.length && r.value.instances == b.instances
              && |r.value.bytes| == |b.bytes|
              && Holds(r.value.bytes, FrameStart(b, bufferIndex) + offset, data, size)
              && forall j :: (0 <= j < |b.bytes| && !(FrameStart(b, bufferIndex) + offset <= j < FrameStart(b, bufferIndex) + offset + size))
                               ==> r.value.bytes[j] == b.bytes[j]
  {
    var at := offset + bufferIndex * b.length;
    var copied := Copy(b.bytes, at, data, size);
    if copied.Failure? then Failure(Overrun) else Success(b.(bytes := copied.value))
  }

  /** `nextBuffer(_:)`: the same buffer, and where the frame starts. */
  function NextBuffer(b: Buffer, bufferIndex: int): (r: (Buffer, int))
    ensures r.0 == b
  {
    (b, FrameStart(b, bufferIndex))
  }

  /** Each of a buffer's frames lies inside it, one after the other. */
  lemma NextBufferInside(b: Buffer, bufferIndex: nat)
    requires |b.bytes| == b.length * b.instances && bufferIndex < b.instances
    ensures var offset := NextBuffer(b, bufferIndex).1;
            0 <= offset && offset + b.length <= |b.bytes|
            && (bufferIndex + 1 < b.instances ==> NextBuffer(b, bufferIndex + 1).1 == offset + b.length)
  {
    MulMonotone(bufferIndex + 1, b.instances, b.length);
  }

  lemma MulMonotone(a: nat, b: nat, length: nat)
    requires a <= b
    ensures a * length <= b * length
  {
  }

  /** A buffer with at least three frames takes an `add` that fits in one frame. */
  lemma AddFits(b: Buffer, data: seq<int>, size: nat, offset: nat)
    requires |b.bytes| == b.length * b.instances && b.instances >= BufferSize
    requires size * offset + size <= b.length && size <= |data|
    ensures Add(b, data, size, offset).Success?
  {
    MulMonotone(3, b.instances, b.length);
  }

  /** With fewer than three frames, every non-empty `add` overruns the buffer. */
  lemma AddNeedsThreeFrames(b: Buffer, data: seq<int>, size: nat, offset: int)
    requires |b.bytes| == b.length * b.instances && b.instances < BufferSize
    requires size > 0
    ensures Add(b, data, size, offset).Failure?
  {
    MulMonotone(b.instances, 2, b.length);
  }

  /** An `update` inside its frame stays inside the buffer and leaves every other
      frame as it was. */
  lemma UpdateStaysInFrame(b: Buffer, data: seq<int>, size: nat, bufferIndex: nat, offset: nat)
    requires |b.bytes| == b.length * b.instances
    requires bufferIndex < b.instances && offset + size <= b.length && size <= |data|
    ensures var r := Update(b, data, size, bufferIndex, offset);
            && r.Success?
            && forall j :: (0 <= j < |b.bytes| && !(bufferIndex * b.length <= j < (bufferIndex + 1) * b.length))
                             ==> r.value.bytes[j] == b.bytes[j]
  {
    MulMonotone(bufferIndex + 1, b.instances, b.length);
  }

  /** Data held at `at` within each of the first three frames is seen at `at` from
      whichever of them `nextBuffer` hands out. */
  lemma SeenFromFrame(b: Buffer, at: int, data: seq<int>, size: nat, frame: nat)
    requires Holds(b.bytes, at, data, size)
    requires Holds(b.bytes, b.length + at, data, size)
    requires Holds(b.bytes, 2 * b.length + at, data, size)
    requires frame < 3
    ensures Holds(NextBuffer(b, frame).0.bytes, NextBuffer(b, frame).1 + at, data, size)
  {
    FirstFrames(b);
    if frame == 0 {
    } else if frame == 1 {
    } else {
    }
  }

  /** Where the first three frames start. */
  lemma FirstFrames(b: Buffer)
    ensures FrameStart(b, 0) == 0 && FrameStart(b, 1) == b.length && FrameStart(b, 2) == 2 * b.length
  {
  }
}
