/** The two queues behind `effect_fmq`: Android's, which moves all of a request or none of it,
    and the fallback ring, which moves what it can. */
module Queues {
  import opened Words
  import opened RingBuffers

  datatype Kind = AllOrNothing | Partial

  /** Bytes of a write of `size` bytes that a queue holding `held` takes. */
  function Accepts(kind: Kind, held: nat, cap: nat, size: nat): (n: nat)
    requires held <= cap
    ensures n <= size && held + n <= cap
  {
    match kind
    case AllOrNothing => if held + size <= cap then size else 0
    case Partial => Min(size, cap - held)
  }

  /** Bytes a read of `size` bytes gets. */
  function Gives(kind: Kind, held: nat, size: nat): (n: nat)
    ensures n <= size && n <= held
  {
    match kind
    case AllOrNothing => if size <= held then size else 0
    case Partial => Min(size, held)
  }

  /** A queue of bytes reached through an `EffectFmqHandle`. */
  class EffectFmq {
    const kind: Kind
    const capacity: nat
    var content: seq<byte>

    ghost predicate Valid()
      reads this
    {
      |content| <= capacity
    }

    constructor (kind: Kind, capacity: nat)
      ensures Valid() && content == [] && this.kind == kind && this.capacity == capacity
    {
      this.kind, this.capacity, content := kind, capacity, [];
    }

    method Write(data: seq<byte>) returns (count: nat)
      requires Valid()
      modifies this
      ensures Valid() && count == Accepts(kind, |old(content)|, capacity, |data|)
      ensures kind.AllOrNothing? ==> count == if |old(content)| + |data| <= capacity then |data| else 0
      ensures kind.Partial? ==> count == Min(|data|, capacity - |old(content)|)
      ensures content == old(content) + data[..count]
    {
      if |data| == 0 {
        return 0;
      }
      match kind {
        case AllOrNothing =>
          if |content| + |data| <= capacity {
            content := content + data;
            return |data|;
          }
          return 0;
        case Partial =>
          count := Min(|data|, capacity - |content|);
          content := content + data[..count];
      }
    }

    method Read(size: nat) returns (data: seq<byte>)
      requires Valid()
      modifies this
      ensures Valid() && |data| == Gives(kind, |old(content)|, size)
      ensures kind.AllOrNothing? ==> |data| == if size <= |old(content)| then size else 0
      ensures kind.Partial? ==> |data| == Min(size, |old(content)|)
      ensures old(content) == data + content
    {
      if size == 0 {
        return [];
      }
      match kind {
        case AllOrNothing =>
          if |content| < size {
            return [];
          }
          data, content := content[..size], content[size..];
        case Partial =>
          var n := Min(size, |content|);
          data, content := content[..n], content[n..];
      }
    }

    method AvailableToRead() returns (n: nat)
      ensures n == |content|
    {
      n := |content|;
    }

    method AvailableToWrite() returns (n: nat)
      requires Valid()
      ensures n == capacity - |content|
    {
      n := capacity - |content|;
    }
  }

  /** The fallback implementation: a ring buffer behind the same calls. While the ring's indices
      are in step it is a queue of kind Partial. */
  class FallbackFmq {
    const ring: RingBuffer

    constructor (capacity: nat)
      requires 0 < capacity < POW32
      ensures fresh(ring) && fresh(ring.data) && ring.Valid() && ring.capacity == capacity
      ensures ring.Model().InStep() && ring.Model().Contents() == []
    {
      var buffer := new byte[capacity];
      ring := new RingBuffer(buffer);
    }

    method Write(data: array<byte>, count: nat) returns (written: nat)
      requires ring.Valid() && ring.Model().InStep()
      requires data != ring.data && count <= data.Length && count < POW32
      modifies ring`writeIndex, ring.data
      ensures ring.Valid()
      ensures written == Accepts(Partial, old(|ring.Model().Contents()|), ring.capacity, count)
      ensures ring.Model().Contents() == old(ring.Model().Contents()) + data[..written]
      ensures ring.writeIndex <= old(ring.writeIndex) + written
      ensures DividesWordRange(ring.capacity) || old(ring.writeIndex) + written < POW64 ==> ring.Model().InStep()
    {
      PutAppends(ring.Model(), data[..count]);
      if count == 0 {
        return 0;
      }
      written := ring.Write(data, count);
    }

    method Read(data: array<byte>, count: nat) returns (read: nat)
      requires ring.Valid() && ring.Model().InStep()
      requires data != ring.data && count <= data.Length && count < POW32
      modifies ring`readIndex, data
      ensures ring.Valid()
      ensures read == Gives(Partial, old(|ring.Model().Contents()|), count)
      ensures old(ring.Model().Contents()) == data[..read] + ring.Model().Contents()
      ensures ring.Model().InStep()
    {
      TakeRemoves(ring.Model(), count);
      if count == 0 {
        return 0;
      }
      read := ring.Read(data, count);
    }
  }

  // ----- Runs of one queue -----

  datatype Op = Put(bytes: seq<byte>) | Get(size: nat)

  /** What each call of a run moved: the bytes taken by a write, or got by a read. */
  function Moved(kind: Kind, cap: nat, q: seq<byte>, ops: seq<Op>): (moved: seq<seq<byte>>)
    requires |q| <= cap
    ensures |moved| == |ops|
    decreases |ops|
  {
    if ops == [] then []
    else match ops[0]
      case Put(bytes) =>
        var n := Accepts(kind, |q|, cap, |bytes|);
        [bytes[..n]] + Moved(kind, cap, q + bytes[..n], ops[1..])
      case Get(size) =>
        var n := Gives(kind, |q|, size);
        [q[..n]] + Moved(kind, cap, q[n..], ops[1..])
  }

  /** What a run leaves in the queue. */
  function Left(kind: Kind, cap: nat, q: seq<byte>, ops: seq<Op>): (left: seq<byte>)
    requires |q| <= cap
    ensures |left| <= cap
    decreases |ops|
  {
    if ops == [] then q
    else match ops[0]
      case Put(bytes) => Left(kind, cap, q + bytes[..Accepts(kind, |q|, cap, |bytes|)], ops[1..])
      case Get(size) => Left(kind, cap, q[Gives(kind, |q|, size)..], ops[1..])
  }

  /** The bytes a run put into the queue, in order. */
  function AllPut(ops: seq<Op>, moved: seq<seq<byte>>): seq<byte>
    requires |moved| == |ops|
  {
    if ops == [] then [] else (if ops[0].Put? then moved[0] else []) + AllPut(ops[1..], moved[1..])
  }

  /** The bytes a run got out of it, in order. */
  function AllGot(ops: seq<Op>, moved: seq<seq<byte>>): seq<byte>
    requires |moved| == |ops|
  {
    if ops == [] then [] else (if ops[0].Get? then moved[0] else []) + AllGot(ops[1..], moved[1..])
  }

  /** Conservation: what comes out, followed by what is left, is what was there followed by what
      went in; no byte is lost, repeated or reordered. */
  lemma {:induction false} RunConserves(kind: Kind, cap: nat, q: seq<byte>, ops: seq<Op>)
    requires |q| <= cap
    ensures var moved := Moved(kind, cap, q, ops);
      q + AllPut(ops, moved) == AllGot(ops, moved) + Left(kind, cap, q, ops)
    decreases |ops|
  {
    if ops != [] {
      var moved, rest := Moved(kind, cap, q, ops), ops[1..];
      var q' := match ops[0] {
        case Put(bytes) => q + bytes[..Accepts(kind, |q|, cap, |bytes|)]
        case Get(size) => q[Gives(kind, |q|, size)..]
      };
      RunConserves(kind, cap, q', rest);
      assert moved[1..] == Moved(kind, cap, q', rest);
      var puts, gots, left := AllPut(rest, moved[1..]), AllGot(rest, moved[1..]), Left(kind, cap, q', rest);
      hide Moved, Left, AllPut, AllGot;
      Regroup(q, moved[0], q', puts, gots, left);
    } else {
      assert q + [] == [] + q;
    }
  }

  lemma Regroup(q: seq<byte>, m: seq<byte>, q': seq<byte>, puts: seq<byte>, gots: seq<byte>, left: seq<byte>)
    requires q' + puts == gots + left
    ensures q' == q + m ==> q + (m + puts) == ([] + gots) + left
    ensures q == m + q' ==> q + ([] + puts) == (m + gots) + left
  {
    assert (q + m) + puts == q + (m + puts) && [] + gots == gots && [] + puts == puts;
    assert (m + q') + puts == m + (q' + puts) && m + (gots + left) == (m + gots) + left;
  }

  /** Performing a run on a queue moves what Moved says and leaves what Left says. */
  method Perform(fmq: EffectFmq, ops: seq<Op>) returns (moved: seq<seq<byte>>)
    requires fmq.Valid()
    modifies fmq
    ensures fmq.Valid()
    ensures moved == Moved(fmq.kind, fmq.capacity, old(fmq.content), ops)
    ensures fmq.content == Left(fmq.kind, fmq.capacity, old(fmq.content), ops)
    decreases |ops|
  {
    if ops == [] {
      return [];
    }
    var first: seq<byte>;
    match ops[0] {
      case Put(bytes) =>
        var n := fmq.Write(bytes);
        first := bytes[..n];
      case Get(size) =>
        first := fmq.Read(size);
    }
    var rest := Perform(fmq, ops[1..]);
    moved := [first] + rest;
  }

  /** Bytes offered to the queue by a run. */
  function OfferedBy(ops: seq<Op>): nat {
    if ops == [] then 0 else (if ops[0].Put? then |ops[0].bytes| else 0) + OfferedBy(ops[1..])
  }

  /** The same of the ring behind the fallback handle, as a queue of kind Partial: for ever if its
      capacity divides 2^64, and otherwise while its write index has not wrapped. */
  method PerformOnRing(fmq: FallbackFmq, ops: seq<Op>) returns (moved: seq<seq<byte>>)
    requires fmq.ring.Valid() && fmq.ring.Model().InStep()
    requires DividesWordRange(fmq.ring.capacity) || fmq.ring.writeIndex + OfferedBy(ops) < POW64
    requires forall k :: 0 <= k < |ops| ==> SizeOf(ops[k]) < POW32
    modifies fmq.ring, fmq.ring.data
    ensures fmq.ring.Valid() && fmq.ring.Model().InStep()
    ensures moved == Moved(Partial, fmq.ring.capacity, old(fmq.ring.Model().Contents()), ops)
    ensures fmq.ring.Model().Contents() == Left(Partial, fmq.ring.capacity, old(fmq.ring.Model().Contents()), ops)
    decreases |ops|
  {
    if ops == [] {
      return [];
    }
    assert SizeOf(ops[0]) < POW32;
    var first: seq<byte>;
    match ops[0] {
      case Put(bytes) =>
        var data := new byte[|bytes|](i requires 0 <= i < |bytes| => bytes[i]);
        assert data[..] == bytes;
        var n := fmq.Write(data, |bytes|);
        first := data[..n];
      case Get(size) =>
        var data := new byte[size];
        var n := fmq.Read(data, size);
        first := data[..n];
    }
    var rest := PerformOnRing(fmq, ops[1..]);
    moved := [first] + rest;
  }

  function SizeOf(op: Op): nat {
    match op
    case Put(bytes) => |bytes|
    case Get(size) => size
  }

  /** Every call of the run moves blocks of `block` bytes. */
  predicate InBlocks(ops: seq<Op>, block: nat) {
    forall i :: 0 <= i < |ops| ==> SizeOf(ops[i]) == block
  }

  lemma MultiplesStayApart(a: nat, b: nat, d: nat)
    requires 0 < d && Pos(a, d) == 0 && Pos(b, d) == 0 && a < b
    ensures a + d <= b
  {
    PosAdd(a, Min(b - a, d), d);
  }

  lemma MultiplesSubtract(a: nat, b: nat, d: nat)
    requires 0 < d && Pos(a, d) == 0 && Pos(b, d) == 0 && a <= b
    ensures Pos(b - a, d) == 0
  {
    PosAddMultiple(b - a, a, d);
  }

  /** On whole blocks, with a capacity of whole blocks, the two kinds do the same. */
  lemma KindsAgreeOnBlock(held: nat, cap: nat, block: nat)
    requires 0 < block && held <= cap && Pos(held, block) == 0 && Pos(cap, block) == 0
    ensures Accepts(Partial, held, cap, block) == Accepts(AllOrNothing, held, cap, block)
    ensures Pos(held + Accepts(AllOrNothing, held, cap, block), block) == 0
    ensures Gives(Partial, held, block) == Gives(AllOrNothing, held, block)
    ensures Pos(held - Gives(AllOrNothing, held, block), block) == 0
  {
    if held < cap { MultiplesStayApart(held, cap, block); }
    if 0 < held { MultiplesStayApart(0, held, block); }
    PosAdd(held, block, block);
  }

  lemma {:induction false} BlockRunsAgree(cap: nat, block: nat, q: seq<byte>, ops: seq<Op>)
    requires 0 < block && |q| <= cap && Pos(|q|, block) == 0 && Pos(cap, block) == 0
    requires InBlocks(ops, block)
    ensures Moved(Partial, cap, q, ops) == Moved(AllOrNothing, cap, q, ops)
    decreases |ops|
  {
    if ops != [] {
      assert SizeOf(ops[0]) == block;
      KindsAgreeOnBlock(|q|, cap, block);
      match ops[0]
      case Put(bytes) =>
        BlockRunsAgree(cap, block, q + bytes[..Accepts(AllOrNothing, |q|, cap, block)], ops[1..]);
      case Get(size) =>
        BlockRunsAgree(cap, block, q[Gives(AllOrNothing, |q|, block)..], ops[1..]);
    }
  }

  /** Filling a queue whose capacity is not a whole number of blocks ends in a torn write. */
  lemma {:induction false} FillingTears(cap: nat, block: nat, q: seq<byte>, bytes: seq<byte>) returns (ops: seq<Op>)
    requires 0 < block == |bytes| && |q| <= cap && Pos(|q|, block) == 0 && Pos(cap, block) != 0
    ensures InBlocks(ops, block) && Moved(Partial, cap, q, ops) != Moved(AllOrNothing, cap, q, ops)
    decreases cap - |q|
  {
    if |q| + block > cap {
      ops := [Put(bytes)];
      assert Moved(Partial, cap, q, ops)[0] == bytes[..cap - |q|];
      assert Moved(AllOrNothing, cap, q, ops)[0] == [];
    } else {
      PosAdd(|q|, block, block);
      var more := FillingTears(cap, block, q + bytes, bytes);
      ops := [Put(bytes)] + more;
      assert ops[0] == Put(bytes) && ops[1..] == more && bytes[..block] == bytes;
      assert Moved(Partial, cap, q, ops)[1..] == Moved(Partial, cap, q + bytes, more);
      assert Moved(AllOrNothing, cap, q, ops)[1..] == Moved(AllOrNothing, cap, q + bytes, more);
    }
  }

  /** The fallback queue is the Android queue, for every run of block-sized calls, exactly when
      a whole number of blocks fits. */
  lemma FallbackIsAndroidIff(cap: nat, block: nat)
    requires 0 < block
    ensures (forall ops :: InBlocks(ops, block) ==> Moved(Partial, cap, [], ops) == Moved(AllOrNothing, cap, [], ops))
      <==> cap % block == 0
  {
    PosIsRemainder(cap, block);
    if cap % block == 0 {
      forall ops | InBlocks(ops, block) ensures Moved(Partial, cap, [], ops) == Moved(AllOrNothing, cap, [], ops) {
        BlockRunsAgree(cap, block, [], ops);
      }
    } else {
      var ops := FillingTears(cap, block, [], seq(block, i => 0));
    }
  }

  /** Whole frames in, whole frames out: if frames fill the capacity exactly, no partial
      transfer of the fallback ever splits one. */
  lemma {:induction false} FramesStayWhole(cap: nat, frame: nat, q: seq<byte>, ops: seq<Op>, i: nat)
    requires 0 < frame && |q| <= cap && Pos(|q|, frame) == 0 && Pos(cap, frame) == 0
    requires forall k :: 0 <= k < |ops| ==> Pos(SizeOf(ops[k]), frame) == 0
    requires i < |Moved(Partial, cap, q, ops)|
    ensures Pos(|Moved(Partial, cap, q, ops)[i]|, frame) == 0
    decreases |ops|
  {
    assert Pos(SizeOf(ops[0]), frame) == 0;
    MultiplesSubtract(|q|, cap, frame);
    match ops[0]
    case Put(bytes) =>
      var n := Min(|bytes|, cap - |q|);
      PosAddMultiple(|q|, n, frame);
      if i > 0 { FramesStayWhole(cap, frame, q + bytes[..n], ops[1..], i - 1); }
    case Get(size) =>
      var n := Min(size, |q|);
      MultiplesSubtract(n, |q|, frame);
      if i > 0 { FramesStayWhole(cap, frame, q[n..], ops[1..], i - 1); }
  }

  /** Every call of the run moves whole frames. */
  predicate InFrames(ops: seq<Op>, frame: nat)
    requires 0 < frame
  {
    forall k :: 0 <= k < |ops| ==> Pos(SizeOf(ops[k]), frame) == 0
  }

  predicate SplitsNone(moved: seq<seq<byte>>, frame: nat)
    requires 0 < frame
  {
    forall i :: 0 <= i < |moved| ==> Pos(|moved[i]|, frame) == 0
  }

  /** Filling a queue frame by frame, when frames do not fill it, ends in a split frame. */
  lemma {:induction false} FillingSplits(cap: nat, q: seq<byte>, frame: seq<byte>) returns (ops: seq<Op>)
    requires 0 < |frame| && |q| <= cap && Pos(|q|, |frame|) == 0 && Pos(cap, |frame|) != 0
    ensures InBlocks(ops, |frame|) && !SplitsNone(Moved(Partial, cap, q, ops), |frame|)
    decreases cap - |q|
  {
    if |q| + |frame| > cap {
      ops := [Put(frame)];
      var moved := Moved(Partial, cap, q, ops);
      assert moved[0] == frame[..cap - |q|];
      PosAddMultiple(cap - |q|, |q|, |frame|);
      assert Pos(|moved[0]|, |frame|) != 0;
    } else {
      PosAdd(|q|, |frame|, |frame|);
      var more := FillingSplits(cap, q + frame, frame);
      ops := [Put(frame)] + more;
      var moved := Moved(Partial, cap, q, ops);
      assert ops[0] == Put(frame) && ops[1..] == more && frame[..|frame|] == frame;
      assert moved[1..] == Moved(Partial, cap, q + frame, more);
      var i :| 0 <= i < |moved[1..]| && Pos(|moved[1..][i]|, |frame|) != 0;
      assert moved[1..][i] == moved[i + 1];
    }
  }

  /** No partial transfer of the fallback ever splits a frame, over all runs of whole-frame calls,
      exactly when frames fill the capacity. */
  lemma FramesStayWholeIff(cap: nat, frame: nat)
    requires 0 < frame
    ensures (forall ops :: InFrames(ops, frame) ==> SplitsNone(Moved(Partial, cap, [], ops), frame))
      <==> cap % frame == 0
  {
    PosIsRemainder(cap, frame);
    if cap % frame == 0 {
      forall ops, i | InFrames(ops, frame) && 0 <= i < |Moved(Partial, cap, [], ops)|
        ensures Pos(|Moved(Partial, cap, [], ops)[i]|, frame) == 0
      {
        FramesStayWhole(cap, frame, [], ops, i);
      }
    } else {
      var ops := FillingSplits(cap, [], seq(frame, i => 0));
      assert Pos(frame, frame) == 0;
      assert InFrames(ops, frame);
    }
  }

  /** `calculate_bytes_per_frame`: every format but 16 counts four bytes a sample. */
  function BytesPerFrame(channels: nat, format: nat): nat {
    channels * (if format == 16 then 2 else 4)
  }

  /** The documented set-up, 480 stereo 16-bit frames a call over 1 MiB: 546 blocks fit, 256 bytes
      are left over, and some run of block-sized calls tears a block, though never a frame. */
  lemma DefaultSetupTearsBlocks()
    ensures var cap, frame := 1048576, BytesPerFrame(2, 16);
      && 480 * frame == 1920 && cap / 1920 == 546 && cap % 1920 == 256
      && !(forall ops :: InBlocks(ops, 1920) ==> Moved(Partial, cap, [], ops) == Moved(AllOrNothing, cap, [], ops))
      && (forall ops :: InFrames(ops, frame) ==> SplitsNone(Moved(Partial, cap, [], ops), frame))
  {
    hide Moved, InFrames, SplitsNone, InBlocks;
    FallbackIsAndroidIff(1048576, 1920);
    FramesStayWholeIff(1048576, 4);
  }

  /** So does the same set-up in any wider format, 24-bit and 32-bit alike: 273 blocks fit and 256
      bytes are left over. */
  lemma WiderFormatsTearBlocks(format: nat)
    requires format != 16
    ensures var cap, frame := 1048576, BytesPerFrame(2, format);
      && 480 * frame == 3840 && cap / 3840 == 273 && cap % 3840 == 256
      && !(forall ops :: InBlocks(ops, 3840) ==> Moved(Partial, cap, [], ops) == Moved(AllOrNothing, cap, [], ops))
      && (forall ops :: InFrames(ops, frame) ==> SplitsNone(Moved(Partial, cap, [], ops), frame))
  {
    hide Moved, InFrames, SplitsNone, InBlocks;
    FallbackIsAndroidIff(1048576, 3840);
    FramesStayWholeIff(1048576, 8);
  }

  /** With three channels frames are split too, in every format. */
  lemma ThreeChannelsSplitFrames(format: nat)
    ensures var frame := BytesPerFrame(3, format);
      && frame == (if format == 16 then 6 else 12)
      && !(forall ops :: InFrames(ops, frame) ==> SplitsNone(Moved(Partial, 1048576, [], ops), frame))
  {
    hide Moved, InFrames, SplitsNone;
    FramesStayWholeIff(1048576, 6);
    FramesStayWholeIff(1048576, 12);
  }
}
