/** The ring buffer as one thread at a time sees it: a value model of its words and bytes,
    the imperative code proved against it, and exactly when it is a byte FIFO. */
module RingBuffers {
  import opened Words

  /** The bytes of a ring buffer and its two free-running 64-bit indices. */
  datatype Ring = Ring(data: seq<byte>, w: nat, r: nat) {
    ghost predicate Valid() {
      && 0 < |data| < POW32
      && w < POW64
      && r < POW64
      && Sub64(w, r) <= |data|
    }

    function Used(): nat
      requires Valid()
    {
      U32(Sub64(w, r))
    }

    function Room(): nat
      requires Valid()
    {
      Sub32(|data|, Used())
    }

    /** Held bytes, oldest first. */
    function Contents(): seq<byte>
      requires Valid()
    {
      Window(data, Pos(r, |data|), Used())
    }

    /** What `effect_ringbuffer_write` leaves behind. */
    function Put(bytes: seq<byte>): Ring
      requires Valid()
    {
      var n := Min(|bytes|, Room());
      Ring(CopyIn(data, Pos(w, |data|), bytes[..n]), Add64(w, n), r)
    }

    /** What `effect_ringbuffer_read` leaves behind, and what it returns. */
    function Take(size: nat): (Ring, seq<byte>)
      requires Valid()
    {
      var n := Min(size, Used());
      (Ring(data, w, Add64(r, n)), Window(data, Pos(r, |data|), n))
    }

    /** The two indices count the same revolution, or the capacity makes revolutions irrelevant. */
    ghost predicate InStep() {
      0 < |data| && (DividesWordRange(|data|) || r <= w)
    }
  }

  /** The `n` bytes from position `pos` on, wrapping at the end. */
  function Window(data: seq<byte>, pos: nat, n: nat): (bytes: seq<byte>)
    requires pos < |data| && n <= |data|
    ensures |bytes| == n
  {
    seq(n, i requires 0 <= i < n => data[Wrap(pos, i, |data|)])
  }

  /** The buffer after `src` is copied in from position `pos` on, wrapping at the end. */
  function CopyIn(data: seq<byte>, pos: nat, src: seq<byte>): (after: seq<byte>)
    requires pos < |data| && |src| <= |data|
    ensures |after| == |data|
  {
    seq(|data|, j requires 0 <= j < |data| =>
      var k := if j >= pos then j - pos else j + (|data| - pos);
      if k < |src| then src[k] else data[j])
  }

  /** Copying in right after a window extends that window and disturbs none of it. */
  lemma CopyExtendsWindow(data: seq<byte>, pos: nat, n: nat, src: seq<byte>)
    requires pos < |data| && n + |src| <= |data|
    ensures Window(CopyIn(data, Wrap(pos, n, |data|), src), pos, n + |src|) == Window(data, pos, n) + src
  {
  }

  lemma WindowSplits(data: seq<byte>, pos: nat, n: nat, m: nat)
    requires pos < |data| && n + m <= |data|
    ensures Window(data, pos, n + m) == Window(data, pos, n) + Window(data, Wrap(pos, n, |data|), m)
  {
  }

  lemma WritePosition(ring: Ring)
    requires ring.Valid() && ring.InStep()
    ensures Pos(ring.w, |ring.data|) == Wrap(Pos(ring.r, |ring.data|), ring.Used(), |ring.data|)
  {
    PositionAfter(ring.r, ring.Used(), |ring.data|);
  }

  /** `effect_ringbuffer_write` appends the longest prefix that fits. */
  lemma PutAppends(ring: Ring, bytes: seq<byte>)
    requires ring.Valid() && ring.InStep()
    ensures var n := Min(|bytes|, |ring.data| - |ring.Contents()|);
      && ring.Put(bytes).Valid()
      && ring.Put(bytes).Contents() == ring.Contents() + bytes[..n]
      && (DividesWordRange(|ring.data|) || ring.w + n < POW64 ==> ring.Put(bytes).InStep())
  {
    var n := Min(|bytes|, ring.Room());
    WritePosition(ring);
    CopyExtendsWindow(ring.data, Pos(ring.r, |ring.data|), ring.Used(), bytes[..n]);
  }

  /** `effect_ringbuffer_read` removes and returns the longest held prefix up to the size. */
  lemma TakeRemoves(ring: Ring, size: nat)
    requires ring.Valid() && ring.InStep()
    ensures var n := Min(size, |ring.Contents()|);
      && ring.Take(size).1 == ring.Contents()[..n]
      && ring.Take(size).0.Valid()
      && ring.Take(size).0.InStep()
      && ring.Take(size).0.Contents() == ring.Contents()[n..]
  {
    var n := Min(size, ring.Used());
    PositionAfter(ring.r, n, |ring.data|);
    WindowSplits(ring.data, Pos(ring.r, |ring.data|), n, ring.Used() - n);
  }

  // ----- Sequences of calls, against a bounded FIFO -----

  datatype Op = Write(bytes: seq<byte>) | Read(size: nat)
  datatype Reply = Wrote(count: nat) | Got(bytes: seq<byte>)

  function Next(ring: Ring, op: Op): Ring
    requires ring.Valid()
  {
    match op
    case Write(bytes) => ring.Put(bytes)
    case Read(size) => ring.Take(size).0
  }

  function Answer(ring: Ring, op: Op): Reply
    requires ring.Valid()
  {
    match op
    case Write(bytes) => Wrote(Min(|bytes|, ring.Room()))
    case Read(size) => Got(ring.Take(size).1)
  }

  function Replies(ring: Ring, ops: seq<Op>): seq<Reply>
    requires ring.Valid()
    decreases |ops|
  {
    if ops == [] then []
    else
      NextIsValid(ring, ops[0]);
      [Answer(ring, ops[0])] + Replies(Next(ring, ops[0]), ops[1..])
  }

  lemma NextIsValid(ring: Ring, op: Op)
    requires ring.Valid()
    ensures Next(ring, op).Valid() && |Next(ring, op).data| == |ring.data|
  {
  }

  /** The reference: a queue that takes what fits and gives what it has, in order. */
  function FifoNext(q: seq<byte>, cap: nat, op: Op): seq<byte>
    requires |q| <= cap
  {
    match op
    case Write(bytes) => q + bytes[..Min(|bytes|, cap - |q|)]
    case Read(size) => q[Min(size, |q|)..]
  }

  function FifoAnswer(q: seq<byte>, cap: nat, op: Op): Reply
    requires |q| <= cap
  {
    match op
    case Write(bytes) => Wrote(Min(|bytes|, cap - |q|))
    case Read(size) => Got(q[..Min(size, |q|)])
  }

  function FifoReplies(q: seq<byte>, cap: nat, ops: seq<Op>): seq<Reply>
    requires |q| <= cap
    decreases |ops|
  {
    if ops == [] then []
    else [FifoAnswer(q, cap, ops[0])] + FifoReplies(FifoNext(q, cap, ops[0]), cap, ops[1..])
  }

  /** Bytes offered to the buffer by a sequence of calls. */
  function Offered(ops: seq<Op>): nat {
    if ops == [] then 0
    else (if ops[0].Write? then |ops[0].bytes| else 0) + Offered(ops[1..])
  }

  /** One call answers as the FIFO does; the write index moves on by at most what was offered. */
  lemma CallAsFifo(ring: Ring, op: Op)
    requires ring.Valid() && ring.InStep()
    requires DividesWordRange(|ring.data|) || ring.w + Offered([op]) < POW64
    ensures Answer(ring, op) == FifoAnswer(ring.Contents(), |ring.data|, op)
    ensures Next(ring, op).Valid() && Next(ring, op).InStep() && |Next(ring, op).data| == |ring.data|
    ensures Next(ring, op).Contents() == FifoNext(ring.Contents(), |ring.data|, op)
    ensures ring.w + Offered([op]) < POW64 ==> Next(ring, op).w <= ring.w + Offered([op])
  {
    match op {
      case Write(bytes) => PutAppends(ring, bytes);
      case Read(size) => TakeRemoves(ring, size);
    }
  }

  /** Every sequence of calls gets a FIFO's replies: for ever if the capacity divides 2^64,
      and otherwise while the write index has not wrapped. */
  lemma {:induction false} RingRepliesAsFifo(ring: Ring, ops: seq<Op>)
    requires ring.Valid() && ring.InStep()
    requires DividesWordRange(|ring.data|) || ring.w + Offered(ops) < POW64
    ensures Replies(ring, ops) == FifoReplies(ring.Contents(), |ring.data|, ops)
    decreases |ops|
  {
    if ops != [] {
      assert Offered(ops) == Offered([ops[0]]) + Offered(ops[1..]);
      CallAsFifo(ring, ops[0]);
      hide Offered, Next, Answer, FifoNext, FifoAnswer;
      RingRepliesAsFifo(Next(ring, ops[0]), ops[1..]);
    }
  }

  /** From here on, every sequence of calls gets the replies of a FIFO holding `q`. */
  ghost predicate AlwaysFifo(ring: Ring, q: seq<byte>)
    requires ring.Valid() && |q| <= |ring.data|
  {
    forall ops: seq<Op> :: Replies(ring, ops) == FifoReplies(q, |ring.data|, ops)
  }

  lemma AfterOne(ring: Ring, q: seq<byte>, op: Op)
    requires ring.Valid() && |q| <= |ring.data| && AlwaysFifo(ring, q)
    ensures Next(ring, op).Valid() && |Next(ring, op).data| == |ring.data|
    ensures Answer(ring, op) == FifoAnswer(q, |ring.data|, op)
    ensures AlwaysFifo(Next(ring, op), FifoNext(q, |ring.data|, op))
  {
    NextIsValid(ring, op);
    forall ops: seq<Op>
      ensures Answer(ring, op) == FifoAnswer(q, |ring.data|, op)
      ensures Replies(Next(ring, op), ops) == FifoReplies(FifoNext(q, |ring.data|, op), |ring.data|, ops)
    {
      var all := [op] + ops;
      assert all[0] == op && all[1..] == ops;
      assert Replies(ring, all) == FifoReplies(q, |ring.data|, all);
      assert Replies(ring, all)[0] == Answer(ring, op);
      assert Replies(ring, all)[1..] == Replies(Next(ring, op), ops);
      assert FifoReplies(q, |ring.data|, all)[1..] == FifoReplies(FifoNext(q, |ring.data|, op), |ring.data|, ops);
    }
    assert [op][0] == op && Replies(ring, [op]) == FifoReplies(q, |ring.data|, [op]);
    assert Replies(ring, [op])[0] == Answer(ring, op);
  }

  /** One-byte writes and reads walk both indices to any value, keeping the buffer empty. */
  lemma {:induction false} WalkTo(ring: Ring, n: nat) returns (there: Ring)
    requires ring.Valid() && ring.w == ring.r <= n < POW64 && AlwaysFifo(ring, [])
    ensures there.Valid() && |there.data| == |ring.data|
    ensures there.w == there.r == n && AlwaysFifo(there, [])
    decreases n - ring.w
  {
    if ring.w == n {
      there := ring;
    } else {
      var cap := |ring.data|;
      var full := Next(ring, Write([0]));
      AfterOne(ring, [], Write([0]));
      assert FifoNext([], cap, Write([0])) == [0];
      AfterOne(full, [0], Read(1));
      assert FifoNext([0], cap, Read(1)) == [];
      there := WalkTo(Next(full, Read(1)), n);
    }
  }

  /** Two bytes written just below the wrap come back wrong when the capacity does not divide 2^64. */
  lemma WrapBreaksFifo(ring: Ring)
    requires ring.Valid() && !DividesWordRange(|ring.data|)
    requires ring.w == ring.r == POW64 - 1
    ensures !AlwaysFifo(ring, [])
  {
    if AlwaysFifo(ring, []) {
      var cap := |ring.data|;
      PosAdd(POW64 - 1, 1, cap);
      var p := Pos(POW64 - 1, cap);
      // The second byte goes to slot p + 1, but its index is 0; make slot 0 hold something else.
      var b: byte := if p == 0 || ring.data[0] == 0 then 1 else 0;
      var two := Next(ring, Write([0, b]));
      AfterOne(ring, [], Write([0, b]));
      assert FifoNext([], cap, Write([0, b])) == [0, b];
      var one := Next(two, Read(1));
      AfterOne(two, [0, b], Read(1));
      assert FifoNext([0, b], cap, Read(1)) == [b];
      assert two.data[0] != b && Answer(one, Read(1)) == Got([two.data[0]]);
      assert FifoAnswer([b], cap, Read(1)) == Got([b]);
      AfterOne(one, [b], Read(1));
    }
  }

  /** The buffer is a FIFO for every sequence of calls exactly when its capacity divides 2^64:
      the power of two that the header recommends for speed is needed for correctness. */
  lemma FifoIffCapacityDivides(data: seq<byte>)
    requires 0 < |data| < POW32
    ensures AlwaysFifo(Ring(data, 0, 0), []) <==> POW64 % |data| == 0
  {
    PosIsRemainder(POW64, |data|);
    var ring := Ring(data, 0, 0);
    if DividesWordRange(|data|) {
      forall ops ensures Replies(ring, ops) == FifoReplies([], |data|, ops) {
        assert ring.Contents() == [];
        RingRepliesAsFifo(ring, ops);
      }
    } else if AlwaysFifo(ring, []) {
      var edge := WalkTo(ring, POW64 - 1);
      WrapBreaksFifo(edge);
    }
  }

  // ----- The code -----

  /** `memcpy` between two different arrays. */
  method MemCpy(dst: array<byte>, at: nat, src: array<byte>, start: nat, count: nat)
    requires dst != src && at + count <= dst.Length && start + count <= src.Length
    modifies dst
    ensures dst[..] == old(dst[..at]) + src[start..start + count] + old(dst[at + count..])
  {
    for k := 0 to count
      invariant dst[..at] == old(dst[..at]) && dst[at + count..] == old(dst[at + count..])
      invariant dst[at..at + k] == src[start..start + k]
    {
      dst[at + k] := src[start + k];
    }
    assert dst[..] == dst[..at] + dst[at..at + count] + dst[at + count..];
  }

  class RingBuffer {
    const capacity: nat
    const data: array<byte>
    var writeIndex: nat
    var readIndex: nat

    ghost predicate Valid()
      reads this, data
    {
      data.Length == capacity && Model().Valid()
    }

    ghost function Model(): Ring
      reads this, data
    {
      Ring(data[..], writeIndex, readIndex)
    }

    constructor (data: array<byte>)
      requires 0 < data.Length < POW32
      ensures this.data == data && capacity == data.Length
      ensures Valid() && Model() == Ring(data[..], 0, 0) && Model().Contents() == []
    {
      this.data := data;
      capacity := data.Length;
      writeIndex, readIndex := 0, 0;
    }

    method GetReadAvailable() returns (available: nat)
      requires Valid()
      ensures available == |Model().Contents()|
    {
      available := U32(Sub64(writeIndex, readIndex));
    }

    method GetWriteAvailable() returns (available: nat)
      requires Valid()
      ensures available == capacity - |Model().Contents()|
    {
      var used := U32(Sub64(writeIndex, readIndex));
      available := Sub32(capacity, used);
    }

    method Position(index: nat) returns (pos: nat)
      requires Valid()
      ensures pos == Pos(index, capacity)
    {
      pos := index % capacity;
      PosIsRemainder(index, capacity);
    }

    /** The one or two `memcpy` calls of a write. */
    method CopyToData(pos: nat, src: array<byte>, count: nat)
      requires src != data && pos < data.Length == capacity && count <= src.Length && count <= capacity
      modifies data
      ensures data[..] == CopyIn(old(data[..]), pos, src[..count])
    {
      var contiguous := capacity - pos;
      if count <= contiguous {
        MemCpy(data, pos, src, 0, count);
      } else {
        MemCpy(data, pos, src, 0, contiguous);
        MemCpy(data, 0, src, contiguous, count - contiguous);
      }
      CopyInBySegments(old(data[..]), pos, src[..], count, data[..]);
    }

    /** The one or two `memcpy` calls of a read. */
    method CopyFromData(pos: nat, dst: array<byte>, count: nat)
      requires dst != data && pos < data.Length == capacity && count <= dst.Length && count <= capacity
      modifies dst
      ensures dst[..] == Window(data[..], pos, count) + old(dst[..])[count..]
    {
      var contiguous := capacity - pos;
      if count <= contiguous {
        MemCpy(dst, 0, data, pos, count);
      } else {
        MemCpy(dst, 0, data, pos, contiguous);
        MemCpy(dst, contiguous, data, 0, count - contiguous);
      }
      WindowBySegments(data[..], pos, count, old(dst[..]), dst[..]);
    }

    /** Appends the longest prefix that fits, and changes nothing else. */
    method Write(src: array<byte>, size: nat) returns (written: nat)
      requires Valid() && src != data && size <= src.Length && size < POW32
      modifies this`writeIndex, data
      ensures Valid() && Model() == old(Model()).Put(src[..size])
      ensures written == Min(size, capacity - old(|Model().Contents()|))
      ensures old(Model().InStep()) ==> Model().Contents() == old(Model().Contents()) + src[..written]
    {
      hide Pos, CopyIn, Window;
      ghost var before := Model();
      ghost var bytes := src[..size];
      if before.InStep() { PutAppends(before, bytes); }
      if size == 0 {
        PutNothing(before, bytes);
        return 0;
      }
      var available := Sub32(capacity, U32(Sub64(writeIndex, readIndex)));
      var toWrite := if size < available then size else available;
      assert toWrite == Min(size, before.Room());
      if toWrite == 0 {
        PutNothing(before, bytes);
        return 0;
      }
      var pos := Position(writeIndex);
      assert bytes[..toWrite] == src[..toWrite];
      CopyToData(pos, src, toWrite);
      writeIndex := Add64(writeIndex, toWrite);
      return toWrite;
    }

    /** Removes and returns the longest held prefix up to the size, and changes nothing else. */
    method Read(dst: array<byte>, size: nat) returns (read: nat)
      requires Valid() && dst != data && size <= dst.Length && size < POW32
      modifies this`readIndex, dst
      ensures Valid() && Model() == old(Model()).Take(size).0
      ensures read == Min(size, old(|Model().Contents()|))
      ensures dst[..] == old(Model()).Take(size).1 + old(dst[..])[read..]
      ensures old(Model().InStep()) ==>
        dst[..read] + Model().Contents() == old(Model().Contents())
    {
      ghost var before := Model();
      ghost var was := dst[..];
      if before.InStep() { TakeRemoves(before, size); }
      if size == 0 {
        return 0;
      }
      var available := U32(Sub64(writeIndex, readIndex));
      var toRead := if size < available then size else available;
      if toRead == 0 {
        return 0;
      }
      var pos := Position(readIndex);
      CopyFromData(pos, dst, toRead);
      readIndex := Add64(readIndex, toRead);
      return toRead;
    }

    method Reset()
      requires Valid()
      modifies this
      ensures Valid() && Model() == Ring(data[..], 0, 0) && Model().Contents() == []
    {
      writeIndex := 0;
      readIndex := 0;
    }
  }

  /** The one- or two-segment copy of the code is CopyIn. */
  lemma CopyInBySegments(was: seq<byte>, pos: nat, src: seq<byte>, count: nat, after: seq<byte>)
    requires pos < |was| && count <= |was| && count <= |src|
    requires var k := |was| - pos;
      if count <= k then after == was[..pos] + src[0..0 + count] + was[pos + count..]
      else
        var mid := was[..pos] + src[0..0 + k] + was[pos + k..];
        after == mid[..0] + src[k..k + (count - k)] + mid[0 + (count - k)..]
    ensures after == CopyIn(was, pos, src[..count])
  {
  }

  /** The one- or two-segment copy out of the code is a Window. */
  lemma WindowBySegments(data: seq<byte>, pos: nat, count: nat, was: seq<byte>, after: seq<byte>)
    requires pos < |data| && count <= |data| && count <= |was|
    requires var k := |data| - pos;
      if count <= k then after == was[..0] + data[pos..pos + count] + was[0 + count..]
      else
        var mid := was[..0] + data[pos..pos + k] + was[0 + k..];
        after == mid[..k] + data[0..0 + (count - k)] + mid[k + (count - k)..]
    ensures after == Window(data, pos, count) + was[count..]
  {
  }

  lemma PutNothing(ring: Ring, bytes: seq<byte>)
    requires ring.Valid() && Min(|bytes|, ring.Room()) == 0
    ensures ring.Put(bytes) == ring
  {
    assert CopyIn(ring.data, Pos(ring.w, |ring.data|), []) == ring.data;
  }
}
