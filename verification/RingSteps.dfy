/** The ring buffer as a concurrent protocol: one producer and one consumer whose loads, byte
    copies and index stores interleave freely. A load of the other side's index may return any
    value no older than the last one its thread saw, and the bytes of a copy move in any order. */
module RingSteps {
  import opened Words
  import RingBuffers

  datatype Producer =
    | PIdle
    | POwned(src: seq<byte>, own: nat)
    | PCopying(bytes: seq<byte>, at: nat, done: set<nat>)

  datatype Consumer =
    | CIdle
    | CPeered(size: nat, peer: nat)
    | CCopying(count: nat, from: nat, got: map<nat, byte>)

  /** `w` and `r` are the shared 64-bit indices. `seenR` and `seenW` are the counts behind the
      last index each thread loaded from the other. `accepted` and `taken` record the bytes
      of all completed writes and reads. */
  datatype State = State(
    data: seq<byte>, w: nat, r: nat,
    producer: Producer, seenR: nat,
    consumer: Consumer, seenW: nat,
    accepted: seq<byte>, taken: seq<byte>)

  datatype Event =
    | WriteCall(src: seq<byte>)
    | LoadReadIndex(snap: nat)
    | StoreByte(k: nat)
    | PublishWrite
    | CheckRoom(snap: nat)
    | ReadCall(size: nat, snap: nat)
    | LoadOwnReadIndex
    | LoadByte(k: nat)
    | PublishRead
    | CheckHeld(snap: nat)

  predicate ByProducer(e: Event) {
    e.WriteCall? || e.LoadReadIndex? || e.StoreByte? || e.PublishWrite? || e.CheckRoom?
  }

  ghost predicate WellFormed(s: State) {
    0 < |s.data| < POW32 && s.w < POW64 && s.r < POW64
    && (s.producer.POwned? ==> s.producer.own < POW64)
    && (s.producer.PCopying? ==> s.producer.at < POW64 && |s.producer.bytes| <= |s.data|)
    && (s.consumer.CPeered? ==> s.consumer.peer < POW64)
    && (s.consumer.CCopying? ==> s.consumer.from < POW64 && s.consumer.count <= |s.data|)
  }

  /** `capacity - (uint32_t)(write_idx - read_idx)`. */
  function RoomSeen(cap: nat, w: nat, r: nat): nat
    requires cap < POW32 && w < POW64 && r < POW64
  {
    Sub32(cap, U32(Sub64(w, r)))
  }

  /** `(uint32_t)(write_idx - read_idx)`. */
  function HeldSeen(w: nat, r: nat): nat
    requires w < POW64 && r < POW64
  {
    U32(Sub64(w, r))
  }

  /** One atomic step; an event that is not enabled changes nothing. */
  ghost function Step(s: State, e: Event): State {
    if !WellFormed(s) then s else
    match e
    case WriteCall(src) =>
      if s.producer.PIdle? && 0 < |src| < POW32 then s.(producer := POwned(src, s.w)) else s
    case LoadReadIndex(snap) =>
      if s.producer.POwned? && s.seenR <= snap <= |s.taken| then
        var n := Min(|s.producer.src|, RoomSeen(|s.data|, s.producer.own, U64(snap)));
        s.(seenR := snap,
           producer := if n == 0 then PIdle else PCopying(s.producer.src[..n], s.producer.own, {}))
      else s
    case StoreByte(k) =>
      if s.producer.PCopying? && k < |s.producer.bytes| then
        var cap := |s.data|;
        s.(data := s.data[Wrap(Pos(s.producer.at, cap), k, cap) := s.producer.bytes[k]],
           producer := s.producer.(done := s.producer.done + {k}))
      else s
    case PublishWrite =>
      if s.producer.PCopying? && forall k :: 0 <= k < |s.producer.bytes| ==> k in s.producer.done then
        s.(w := Add64(s.producer.at, |s.producer.bytes|),
           accepted := s.accepted + s.producer.bytes,
           producer := PIdle)
      else s
    case CheckRoom(snap) =>
      if s.producer.PIdle? && s.seenR <= snap <= |s.taken| then s.(seenR := snap) else s
    case ReadCall(size, snap) =>
      if s.consumer.CIdle? && 0 < size < POW32 && s.seenW <= snap <= |s.accepted| then
        s.(seenW := snap, consumer := CPeered(size, U64(snap)))
      else s
    case LoadOwnReadIndex =>
      if s.consumer.CPeered? then
        var n := Min(s.consumer.size, HeldSeen(s.consumer.peer, s.r));
        s.(consumer := if n == 0 then CIdle else CCopying(n, s.r, map[]))
      else s
    case LoadByte(k) =>
      if s.consumer.CCopying? && k < s.consumer.count then
        var cap := |s.data|;
        s.(consumer := s.consumer.(got := s.consumer.got[k := s.data[Wrap(Pos(s.consumer.from, cap), k, cap)]]))
      else s
    case PublishRead =>
      if s.consumer.CCopying? && forall k :: 0 <= k < s.consumer.count ==> k in s.consumer.got then
        s.(r := Add64(s.consumer.from, s.consumer.count),
           taken := s.taken + Delivered(s.consumer),
           consumer := CIdle)
      else s
    case CheckHeld(snap) =>
      if s.consumer.CIdle? && s.seenW <= snap <= |s.accepted| then s.(seenW := snap) else s
  }

  /** The bytes a finished read hands to its caller. */
  function Delivered(c: Consumer): seq<byte>
    requires c.CCopying? && forall k :: 0 <= k < c.count ==> k in c.got
  {
    seq(c.count, k requires 0 <= k < c.count => c.got[k])
  }

  ghost function Exec(s: State, events: seq<Event>): State {
    if events == [] then s
    else Step(Exec(s, events[..|events| - 1]), events[|events| - 1])
  }

  function Start(data: seq<byte>): State {
    State(data, 0, 0, PIdle, 0, CIdle, 0, [], [])
  }

  /** Published and not yet taken: the abstract FIFO. */
  function Queue(s: State): seq<byte>
    requires |s.taken| <= |s.accepted|
  {
    s.accepted[|s.taken|..]
  }

  /** Index wrap-around is harmless: it cannot be noticed, or has not happened. */
  ghost predicate WrapSafe(s: State) {
    DividesWordRange(|s.data|) || |s.accepted| < POW64
  }

  ghost predicate Inv(s: State) {
    && WellFormed(s)
    && s.w == U64(|s.accepted|) && s.r == U64(|s.taken|)
    && s.taken <= s.accepted
    && s.seenR <= |s.taken| <= s.seenW <= |s.accepted| <= s.seenR + |s.data|
    && (forall i {:trigger s.accepted[i]} :: |s.taken| <= i < |s.accepted| ==> s.data[Pos(i, |s.data|)] == s.accepted[i])
    && ProducerInv(s)
    && ConsumerInv(s)
  }

  ghost predicate ProducerInv(s: State)
    requires WellFormed(s)
  {
    match s.producer
    case PIdle => true
    case POwned(src, own) => own == s.w
    case PCopying(bytes, at, done) =>
      && at == s.w
      && |s.accepted| + |bytes| <= s.seenR + |s.data|
      && forall k: nat {:trigger k in done} :: k in done ==> k < |bytes| && s.data[Pos(|s.accepted| + k, |s.data|)] == bytes[k]
  }

  ghost predicate ConsumerInv(s: State)
    requires WellFormed(s)
  {
    match s.consumer
    case CIdle => true
    case CPeered(size, peer) => peer == U64(s.seenW)
    case CCopying(count, from, got) =>
      && from == s.r
      && |s.taken| + count <= s.seenW <= |s.accepted|
      && forall k: nat {:trigger k in got} :: k in got ==> k < count && got[k] == s.accepted[|s.taken| + k]
  }

  /** The truncated room is the true room exactly when the snapshot is recent enough; an older
      one would underflow to more than the capacity. */
  lemma RoomIsTrue(cap: nat, written: nat, snap: nat)
    requires cap < POW32 && 0 <= written - snap < POW32
    ensures RoomSeen(cap, U64(written), U64(snap)) <= cap <==> written - snap <= cap
    ensures written - snap <= cap ==> RoomSeen(cap, U64(written), U64(snap)) == cap - (written - snap)
  {
    IndexArithmetic(written, snap, 0);
  }

  lemma HeldIsTrue(snap: nat, taken: nat)
    requires 0 <= snap - taken < POW32
    ensures HeldSeen(U64(snap), U64(taken)) == snap - taken
  {
    IndexArithmetic(snap, taken, 0);
  }

  /** The index loads size each copy by the true room or contents as of its snapshot: what a call
      moves is the longest prefix that fits, or the most there is, at that point. */
  lemma LoadsSizeTheCopy(s: State, snap: nat)
    requires Inv(s)
    ensures s.producer.POwned? && s.seenR <= snap <= |s.taken| ==>
      var src := s.producer.src;
      var n := Min(|src|, |s.data| - (|s.accepted| - snap));
      Step(s, LoadReadIndex(snap)).producer == if n == 0 then PIdle else PCopying(src[..n], s.w, {})
    ensures s.consumer.CPeered? ==>
      var n := Min(s.consumer.size, s.seenW - |s.taken|);
      Step(s, LoadOwnReadIndex).consumer == if n == 0 then CIdle else CCopying(n, s.r, map[])
  {
    hide Pos, U64;
    if s.seenR <= snap <= |s.taken| { RoomIsTrue(|s.data|, |s.accepted|, snap); }
    HeldIsTrue(s.seenW, |s.taken|);
  }

  /** Storing into one slot leaves every other byte of its revolution where it is. */
  lemma StoreSpares(data: seq<byte>, at: nat, b: byte, i: nat)
    requires 0 < |data| && i != at && i < at + |data| && at < i + |data|
    ensures data[Pos(at, |data|) := b][Pos(i, |data|)] == data[Pos(i, |data|)]
  {
    if i < at { PosDistinct(i, at, |data|); } else { PosDistinct(at, i, |data|); }
  }

  lemma StoreEffect(s: State, k: nat)
    requires Inv(s) && WrapSafe(s) && s.producer.PCopying? && k < |s.producer.bytes|
    ensures Step(s, StoreByte(k)) ==
      s.(data := s.data[Pos(|s.accepted| + k, |s.data|) := s.producer.bytes[k]],
         producer := s.producer.(done := s.producer.done + {k}))
  {
    SlotOfCount(|s.accepted|, k, |s.data|);
  }

  lemma StoreKeepsInv(s: State, k: nat)
    requires Inv(s) && WrapSafe(s)
    ensures Inv(Step(s, StoreByte(k)))
  {
    hide Pos, U64;
    if s.producer.PCopying? && k < |s.producer.bytes| {
      StoreEffect(s, k);
      var cap, at, b := |s.data|, |s.accepted| + k, s.producer.bytes[k];
      var data := s.data[Pos(at, cap) := b];
      forall i {:trigger s.accepted[i]} | |s.taken| <= i < |s.accepted|
        ensures data[Pos(i, cap)] == s.accepted[i]
      {
        StoreSpares(s.data, at, b, i);
      }
      forall j: nat {:trigger j in s.producer.done} | j in s.producer.done && j != k
        ensures data[Pos(|s.accepted| + j, cap)] == s.producer.bytes[j]
      {
        StoreSpares(s.data, at, b, |s.accepted| + j);
      }
    }
  }

  lemma LoadedByte(s: State, k: nat)
    requires Inv(s) && WrapSafe(s) && s.consumer.CCopying? && k < s.consumer.count
    ensures s.data[Wrap(Pos(s.consumer.from, |s.data|), k, |s.data|)] == s.accepted[|s.taken| + k]
  {
    SlotOfCount(|s.taken|, k, |s.data|);
    assert s.data[Pos(|s.taken| + k, |s.data|)] == s.accepted[|s.taken| + k];
  }

  lemma LoadKeepsInv(s: State, k: nat)
    requires Inv(s) && WrapSafe(s)
    ensures Inv(Step(s, LoadByte(k)))
  {
    hide Pos, U64;
    if s.consumer.CCopying? && k < s.consumer.count {
      LoadedByte(s, k);
    }
  }

  lemma PublishWriteKeepsInv(s: State)
    requires Inv(s)
    ensures Inv(Step(s, PublishWrite))
  {
    if s.producer.PCopying? && Step(s, PublishWrite) != s {
      var written, bytes := |s.accepted|, s.producer.bytes;
      IndexArithmetic(written, 0, |bytes|);
      hide Pos, U64;
      var s' := Step(s, PublishWrite);
      forall i | |s.taken| <= i < |s'.accepted|
        ensures s'.data[Pos(i, |s'.data|)] == s'.accepted[i]
      {
        if i >= written { assert i - written in s.producer.done && i == written + (i - written); }
      }
    }
  }

  lemma DeliveredIsNext(s: State)
    requires Inv(s) && s.consumer.CCopying?
    requires forall k :: 0 <= k < s.consumer.count ==> k in s.consumer.got
    ensures Delivered(s.consumer) == s.accepted[|s.taken|..|s.taken| + s.consumer.count]
  {
    forall k | 0 <= k < s.consumer.count
      ensures Delivered(s.consumer)[k] == s.accepted[|s.taken| + k]
    {
      assert k in s.consumer.got;
    }
  }

  lemma PublishReadKeepsInv(s: State)
    requires Inv(s)
    ensures Inv(Step(s, PublishRead))
  {
    if s.consumer.CCopying? && Step(s, PublishRead) != s {
      IndexArithmetic(|s.taken|, 0, s.consumer.count);
      var out := Delivered(s.consumer);
      DeliveredIsNext(s);
      assert s.taken + out == s.accepted[..|s.taken| + s.consumer.count];
    }
  }

  lemma LoadReadIndexKeepsInv(s: State, snap: nat)
    requires Inv(s)
    ensures Inv(Step(s, LoadReadIndex(snap)))
  {
    hide Pos, U64;
    if s.producer.POwned? && s.seenR <= snap <= |s.taken| {
      RoomIsTrue(|s.data|, |s.accepted|, snap);
    }
  }

  lemma LoadOwnReadIndexKeepsInv(s: State)
    requires Inv(s)
    ensures Inv(Step(s, LoadOwnReadIndex))
  {
    HeldIsTrue(s.seenW, |s.taken|);
  }

  lemma ProducerCallsKeepInv(s: State, e: Event)
    requires Inv(s) && (e.WriteCall? || e.CheckRoom?)
    ensures Inv(Step(s, e))
  {
    hide Pos, U64;
  }

  lemma ConsumerCallsKeepInv(s: State, e: Event)
    requires Inv(s) && (e.ReadCall? || e.CheckHeld?)
    ensures Inv(Step(s, e))
  {
  }

  lemma StepKeepsInv(s: State, e: Event)
    requires Inv(s) && WrapSafe(s)
    ensures Inv(Step(s, e))
  {
    match e {
      case StoreByte(k) => StoreKeepsInv(s, k);
      case LoadByte(k) => LoadKeepsInv(s, k);
      case PublishWrite => PublishWriteKeepsInv(s);
      case PublishRead => PublishReadKeepsInv(s);
      case LoadReadIndex(snap) => LoadReadIndexKeepsInv(s, snap);
      case LoadOwnReadIndex => LoadOwnReadIndexKeepsInv(s);
      case _ =>
        if ByProducer(e) { ProducerCallsKeepInv(s, e); } else { ConsumerCallsKeepInv(s, e); }
    }
  }

  lemma {:induction false} RunFromKeepsInv(s: State, events: seq<Event>)
    requires Inv(s) && WrapSafe(Exec(s, events))
    ensures Inv(Exec(s, events)) && |Exec(s, events).data| == |s.data|
  {
    if events != [] {
      var before, e := events[..|events| - 1], events[|events| - 1];
      AcceptedGrows(Exec(s, before), e);
      hide Inv, Step;
      RunFromKeepsInv(s, before);
      StepKeepsInv(Exec(s, before), e);
    }
  }

  /** Every interleaving, from an empty buffer with any old bytes in it, keeps the invariant. */
  lemma RunKeepsInv(data: seq<byte>, events: seq<Event>)
    requires 0 < |data| < POW32 && WrapSafe(Exec(Start(data), events))
    ensures Inv(Exec(Start(data), events)) && |Exec(Start(data), events).data| == |data|
  {
    RunFromKeepsInv(Start(data), events);
  }

  lemma AcceptedGrows(s: State, e: Event)
    ensures s.accepted <= Step(s, e).accepted && |Step(s, e).data| == |s.data|
  {
  }

  // ----- What the invariant is for -----

  /** Every byte read is a byte written, in order, none lost, repeated or torn; and what is
      in between never exceeds the capacity. */
  lemma ReadsArePrefixOfWrites(data: seq<byte>, events: seq<Event>)
    requires 0 < |data| < POW32 && WrapSafe(Exec(Start(data), events))
    ensures var s := Exec(Start(data), events);
      && s.taken <= s.accepted
      && s.taken + Queue(s) == s.accepted
      && |Queue(s)| <= |data|
  {
    RunKeepsInv(data, events);
  }

  /** Each step is a step of an atomic bounded FIFO: a publication by the writer appends its
      bytes, one by the reader removes exactly the bytes it hands over, all else is invisible. */
  lemma StepRefinesFifo(s: State, e: Event)
    requires Inv(s)
    ensures |Queue(Step(s, e))| <= |s.data|
    ensures e.PublishWrite? && Step(s, e) != s ==>
      Queue(Step(s, e)) == Queue(s) + s.producer.bytes
    ensures e.PublishRead? && Step(s, e) != s ==>
      Queue(s) == Delivered(s.consumer) + Queue(Step(s, e))
    ensures !e.PublishWrite? && !e.PublishRead? ==> Queue(Step(s, e)) == Queue(s)
  {
    if e.PublishRead? && Step(s, e) != s {
      DeliveredIsNext(s);
    }
  }

  /** No data race: while both sides copy, whatever their snapshots, the slots the producer
      writes in this call and those the consumer reads in this call are disjoint. */
  lemma CopiesAreDisjoint(s: State, k: nat, j: nat)
    requires Inv(s) && WrapSafe(s)
    requires s.producer.PCopying? && k < |s.producer.bytes|
    requires s.consumer.CCopying? && j < s.consumer.count
    ensures Wrap(Pos(s.producer.at, |s.data|), k, |s.data|) != Wrap(Pos(s.consumer.from, |s.data|), j, |s.data|)
  {
    SlotOfCount(|s.accepted|, k, |s.data|);
    SlotOfCount(|s.taken|, j, |s.data|);
    PosDistinct(|s.taken| + j, |s.accepted| + k, |s.data|);
  }

  /** What happened to a slot before is ordered before its present use: each earlier read of the slot
      the producer is writing was published in a read index it has acquired, and each write of the
      slot the consumer is reading, even one in progress, in a write index it has acquired. */
  lemma EarlierUsesAreAcquired(s: State, k: nat, m: nat)
    requires Inv(s)
    ensures s.producer.PCopying? && k < |s.producer.bytes| && m < |s.accepted| + k ==>
      Pos(m, |s.data|) == Pos(|s.accepted| + k, |s.data|) ==> m < s.seenR
    ensures s.consumer.CCopying? && k < s.consumer.count && m < |s.accepted| + Copying(s) ==>
      Pos(m, |s.data|) == Pos(|s.taken| + k, |s.data|) ==> m < s.seenW
  {
    var cap := |s.data|;
    if m < |s.accepted| + k < m + cap { PosDistinct(m, |s.accepted| + k, cap); }
    if |s.taken| + k < m < |s.taken| + k + cap { PosDistinct(|s.taken| + k, m, cap); }
  }

  /** Bytes of the write in progress. */
  function Copying(s: State): nat { if s.producer.PCopying? then |s.producer.bytes| else 0 }

  lemma {:induction false} ProducerLeavesConsumer(s: State, events: seq<Event>)
    requires forall i :: 0 <= i < |events| ==> ByProducer(events[i])
    ensures var t := Exec(s, events);
      t.consumer == s.consumer && t.seenW == s.seenW && t.taken == s.taken && t.r == s.r
      && s.accepted <= t.accepted
  {
    if events != [] {
      ProducerLeavesConsumer(s, events[..|events| - 1]);
    }
  }

  /** What the consumer is told is available stays available, whatever the producer does, until
      the consumer reads; and then a read of that many bytes gets them all. */
  lemma CheckedReadIsFull(s: State, snap: nat, events: seq<Event>, size: nat, again: nat)
    requires Inv(s) && s.consumer.CIdle? && s.seenW <= snap <= |s.accepted|
    requires forall i :: 0 <= i < |events| ==> ByProducer(events[i])
    requires 0 < size <= HeldSeen(U64(snap), s.r)
    requires var t := Exec(Step(s, CheckHeld(snap)), events);
      WrapSafe(t) && t.seenW <= again <= |t.accepted|
    ensures var t := Exec(Step(s, CheckHeld(snap)), events);
      && Inv(t)
      && HeldSeen(U64(snap), s.r) <= |Queue(t)|
      && Step(Step(t, ReadCall(size, again)), LoadOwnReadIndex).consumer == CCopying(size, t.r, map[])
  {
    hide Pos, U64;
    var t := Exec(Step(s, CheckHeld(snap)), events);
    ProducerLeavesConsumer(Step(s, CheckHeld(snap)), events);
    ConsumerCallsKeepInv(s, CheckHeld(snap));
    RunFromKeepsInv(Step(s, CheckHeld(snap)), events);
    HeldIsTrue(snap, |s.taken|);
    HeldIsTrue(again, |t.taken|);
  }

  lemma {:induction false} ConsumerLeavesProducer(s: State, events: seq<Event>)
    requires forall i :: 0 <= i < |events| ==> !ByProducer(events[i])
    ensures var t := Exec(s, events);
      t.producer == s.producer && t.seenR == s.seenR && t.accepted == s.accepted && t.w == s.w
      && |s.taken| <= |t.taken| && |t.data| == |s.data|
  {
    if events != [] {
      ConsumerLeavesProducer(s, events[..|events| - 1]);
    }
  }

  /** Symmetrically, room the producer is told of stays there until it writes. */
  lemma CheckedWriteIsFull(s: State, snap: nat, events: seq<Event>, src: seq<byte>, again: nat)
    requires Inv(s) && s.producer.PIdle? && s.seenR <= snap <= |s.taken|
    requires forall i :: 0 <= i < |events| ==> !ByProducer(events[i])
    requires 0 < |src| <= RoomSeen(|s.data|, s.w, U64(snap))
    requires var t := Exec(Step(s, CheckRoom(snap)), events);
      WrapSafe(t) && t.seenR <= again <= |t.taken|
    ensures var t := Exec(Step(s, CheckRoom(snap)), events);
      && Inv(t)
      && RoomSeen(|s.data|, s.w, U64(snap)) <= |t.data| - |Queue(t)|
      && Step(Step(t, WriteCall(src)), LoadReadIndex(again)).producer == PCopying(src, t.w, {})
  {
    hide Pos, U64;
    var t := Exec(Step(s, CheckRoom(snap)), events);
    ConsumerLeavesProducer(Step(s, CheckRoom(snap)), events);
    ProducerCallsKeepInv(s, CheckRoom(snap));
    RunFromKeepsInv(Step(s, CheckRoom(snap)), events);
    RoomIsTrue(|s.data|, |s.accepted|, snap);
    RoomIsTrue(|t.data|, |t.accepted|, again);
  }

  // ----- A call that nothing interrupts is the sequential operation -----

  function RingOf(s: State): RingBuffers.Ring {
    RingBuffers.Ring(s.data, s.w, s.r)
  }

  function Stores(n: nat): seq<Event> { seq(n, k requires 0 <= k < n => StoreByte(k)) }

  function Loads(n: nat): seq<Event> { seq(n, k requires 0 <= k < n => LoadByte(k)) }

  lemma {:induction false} ExecConcat(s: State, a: seq<Event>, b: seq<Event>)
    ensures Exec(s, a + b) == Exec(Exec(s, a), b)
    decreases |b|
  {
    if b == [] {
      assert a + b == a;
    } else {
      var e := b[|b| - 1];
      assert (a + b)[..|a + b| - 1] == a + b[..|b| - 1] && (a + b)[|a + b| - 1] == e;
      ExecConcat(s, a, b[..|b| - 1]);
    }
  }

  lemma ExecTwo(s: State, e: Event, e': Event)
    ensures Exec(s, [e, e']) == Step(Step(s, e), e')
  {
    assert [e, e'][..1] == [e];
    assert Exec(s, [e]) == Step(Exec(s, []), e);
  }

  lemma ExecOne(s: State, e: Event)
    ensures Exec(s, [e]) == Step(s, e)
  {
  }

  function Below(n: nat): (b: set<nat>)
    ensures forall k: nat :: k in b <==> k < n
  {
    if n == 0 then {} else Below(n - 1) + {n - 1}
  }

  ghost function AfterStores(s: State, n: nat): State
    requires WellFormed(s) && s.producer.PCopying? && n <= |s.producer.bytes|
  {
    s.(data := RingBuffers.CopyIn(s.data, Pos(s.producer.at, |s.data|), s.producer.bytes[..n]),
       producer := s.producer.(done := Below(n)))
  }

  lemma {:induction false} StoresCopyIn(s: State, n: nat)
    requires WellFormed(s) && s.producer.PCopying? && s.producer.done == {} && n <= |s.producer.bytes|
    ensures Exec(s, Stores(n)) == AfterStores(s, n)
  {
    hide Pos, U64;
    if n == 0 {
      assert AfterStores(s, 0).data == s.data;
    } else {
      assert Stores(n)[..n - 1] == Stores(n - 1);
      StoresCopyIn(s, n - 1);
      var pos, bytes := Pos(s.producer.at, |s.data|), s.producer.bytes;
      StoreExtendsCopy(s.data, pos, bytes, n - 1);
    }
  }

  lemma StoreExtendsCopy(data: seq<byte>, pos: nat, bytes: seq<byte>, n: nat)
    requires pos < |data| && n < |bytes| <= |data|
    ensures RingBuffers.CopyIn(data, pos, bytes[..n])[Wrap(pos, n, |data|) := bytes[n]]
         == RingBuffers.CopyIn(data, pos, bytes[..n + 1])
  {
  }

  lemma RingOfHolds(s: State)
    requires Inv(s)
    ensures RingOf(s).Valid()
    ensures RingOf(s).Used() == |Queue(s)| && RingOf(s).Room() == |s.data| - |Queue(s)|
  {
    hide Pos, U64;
    IndexArithmetic(|s.accepted|, |s.taken|, 0);
  }

  /** The producer's steps of one call that moves `n` bytes. */
  ghost function WriteEvents(s: State, src: seq<byte>, n: nat): seq<Event> {
    [WriteCall(src), LoadReadIndex(|s.taken|)] + if n == 0 then [] else Stores(n) + [PublishWrite]
  }

  lemma UninterruptedWriteStarts(s: State, src: seq<byte>, n: nat)
    requires Inv(s) && s.producer.PIdle? && 0 < |src| < POW32
    requires n == Min(|src|, |s.data| - |Queue(s)|)
    ensures RingOf(s).Valid() && n == Min(|src|, RingOf(s).Room())
    ensures WellFormed(Exec(s, [WriteCall(src), LoadReadIndex(|s.taken|)]))
    ensures Exec(s, [WriteCall(src), LoadReadIndex(|s.taken|)]) ==
      s.(seenR := |s.taken|, producer := if n == 0 then PIdle else PCopying(src[..n], s.w, {}))
  {
    hide Pos, U64, Exec;
    RingOfHolds(s);
    RoomIsTrue(|s.data|, |s.accepted|, |s.taken|);
    ExecTwo(s, WriteCall(src), LoadReadIndex(|s.taken|));
  }

  lemma CopyThenPublish(s: State)
    requires WellFormed(s) && s.producer.PCopying? && s.producer.done == {}
    ensures var n := |s.producer.bytes|;
      Exec(s, Stores(n) + [PublishWrite]) ==
        AfterStores(s, n).(w := Add64(s.producer.at, n), accepted := s.accepted + s.producer.bytes, producer := PIdle)
  {
    hide Pos, U64, Wrap, RingBuffers.CopyIn, Exec;
    var n := |s.producer.bytes|;
    StoresCopyIn(s, n);
    ExecConcat(s, Stores(n), [PublishWrite]);
    ExecOne(AfterStores(s, n), PublishWrite);
  }

  lemma UninterruptedWrite(s: State, src: seq<byte>, n: nat)
    requires Inv(s) && s.producer.PIdle? && 0 < |src| < POW32
    requires n == Min(|src|, |s.data| - |Queue(s)|)
    ensures RingOf(s).Valid()
    ensures var t := Exec(s, WriteEvents(s, src, n));
      && RingOf(t) == RingOf(s).Put(src)
      && t.producer.PIdle?
      && t.accepted == s.accepted + src[..n]
  {
    hide Pos, U64, Inv, Step;
    UninterruptedWriteStarts(s, src, n);
    var loads := [WriteCall(src), LoadReadIndex(|s.taken|)];
    if n == 0 {
      RingBuffers.PutNothing(RingOf(s), src);
      assert WriteEvents(s, src, n) == loads;
    } else {
      var t := Exec(s, loads);
      CopyThenPublish(t);
      ExecConcat(s, loads, Stores(n) + [PublishWrite]);
      assert src[..n][..n] == src[..n];
    }
  }

  ghost function AfterLoads(s: State, n: nat): State
    requires WellFormed(s) && s.consumer.CCopying? && n <= s.consumer.count
  {
    var pos := Pos(s.consumer.from, |s.data|);
    s.(consumer := s.consumer.(got := map k: nat | k < n :: s.data[Wrap(pos, k, |s.data|)]))
  }

  lemma LoadExtendsMap(s: State, n: nat)
    requires WellFormed(s) && s.consumer.CCopying? && n < s.consumer.count
    ensures WellFormed(AfterLoads(s, n))
    ensures Step(AfterLoads(s, n), LoadByte(n)) == AfterLoads(s, n + 1)
  {
    hide Pos, U64, Wrap;
    assert AfterLoads(s, n + 1).consumer.got ==
      AfterLoads(s, n).consumer.got[n := s.data[Wrap(Pos(s.consumer.from, |s.data|), n, |s.data|)]];
  }

  lemma {:induction false} LoadsReadWindow(s: State, n: nat)
    requires WellFormed(s) && s.consumer.CCopying? && s.consumer.got == map[] && n <= s.consumer.count
    ensures Exec(s, Loads(n)) == AfterLoads(s, n)
  {
    hide Pos, U64, Step;
    if n == 0 {
      assert AfterLoads(s, 0).consumer.got == s.consumer.got;
    } else {
      assert Loads(n)[..n - 1] == Loads(n - 1);
      LoadsReadWindow(s, n - 1);
      LoadExtendsMap(s, n - 1);
    }
  }

  /** The consumer's steps of one call that moves `n` bytes. */
  ghost function ReadEvents(s: State, size: nat, n: nat): seq<Event> {
    [ReadCall(size, |s.accepted|), LoadOwnReadIndex] + if n == 0 then [] else Loads(n) + [PublishRead]
  }

  lemma UninterruptedReadStarts(s: State, size: nat, n: nat)
    requires Inv(s) && s.consumer.CIdle? && 0 < size < POW32
    requires n == Min(size, |Queue(s)|)
    ensures RingOf(s).Valid() && n == Min(size, RingOf(s).Used())
    ensures WellFormed(Exec(s, [ReadCall(size, |s.accepted|), LoadOwnReadIndex]))
    ensures Exec(s, [ReadCall(size, |s.accepted|), LoadOwnReadIndex]) ==
      s.(seenW := |s.accepted|, consumer := if n == 0 then CIdle else CCopying(n, s.r, map[]))
  {
    hide Pos, U64, Exec;
    RingOfHolds(s);
    HeldIsTrue(|s.accepted|, |s.taken|);
    ExecTwo(s, ReadCall(size, |s.accepted|), LoadOwnReadIndex);
  }

  lemma LoadsDeliverWindow(s: State)
    requires WellFormed(s) && s.consumer.CCopying?
    ensures Delivered(AfterLoads(s, s.consumer.count).consumer)
         == RingBuffers.Window(s.data, Pos(s.consumer.from, |s.data|), s.consumer.count)
  {
    hide Pos, U64;
  }

  lemma CopyThenConsume(s: State)
    requires WellFormed(s) && s.consumer.CCopying? && s.consumer.got == map[]
    ensures var n := s.consumer.count;
      Exec(s, Loads(n) + [PublishRead]) ==
        s.(r := Add64(s.consumer.from, n),
           taken := s.taken + RingBuffers.Window(s.data, Pos(s.consumer.from, |s.data|), n),
           consumer := CIdle)
  {
    hide Pos, U64, Exec;
    var n := s.consumer.count;
    LoadsReadWindow(s, n);
    ExecConcat(s, Loads(n), [PublishRead]);
    ExecOne(AfterLoads(s, n), PublishRead);
    LoadsDeliverWindow(s);
    hide Wrap, RingBuffers.Window, Delivered;
  }

  lemma UninterruptedRead(s: State, size: nat, n: nat)
    requires Inv(s) && s.consumer.CIdle? && 0 < size < POW32
    requires n == Min(size, |Queue(s)|)
    ensures RingOf(s).Valid()
    ensures var t := Exec(s, ReadEvents(s, size, n));
      && RingOf(t) == RingOf(s).Take(size).0
      && t.consumer.CIdle?
      && t.taken == s.taken + RingOf(s).Take(size).1
  {
    hide Pos, U64, Inv, Step;
    UninterruptedReadStarts(s, size, n);
    var loads := [ReadCall(size, |s.accepted|), LoadOwnReadIndex];
    if n == 0 {
      assert ReadEvents(s, size, n) == loads;
      assert RingOf(s).Take(size).1 == [];
    } else {
      var t := Exec(s, loads);
      CopyThenConsume(t);
      ExecConcat(s, loads, Loads(n) + [PublishRead]);
    }
  }
}
