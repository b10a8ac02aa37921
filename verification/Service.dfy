/** The example HIDL service: a registry of sessions with one polling thread each. */
module Service {
  import opened Words
  import opened Queues
  import opened RoundTripFlow
  import opened RoundTrip

  datatype Result = OK | ERROR_INVALID_ARGUMENTS | ERROR_NO_MEMORY | ERROR_INVALID_STATE

  /** A `std::thread`: joinable while it stands for a created thread. */
  datatype Thread = NoThread | Joinable(t: nat)

  datatype Entry = Entry(running: bool, thread: Thread)

  /** How a call to open ends: with a result, or with the whole service aborted, because a
      `std::thread` destroyed while joinable calls `std::terminate`. */
  datatype Opening = Returned(result: Result, id: nat) | Aborted

  /** The threads of one session. */
  function Threads(sessions: map<nat, Entry>, id: nat): set<nat> {
    if id in sessions && sessions[id].thread.Joinable? then {sessions[id].thread.t} else {}
  }

  /** Every thread of `live` belongs to a session. */
  ghost predicate Covers(sessions: map<nat, Entry>, live: set<nat>) {
    forall t :: t in live ==> exists id :: id in sessions && t in Threads(sessions, id)
  }

  lemma CoversJoined(sessions: map<nat, Entry>, live: set<nat>, id: nat)
    requires Covers(sessions, live)
    ensures Covers(sessions[id := Entry(false, NoThread)], live - Threads(sessions, id))
    ensures Covers(sessions - {id}, live - Threads(sessions, id))
  {
    forall t | t in live - Threads(sessions, id)
      ensures exists k :: k in sessions && k != id && t in Threads(sessions, k)
    {
      var k :| k in sessions && t in Threads(sessions, k);
    }
    forall t | t in live - Threads(sessions, id)
      ensures exists k :: k in sessions - {id} && t in Threads(sessions - {id}, k)
      ensures var joined := sessions[id := Entry(false, NoThread)]; exists k :: k in joined && t in Threads(joined, k)
    {
      var k :| k in sessions && k != id && t in Threads(sessions, k);
      assert k in sessions - {id} && t in Threads(sessions - {id}, k);
      var joined := sessions[id := Entry(false, NoThread)];
      assert k in joined && t in Threads(joined, k);
    }
  }

  lemma CoversStarted(sessions: map<nat, Entry>, live: set<nat>, id: nat, started: nat)
    requires Covers(sessions, live) && Threads(sessions, id) == {}
    ensures Covers(sessions[id := Entry(true, Joinable(started))], live + {started})
  {
    var after := sessions[id := Entry(true, Joinable(started))];
    assert id in after && started in Threads(after, id);
    forall t | t in live ensures exists k :: k in after && t in Threads(after, k) {
      var k :| k in sessions && t in Threads(sessions, k);
      assert k in after && t in Threads(after, k);
    }
  }

  /** Over any history: each flag is up exactly while there is a thread to join, no two sessions
      share a thread, no thread outlives its session's entry, and session numbers are among those
      handed out. */
  ghost predicate Registry(sessions: map<nat, Entry>, live: set<nat>, created: nat, openings: nat) {
    && (forall id :: id in sessions ==> sessions[id].running == sessions[id].thread.Joinable?)
    && (forall id :: id in sessions && sessions[id].running ==> sessions[id].thread.t in live)
    && (forall id, id' | id in sessions && id' in sessions && id != id' ::
          sessions[id].running ==> sessions[id].thread != sessions[id'].thread)
    && (forall t :: t in live ==> t < created)
    && (forall id :: id in sessions ==> 1 <= id <= openings || (id == 0 && openings >= POW32))
    && Covers(sessions, live)
  }

  lemma OpenedIsRegistered(sessions: map<nat, Entry>, live: set<nat>, created: nat, openings: nat)
    requires Registry(sessions, live, created, openings)
    ensures var id := U32(1 + openings);
      && U32(id + 1) == U32(1 + (openings + 1))
      && (openings < POW32 ==> id !in sessions)
      && (Threads(sessions, id) == {} ==> Registry(sessions[id := Entry(false, NoThread)], live, created, openings + 1))
  {
    CoversJoined(sessions, live, U32(1 + openings));
    assert live - {} == live;
  }

  lemma JoinedIsRegistered(sessions: map<nat, Entry>, live: set<nat>, created: nat, openings: nat, id: nat)
    requires Registry(sessions, live, created, openings) && id in sessions
    ensures Registry(sessions[id := Entry(false, NoThread)], live - Threads(sessions, id), created, openings)
    ensures Registry(sessions - {id}, live - Threads(sessions, id), created, openings)
  {
    CoversJoined(sessions, live, id);
  }

  class EffectService {
    var nextSessionId: nat
    var sessions: map<nat, Entry>
    var created: nat              // threads created so far
    ghost var live: set<nat>      // those not joined
    ghost var openings: nat       // sessions opened so far

    ghost predicate Valid()
      reads this
    {
      nextSessionId == U32(1 + openings) && Registry(sessions, live, created, openings)
    }

    constructor ()
      ensures Valid() && sessions == map[] && live == {} && openings == 0
    {
      nextSessionId, sessions, live, created, openings := 1, map[], {}, 0, 0;
    }

    /** A new session replaces whatever its wrapped-around number still names; if that is a running
        session its thread is destroyed unjoined and the service aborts. It never does so in the
        first 2^32 openings. */
    method Open(memory: bool) returns (outcome: Opening)
      requires Valid()
      modifies this
      ensures outcome.Aborted? <==>
        memory && old(nextSessionId) in old(sessions) && old(sessions)[old(nextSessionId)].running
      ensures old(openings) < POW32 ==> !outcome.Aborted? && (memory ==> old(nextSessionId) !in old(sessions))
      ensures outcome.Returned? ==> Valid() && live == old(live)
      ensures outcome.Returned? && memory ==>
        && outcome == Returned(OK, old(nextSessionId))
        && sessions == old(sessions)[outcome.id := Entry(false, NoThread)] && openings == old(openings) + 1
      ensures outcome.Returned? && !memory ==>
        outcome == Returned(ERROR_NO_MEMORY, 0) && sessions == old(sessions) && openings == old(openings)
    {
      if !memory {
        return Returned(ERROR_NO_MEMORY, 0);
      }
      var id := nextSessionId;
      nextSessionId := U32(nextSessionId + 1);
      OpenedIsRegistered(sessions, live, created, openings);
      assert id in sessions ==> sessions[id].running == sessions[id].thread.Joinable?;
      hide Covers, Registry, U32;
      if id in sessions && sessions[id].thread.Joinable? {
        return Aborted;
      }
      sessions := sessions[id := Entry(false, NoThread)];
      openings := openings + 1;
      return Returned(OK, id);
    }

    method Start(id: nat) returns (result: Result)
      requires Valid()
      modifies this
      ensures Valid() && openings == old(openings)
      ensures result == if id !in old(sessions) then ERROR_INVALID_ARGUMENTS
                        else if old(sessions)[id].running then ERROR_INVALID_STATE else OK
      ensures if result.OK? then
                && live == old(live) + {old(created)} && old(created) !in old(live)
                && sessions == old(sessions)[id := Entry(true, Joinable(old(created)))]
              else live == old(live) && sessions == old(sessions)
    {
      if id !in sessions {
        return ERROR_INVALID_ARGUMENTS;
      }
      if sessions[id].running {
        return ERROR_INVALID_STATE;
      }
      CoversStarted(sessions, live, id, created);
      hide Covers;
      sessions := sessions[id := Entry(true, Joinable(created))];
      live, created := live + {created}, created + 1;
      return OK;
    }

    /** Clears the flag and joins the thread, if there is one. */
    method CloseSession(id: nat)
      requires Valid() && id in sessions
      modifies `sessions, `live
      ensures Valid()
      ensures sessions == old(sessions)[id := Entry(false, NoThread)]
      ensures live == old(live) - Threads(old(sessions), id)
    {
      JoinedIsRegistered(sessions, live, created, openings, id);
      assert sessions[id].running == sessions[id].thread.Joinable?;
      hide Covers, Registry;
      if !sessions[id].running { assert sessions[id] == Entry(false, NoThread); }
      if sessions[id].running {
        live := live - {sessions[id].thread.t};
        sessions := sessions[id := Entry(false, NoThread)];
      }
      assert sessions == old(sessions)[id := Entry(false, NoThread)];
    }

    method Stop(id: nat) returns (result: Result)
      requires Valid()
      modifies `sessions, `live
      ensures Valid()
      ensures result == if id !in old(sessions) then ERROR_INVALID_ARGUMENTS
                        else if !old(sessions)[id].running then ERROR_INVALID_STATE else OK
      ensures if result.OK? then
                && sessions == old(sessions)[id := Entry(false, NoThread)]
                && live == old(live) - Threads(old(sessions), id)
              else live == old(live) && sessions == old(sessions)
    {
      if id !in sessions {
        return ERROR_INVALID_ARGUMENTS;
      }
      if !sessions[id].running {
        return ERROR_INVALID_STATE;
      }
      CloseSession(id);
      return OK;
    }

    method Close(id: nat) returns (result: Result)
      requires Valid()
      modifies `sessions, `live
      ensures Valid()
      ensures result == if id in old(sessions) then OK else ERROR_INVALID_ARGUMENTS
      ensures sessions == old(sessions) - {id}
      ensures live == old(live) - Threads(old(sessions), id)
    {
      if id !in sessions {
        return ERROR_INVALID_ARGUMENTS;
      }
      JoinedIsRegistered(sessions, live, created, openings, id);
      hide Covers, Registry;
      CloseSession(id);
      assert sessions - {id} == old(sessions) - {id};
      sessions := sessions - {id};
      return OK;
    }
  }

  // ----- The polling loop -----

  type Block = seq<byte>

  function Same(b: Block): Block { b }

  /** One more block sent, or none, is what the client got or still finds. */
  lemma Carry(q: seq<byte>, sending: seq<Block>, got: seq<byte>, mid: seq<byte>,
              fits: bool, block: Block, data: seq<byte>, end: seq<byte>)
    requires q + Flat(sending) == got + mid && mid + (if fits then block else []) == data + end
    ensures q + Flat(sending + if fits then [block] else []) == got + data + end
  {
    var b := if fits then block else [];
    FlatSnoc(sending, block);
    assert sending + [] == sending && Flat(sending) + [] == Flat(sending);
    hide Flat;
    assert q + (Flat(sending) + b) == (q + Flat(sending)) + b;
    assert (got + mid) + b == got + (mid + b) && got + (data + end) == (got + data) + end;
  }

  /** What the client tries to read before pass `i`. */
  function Wanted(emptied: seq<nat>, i: nat): nat {
    if i < |emptied| then emptied[i] else 0
  }

  /** Output held when pass `i` looks for room, if it held `held` at first. */
  function HeldAt(cap: nat, size: nat, held: nat, emptied: seq<nat>, i: nat): nat
    decreases i, 1
  {
    var before := HeldBefore(cap, size, held, emptied, i);
    if Wanted(emptied, i) <= before then before - Wanted(emptied, i) else before
  }

  /** Output held after `i` passes. */
  function HeldBefore(cap: nat, size: nat, held: nat, emptied: seq<nat>, i: nat): nat
    decreases i, 0
  {
    if i == 0 then held
    else
      var found := HeldAt(cap, size, held, emptied, i - 1);
      if found + size <= cap then found + size else found
  }

  /** Which of the first `n` passes find room for their block. */
  function Verdicts(cap: nat, size: nat, held: nat, emptied: seq<nat>, n: nat): (kept: seq<bool>)
    ensures |kept| == n
  {
    if n == 0 then []
    else Verdicts(cap, size, held, emptied, n - 1) + [HeldAt(cap, size, held, emptied, n - 1) + size <= cap]
  }

  /** The blocks `taking` were drained, and those that found room are `sending`. */
  ghost predicate Drained(cap: nat, size: nat, held: nat, emptied: seq<nat>, taking: seq<Block>, sending: seq<Block>) {
    AllOf(taking, size) && sending == SentOf(Same, taking, Verdicts(cap, size, held, emptied, |taking|))
  }

  lemma DrainStarts(cap: nat, size: nat, held: nat, emptied: seq<nat>)
    ensures Drained(cap, size, held, emptied, [], []) && Flat([]) == []
    ensures Verdicts(cap, size, held, emptied, 0) == [] && HeldBefore(cap, size, held, emptied, 0) == held
  {
  }

  lemma DrainsOne(cap: nat, size: nat, held: nat, emptied: seq<nat>, taking: seq<Block>, sending: seq<Block>, block: Block)
    requires Drained(cap, size, held, emptied, taking, sending) && |block| == size
    ensures var i := |taking|;
      var before := HeldBefore(cap, size, held, emptied, i);
      var found := if Wanted(emptied, i) <= before then before - Wanted(emptied, i) else before;
      var fits := found + size <= cap;
      && HeldBefore(cap, size, held, emptied, i + 1) == found + (if fits then size else 0)
      && Verdicts(cap, size, held, emptied, i + 1) == Verdicts(cap, size, held, emptied, i) + [fits]
      && Drained(cap, size, held, emptied, taking + [block], sending + if fits then [block] else [])
  {
    var v := Verdicts(cap, size, held, emptied, |taking|);
    SentOfExtend(Same, taking, block, v);
    SentOfVerdict(Same, taking + [block], v, HeldAt(cap, size, held, emptied, |taking|) + size <= cap);
  }

  lemma DrainEnds(cap: nat, size: nat, held: nat, emptied: seq<nat>, taking: seq<Block>, sending: seq<Block>)
    requires Drained(cap, size, held, emptied, taking, sending)
    ensures AllOf(taking, size) && sending == SentOf(Same, taking, Verdicts(cap, size, held, emptied, |taking|))
    ensures held + |Flat(taking)| <= cap ==> sending == taking
  {
    FlatLength(taking, size);
    if held + size * |taking| <= cap { RoomForAll(cap, size, held, emptied, taking); }
  }

  lemma {:induction false} HeldAtMost(cap: nat, size: nat, held: nat, emptied: seq<nat>, i: nat)
    ensures HeldAt(cap, size, held, emptied, i) <= HeldBefore(cap, size, held, emptied, i) <= held + size * i
  {
    if i > 0 {
      HeldAtMost(cap, size, held, emptied, i - 1);
      TimesAdd(size, i - 1, 1);
    }
  }

  /** With room for everything, nothing is dropped. */
  lemma {:induction false} RoomForAll(cap: nat, size: nat, held: nat, emptied: seq<nat>, blocks: seq<Block>)
    requires held + size * |blocks| <= cap
    ensures SentOf(Same, blocks, Verdicts(cap, size, held, emptied, |blocks|)) == blocks
  {
    if blocks != [] {
      var n := |blocks| - 1;
      var last := blocks[n];
      TimesAdd(size, n, 1);
      HeldAtMost(cap, size, held, emptied, n);
      RoomForAll(cap, size, held, emptied, blocks[..n]);
      assert blocks == blocks[..n] + [last];
      SentOfExtend(Same, blocks[..n], last, Verdicts(cap, size, held, emptied, n));
      SentOfVerdict(Same, blocks, Verdicts(cap, size, held, emptied, n), true);
    }
  }

  /** One session's two queues, as its thread uses them. */
  class PollingThread {
    const bufferSize: nat
    const inputFmq: EffectFmq
    const outputFmq: EffectFmq
    ghost var taken: seq<Block>
    ghost var kept: seq<bool>
    ghost var sent: seq<Block>

    ghost predicate Valid()
      reads this, inputFmq, outputFmq
    {
      && 0 < bufferSize && inputFmq != outputFmq
      && inputFmq.kind.AllOrNothing? && outputFmq.kind.AllOrNothing?
      && inputFmq.Valid() && outputFmq.Valid()
      && |kept| == |taken| && sent == SentOf(Same, taken, kept)
    }

    constructor (bufferSize: nat, capacity: nat)
      requires 0 < bufferSize
      ensures Valid() && fresh(inputFmq) && fresh(outputFmq) && taken == [] && this.bufferSize == bufferSize
    {
      this.bufferSize := bufferSize;
      inputFmq := new EffectFmq(AllOrNothing, capacity);
      outputFmq := new EffectFmq(AllOrNothing, capacity);
      taken, kept, sent := [], [], [];
    }

    /** One pass of the loop while the flag is up: nothing, or one block moved or dropped. */
    method Pass()
      requires Valid()
      modifies this, inputFmq, outputFmq
      ensures Valid()
      ensures |old(inputFmq.content)| < bufferSize ==>
        taken == old(taken) && inputFmq.content == old(inputFmq.content) && outputFmq.content == old(outputFmq.content)
        && kept == old(kept) && sent == old(sent)
      ensures |old(inputFmq.content)| >= bufferSize ==>
        var fits := |old(outputFmq.content)| + bufferSize <= outputFmq.capacity;
        var block := old(inputFmq.content)[..bufferSize];
        && inputFmq.content == old(inputFmq.content)[bufferSize..]
        && taken == old(taken) + [block]
        && kept == old(kept) + [fits] && sent == old(sent) + (if fits then [block] else [])
        && outputFmq.content == old(outputFmq.content) + (if fits then block else [])
    {
      var available := inputFmq.AvailableToRead();
      if available < bufferSize {
        return;
      }
      var data := inputFmq.Read(bufferSize);
      assert data == old(inputFmq.content)[..bufferSize];
      ghost var taken0 := taken;
      taken := taken + [data];
      var space := outputFmq.AvailableToWrite();
      if space < bufferSize {
        kept := kept + [false];
      } else {
        var _ := outputFmq.Write(data);
        kept, sent := kept + [true], sent + [data];
      }
      SentOfExtend(Same, taken0, data, old(kept));
      SentOfVerdict(Same, taken, old(kept), space >= bufferSize);
    }

    /** The client reads `wanted` bytes of output if it can, then the loop makes a pass. */
    method PassAfterRead(wanted: nat) returns (got: seq<byte>, ghost fits: bool)
      requires Valid() && bufferSize <= |inputFmq.content|
      modifies this, inputFmq, outputFmq
      ensures Valid()
      ensures |got| == if wanted <= old(|outputFmq.content|) then wanted else 0
      ensures fits == (old(|outputFmq.content|) - |got| + bufferSize <= outputFmq.capacity)
      ensures var block := old(inputFmq.content)[..bufferSize];
        && inputFmq.content == old(inputFmq.content)[bufferSize..]
        && taken == old(taken) + [block] && kept == old(kept) + [fits]
        && sent == old(sent) + (if fits then [block] else [])
        && old(outputFmq.content) + (if fits then block else []) == got + outputFmq.content
    {
      hide SentOf;
      got := outputFmq.Read(wanted);
      fits := |outputFmq.content| + bufferSize <= outputFmq.capacity;
      Pass();
    }

    /** Once the producer stops, the loop drains its input to less than a block, however the client
        reads the output meanwhile (`emptied[i]` bytes before pass `i`, `got` in all): every block
        is either written, in order, or dropped, and dropped exactly if its own pass finds no room. */
    method Drain(emptied: seq<nat>) returns (got: seq<byte>)
      requires Valid()
      modifies this, inputFmq, outputFmq
      ensures Valid() && |inputFmq.content| < bufferSize
      ensures old(taken) <= taken && AllOf(taken[|old(taken)|..], bufferSize)
      ensures old(inputFmq.content) == Flat(taken[|old(taken)|..]) + inputFmq.content
      ensures old(sent) <= sent && old(outputFmq.content) + Flat(sent[|old(sent)|..]) == got + outputFmq.content
      ensures |taken| == |sent| + Falses(kept)
      ensures kept == old(kept) +
        Verdicts(outputFmq.capacity, bufferSize, old(|outputFmq.content|), emptied, |taken| - |old(taken)|)
      ensures sent[|old(sent)|..] == SentOf(Same, taken[|old(taken)|..], kept[|old(kept)|..])
      ensures old(|outputFmq.content| + |inputFmq.content|) <= outputFmq.capacity ==>
        sent[|old(sent)|..] == taken[|old(taken)|..]
    {
      ghost var held, cap := |outputFmq.content|, outputFmq.capacity;
      hide SentOf, Falses, Flat, Verdicts, HeldAt, HeldBefore, Drained;
      ghost var taking, sending;
      got, taking, sending := RunLoop(emptied);
      VerdictsCount(Same, taken, kept);
      DrainEnds(cap, bufferSize, held, emptied, taking, sending);
      assert taken[|old(taken)|..] == taking && sent[|old(sent)|..] == sending;
      assert kept[|old(kept)|..] == Verdicts(cap, bufferSize, held, emptied, |taking|);
    }

    method RunLoop(emptied: seq<nat>) returns (got: seq<byte>, ghost taking: seq<Block>, ghost sending: seq<Block>)
      requires Valid()
      modifies this, inputFmq, outputFmq
      ensures Valid() && |inputFmq.content| < bufferSize
      ensures taken == old(taken) + taking && sent == old(sent) + sending
      ensures old(inputFmq.content) == Flat(taking) + inputFmq.content
      ensures old(outputFmq.content) + Flat(sending) == got + outputFmq.content
      ensures var held, cap := old(|outputFmq.content|), outputFmq.capacity;
        && kept == old(kept) + Verdicts(cap, bufferSize, held, emptied, |taking|)
        && Drained(cap, bufferSize, held, emptied, taking, sending)
    {
      var i := 0;
      got, taking, sending := [], [], [];
      ghost var held, cap := |outputFmq.content|, outputFmq.capacity;
      DrainStarts(cap, bufferSize, held, emptied);
      hide SentOf, Falses, Flat, Verdicts, HeldAt, HeldBefore, Drained;
      while |inputFmq.content| >= bufferSize
        invariant Valid() && i == |taking|
        invariant taken == old(taken) + taking && sent == old(sent) + sending
        invariant old(inputFmq.content) == Flat(taking) + inputFmq.content
        invariant old(outputFmq.content) + Flat(sending) == got + outputFmq.content
        invariant kept == old(kept) + Verdicts(cap, bufferSize, held, emptied, i)
        invariant |outputFmq.content| == HeldBefore(cap, bufferSize, held, emptied, i)
        invariant Drained(cap, bufferSize, held, emptied, taking, sending)
        decreases |inputFmq.content|
      {
        ghost var block, output0 := inputFmq.content[..bufferSize], outputFmq.content;
        var data, fits := PassAfterRead(Wanted(emptied, i));
        FlatSnoc(taking, block);
        Carry(old(outputFmq.content), sending, got, output0, fits, block, data, outputFmq.content);
        DrainsOne(cap, bufferSize, held, emptied, taking, sending, block);
        got, taking, i := got + data, taking + [block], i + 1;
        sending := sending + if fits then [block] else [];
      }
    }
  }
}
