/** Runs of the concurrent ring buffer as histories of calls: the completed calls, taken in the
    order of their index stores, are a sequential run of the reference FIFO. */
module RingRuns {
  import opened Words
  import opened RingSteps
  import RingBuffers

  datatype Done = Done(op: RingBuffers.Op, reply: RingBuffers.Reply)

  /** The call that step `e` completes, if it completes one, as the bytes it moved. */
  ghost function Entry(s: State, e: Event): seq<Done> {
    if Step(s, e) == s then []
    else if e.PublishWrite? && s.producer.PCopying? then
      [Done(RingBuffers.Write(s.producer.bytes), RingBuffers.Wrote(|s.producer.bytes|))]
    else if e.PublishRead? && s.consumer.CCopying?
         && forall k :: 0 <= k < s.consumer.count ==> k in s.consumer.got then
      [Done(RingBuffers.Read(s.consumer.count), RingBuffers.Got(Delivered(s.consumer)))]
    else []
  }

  /** The completed calls of a run, in the order of their index stores, with what they returned. */
  ghost function Completed(s: State, events: seq<Event>): seq<Done> {
    if events == [] then []
    else
      var before, e := events[..|events| - 1], events[|events| - 1];
      Completed(s, before) + Entry(Exec(s, before), e)
  }

  /** The contents of the reference FIFO after a history of calls. */
  ghost function FifoAfter(cap: nat, log: seq<Done>): (q: seq<byte>)
    ensures |q| <= cap
  {
    if log == [] then []
    else RingBuffers.FifoNext(FifoAfter(cap, log[..|log| - 1]), cap, log[|log| - 1].op)
  }

  /** Every reply of the history is the one the reference FIFO gives. */
  ghost predicate FifoLog(cap: nat, log: seq<Done>) {
    log != [] ==>
      var before, last := log[..|log| - 1], log[|log| - 1];
      FifoLog(cap, before) && RingBuffers.FifoAnswer(FifoAfter(cap, before), cap, last.op) == last.reply
  }

  /** One more call, answered as the FIFO answers it. */
  lemma LogSnoc(cap: nat, log: seq<Done>, last: Done)
    requires FifoLog(cap, log)
    requires RingBuffers.FifoAnswer(FifoAfter(cap, log), cap, last.op) == last.reply
    ensures FifoLog(cap, log + [last])
    ensures FifoAfter(cap, log + [last]) == RingBuffers.FifoNext(FifoAfter(cap, log), cap, last.op)
  {
    assert (log + [last])[..|log|] == log;
  }

  lemma EntryIsFifo(cap: nat, log: seq<Done>, s: State, e: Event)
    requires Inv(s) && cap == |s.data| && FifoLog(cap, log) && FifoAfter(cap, log) == Queue(s)
    ensures |Step(s, e).taken| <= |Step(s, e).accepted|
    ensures var log' := log + Entry(s, e);
      FifoLog(cap, log') && FifoAfter(cap, log') == Queue(Step(s, e))
  {
    StepRefinesFifo(s, e);
    MovesFit(s, e);
    hide Pos, U64, Step, Inv, FifoLog, FifoAfter;
    if Entry(s, e) != [] {
      LogSnoc(cap, log, Entry(s, e)[0]);
      assert log + Entry(s, e) == log + [Entry(s, e)[0]];
    } else {
      assert log + Entry(s, e) == log;
    }
  }

  /** A completing step published a whole copy; no other step moves the queue. */
  lemma MovesFit(s: State, e: Event)
    requires Inv(s)
    ensures |Step(s, e).taken| <= |Step(s, e).accepted|
    ensures e.PublishWrite? && Step(s, e) != s ==> s.producer.PCopying?
    ensures e.PublishRead? && Step(s, e) != s ==>
      s.consumer.CCopying? && forall k :: 0 <= k < s.consumer.count ==> k in s.consumer.got
    ensures Step(s, e) != s && e.PublishRead? ==> |Delivered(s.consumer)| == s.consumer.count
  {
    hide Pos, U64;
    if e.PublishRead? && Step(s, e) != s { DeliveredIsNext(s); }
  }

  /** Linearizability: every interleaving is a run of the atomic FIFO of the sequential theorems,
      each call taking effect whole, at its index store. */
  lemma {:induction false} RunsAreLinearizable(data: seq<byte>, events: seq<Event>)
    requires 0 < |data| < POW32 && WrapSafe(Exec(Start(data), events))
    ensures var s, log := Exec(Start(data), events), Completed(Start(data), events);
      && |s.taken| <= |s.accepted|
      && FifoLog(|data|, log) && FifoAfter(|data|, log) == Queue(s)
  {
    if events != [] {
      var before, e := events[..|events| - 1], events[|events| - 1];
      var s := Exec(Start(data), before);
      AcceptedGrows(s, e);
      hide Inv, Step, FifoLog, FifoAfter, U64, Pos, Entry;
      RunsAreLinearizable(data, before);
      RunKeepsInv(data, before);
      EntryIsFifo(|data|, Completed(Start(data), before), s, e);
    }
  }
}
