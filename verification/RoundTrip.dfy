/** The round trip between the audio HAL and effectd as a state machine: one step is one access
    to shared state by either side, and the two sides interleave freely. Queue calls are atomic
    here, which RingSteps justifies for the fallback ring. */
module RoundTrip {
  import opened Words
  import opened EventFds
  import Queues

  type Block = seq<byte>

  /** Which code is built: the Android queue, the same client over the fallback queue, or the
      legacy ring-buffer client. */
  datatype Build = Android | Fallback | Legacy

  /** `frames` per call, making `block` bytes; `f` is the effect applied to each block. */
  datatype Config = Config(build: Build, frames: nat, block: nat, capacity: nat, f: Block -> Block) {
    ghost predicate Valid() {
      0 < block && capacity < POW32 && forall b :: |f(b)| == |b|
    }

    function Kind(): Queues.Kind {
      if build.Android? then Queues.AllOrNothing else Queues.Partial
    }

    /** Blocks that fit in a queue. */
    function Room(): nat
      requires 0 < block
    {
      capacity / block
    }
  }

  datatype Client =
    | CIdle
    | COwes(input: Block)   // wrote its block, has yet to signal
    | CWaits(input: Block)
    | CWoken(input: Block)  // took a signal, has yet to read

  datatype Daemon =
    | DTop
    | DWaits
    | DWoken
    | DReady
    | DHolds(block: Block)
    | DMade(block: Block)
    | DOwes
    | DCounts
    | DExited

  /** Shared queues and eventfds, both sides' program counters and statistics, and the history:
      blocks the client got into the input queue whole, how many of them the daemon took, which
      of those it kept, and the blocks sent to and read from the output queue. */
  datatype State = State(
    inQ: seq<byte>, outQ: seq<byte>, inCount: nat, outCount: nat,
    client: Client, daemon: Daemon, running: bool,
    accepted: seq<Block>, taken: nat, kept: seq<bool>, sent: seq<Block>, delivered: seq<Block>,
    timeouts: nat, xruns: nat, shortReads: nat, clientFrames: nat,
    daemonFrames: nat, droppedFrames: nat, daemonXruns: nat, starved: nat)

  datatype Event =
    | Call(input: Block)
    | SignalIn
    | WaitOut(expired: bool)
    | ReadOut
    | TestRunning
    | WaitIn(expired: bool)
    | CheckIn
    | ReadIn
    | Make
    | WriteOut
    | SignalOut
    | Count
    | Stop

  predicate ByDaemon(e: Event) {
    e.TestRunning? || e.WaitIn? || e.CheckIn? || e.ReadIn? || e.Make? || e.WriteOut? || e.SignalOut? || e.Count?
  }

  predicate ByClient(e: Event) {
    e.Call? || e.SignalIn? || e.WaitOut? || e.ReadOut?
  }

  function Start(): State {
    State([], [], 0, 0, CIdle, DTop, true, [], 0, [], [], [], 0, 0, 0, 0, 0, 0, 0, 0)
  }

  ghost predicate Fits(c: Config, s: State) {
    |s.inQ| <= c.capacity && |s.outQ| <= c.capacity
  }

  /** `EffectClient_Process`, one shared access at a time. */
  function ClientStep(c: Config, s: State, e: Event): State
    requires Fits(c, s)
  {
    match e
    case Call(input) =>
      if s.client.CIdle? && |input| == c.block then
        var n := Queues.Accepts(c.Kind(), |s.inQ|, c.capacity, c.block);
        var s1 := s.(inQ := s.inQ + input[..n]);
        if n < c.block then s1.(xruns := s.xruns + 1)
        else s1.(accepted := s.accepted + [input], client := COwes(input))
      else s
    case SignalIn =>
      if s.client.COwes? then s.(inCount := Signalled(s.inCount), client := CWaits(s.client.input)) else s
    case WaitOut(expired) =>
      if !s.client.CWaits? then s
      else if !expired && s.outCount > 0 then s.(outCount := 0, client := CWoken(s.client.input))
      else s.(timeouts := s.timeouts + 1, client := CIdle)
    case ReadOut =>
      if s.client.CWoken? then
        var n := Queues.Gives(c.Kind(), |s.outQ|, c.block);
        var s1 := s.(outQ := s.outQ[n..], client := CIdle);
        if n < c.block then s1.(shortReads := s.shortReads + 1)
        else s1.(delivered := s.delivered + [s.outQ[..n]], clientFrames := s.clientFrames + c.frames)
      else s
    case _ => s
  }

  /** `processing_thread_func`, one shared access at a time. */
  function DaemonStep(c: Config, s: State, e: Event): State
    requires Fits(c, s)
  {
    match e
    case TestRunning =>
      if s.daemon.DTop? then s.(daemon := if s.running then DWaits else DExited) else s
    case WaitIn(expired) =>
      if !s.daemon.DWaits? then s
      else if !expired && s.inCount > 0 then s.(inCount := 0, daemon := DWoken)
      else s.(daemon := DTop)
    case CheckIn =>
      if !s.daemon.DWoken? then s
      else if |s.inQ| < c.block then s.(starved := s.starved + 1, daemon := DTop)
      else s.(daemon := DReady)
    case ReadIn =>
      if s.daemon.DReady? then
        var n := Queues.Gives(c.Kind(), |s.inQ|, c.block);
        var s1 := s.(inQ := s.inQ[n..]);
        if n < c.block then s1.(daemonXruns := s.daemonXruns + 1, daemon := DTop)
        else s1.(taken := s.taken + 1, daemon := DHolds(s.inQ[..n]))
      else s
    case Make =>
      if s.daemon.DHolds? then s.(daemon := DMade(c.f(s.daemon.block))) else s
    case WriteOut =>
      if s.daemon.DMade? && |s.daemon.block| == c.block then
        var n := Queues.Accepts(c.Kind(), |s.outQ|, c.capacity, c.block);
        var s1 := s.(outQ := s.outQ + s.daemon.block[..n]);
        if n < c.block then
          s1.(droppedFrames := s.droppedFrames + c.frames, kept := s.kept + [false], daemon := DTop)
        else s1.(kept := s.kept + [true], sent := s.sent + [s.daemon.block], daemon := DOwes)
      else s
    case SignalOut =>
      if s.daemon.DOwes? then s.(outCount := Signalled(s.outCount), daemon := DCounts) else s
    case Count =>
      if s.daemon.DCounts? then s.(daemonFrames := s.daemonFrames + c.frames, daemon := DTop) else s
    case Stop => s.(running := false)
    case _ => s
  }

  /** One atomic step; an event that is not enabled changes nothing. */
  function Step(c: Config, s: State, e: Event): (s': State)
    requires Fits(c, s)
    ensures Fits(c, s')
  {
    if ByClient(e) then ClientStep(c, s, e) else DaemonStep(c, s, e)
  }

  function Run(c: Config, s: State, events: seq<Event>): (s': State)
    requires Fits(c, s)
    ensures Fits(c, s')
  {
    if events == [] then s
    else Step(c, Run(c, s, events[..|events| - 1]), events[|events| - 1])
  }

  function Exec(c: Config, events: seq<Event>): State { Run(c, Start(), events) }

  lemma {:induction false} RunConcat(c: Config, s: State, a: seq<Event>, b: seq<Event>)
    requires Fits(c, s)
    ensures Run(c, s, a + b) == Run(c, Run(c, s, a), b)
    decreases |b|
  {
    if b == [] {
      assert a + b == a;
    } else {
      var last := b[|b| - 1];
      assert (a + b)[..|a + b| - 1] == a + b[..|b| - 1] && (a + b)[|a + b| - 1] == last;
      RunConcat(c, s, a, b[..|b| - 1]);
    }
  }

  lemma ExecSnoc(c: Config, events: seq<Event>, e: Event)
    ensures Exec(c, events + [e]) == Step(c, Exec(c, events), e)
  {
    assert (events + [e])[..|events|] == events;
  }

  lemma RunOne(c: Config, s: State, e: Event)
    requires Fits(c, s)
    ensures Run(c, s, [e]) == Step(c, s, e)
  {
    assert Run(c, s, []) == s;
  }

  /** The daemon's write when its block goes in whole, and when it does not. */
  lemma WriteOutSending(c: Config, s: State)
    requires Fits(c, s) && s.daemon.DMade? && |s.daemon.block| == c.block && |s.outQ| + c.block <= c.capacity
    ensures Step(c, s, WriteOut) ==
      s.(outQ := s.outQ + s.daemon.block, kept := s.kept + [true], sent := s.sent + [s.daemon.block], daemon := DOwes)
  {
    assert s.daemon.block[..c.block] == s.daemon.block;
  }

  lemma WriteOutDropping(c: Config, s: State)
    requires Fits(c, s) && s.daemon.DMade? && |s.daemon.block| == c.block && |s.outQ| + c.block > c.capacity
    ensures Step(c, s, WriteOut) ==
      s.(outQ := s.outQ + s.daemon.block[..Queues.Accepts(c.Kind(), |s.outQ|, c.capacity, c.block)],
         kept := s.kept + [false], droppedFrames := s.droppedFrames + c.frames, daemon := DTop)
  {
  }

  /** The client's read when a whole block is there. */
  lemma ReadOutTaking(c: Config, s: State)
    requires Fits(c, s) && s.client.CWoken? && c.block <= |s.outQ|
    ensures Step(c, s, ReadOut) ==
      s.(outQ := s.outQ[c.block..], client := CIdle, delivered := s.delivered + [s.outQ[..c.block]],
         clientFrames := s.clientFrames + c.frames)
  {
  }

  // ----- Tokens: every signal is backed by a block -----

  /** Signals on the input side that are pending, held by a woken daemon, or owed by the client. */
  function InTokens(s: State): nat {
    s.inCount + (if s.daemon.DWoken? || s.daemon.DReady? then 1 else 0) + (if s.client.COwes? then 1 else 0)
  }

  function OutTokens(s: State): nat {
    s.outCount + (if s.client.CWoken? then 1 else 0) + (if s.daemon.DOwes? then 1 else 0)
  }

  /** Each token stands for a whole block among the bytes held. */
  ghost predicate Backed(block: nat, tokens: nat, held: nat) {
    block * tokens <= held
  }

  ghost predicate TokenInv(c: Config, s: State) {
    && Fits(c, s)
    && Backed(c.block, InTokens(s), |s.inQ|)
    && Backed(c.block, OutTokens(s), |s.outQ|)
    && (s.daemon.DHolds? || s.daemon.DMade? ==> |s.daemon.block| == c.block)
    && s.starved == 0 && s.daemonXruns == 0 && s.shortReads == 0
  }

  lemma TimesMonotone(k: nat, a: nat, b: nat)
    requires a <= b
    ensures k * a <= k * b
  {
  }

  /** A token in hand means a whole block in the queue, and no eventfd is near its limit. */
  lemma TokensAreBlocks(c: Config, s: State)
    requires c.Valid() && TokenInv(c, s)
    ensures InTokens(s) > 0 ==> c.block <= |s.inQ|
    ensures OutTokens(s) > 0 ==> c.block <= |s.outQ|
    ensures Signalled(s.inCount) == s.inCount + 1 && Signalled(s.outCount) == s.outCount + 1
  {
    if InTokens(s) > 0 { TimesMonotone(c.block, 1, InTokens(s)); }
    if OutTokens(s) > 0 { TimesMonotone(c.block, 1, OutTokens(s)); }
    TimesMonotone(InTokens(s), 1, c.block);
    TimesMonotone(OutTokens(s), 1, c.block);
    assert InTokens(s) * c.block == c.block * InTokens(s) && OutTokens(s) * c.block == c.block * OutTokens(s);
  }

  /** Tokens stay backed when a whole block comes with a new one, when one leaves with a block,
      and when there are fewer tokens or more bytes. */
  lemma BackedMoves(block: nat, tokens: nat, held: nat, fewer: nat, more: nat)
    requires Backed(block, tokens, held)
    ensures Backed(block, tokens + 1, held + block)
    ensures tokens > 0 ==> block <= held && Backed(block, tokens - 1, held - block)
    ensures fewer <= tokens && held <= more ==> Backed(block, fewer, more)
  {
    if tokens > 0 { TimesMonotone(block, 1, tokens); }
    if fewer <= tokens { TimesMonotone(block, fewer, tokens); }
  }

  lemma ClientKeepsTokens(c: Config, s: State, e: Event)
    requires c.Valid() && TokenInv(c, s)
    ensures TokenInv(c, ClientStep(c, s, e))
  {
    TokensAreBlocks(c, s);
    hide Backed, Signalled;
    var s' := ClientStep(c, s, e);
    BackedMoves(c.block, InTokens(s), |s.inQ|, InTokens(s), |s'.inQ|);
    BackedMoves(c.block, OutTokens(s), |s.outQ|, OutTokens(s'), |s.outQ|);
  }

  lemma DaemonKeepsTokens(c: Config, s: State, e: Event)
    requires c.Valid() && TokenInv(c, s)
    ensures TokenInv(c, DaemonStep(c, s, e))
  {
    TokensAreBlocks(c, s);
    hide Backed, Signalled;
    var s' := DaemonStep(c, s, e);
    BackedMoves(c.block, InTokens(s), |s.inQ|, InTokens(s'), |s.inQ|);
    BackedMoves(c.block, OutTokens(s), |s.outQ|, OutTokens(s), |s'.outQ|);
  }

  /** On both queues of every build, in every reachable state, each pending, held or owed signal
      is backed by a whole block, even after partial writes; so the "not enough data" return of
      the daemon, its xrun, and the client's short read never happen. */
  lemma {:induction false} TokensHold(c: Config, events: seq<Event>)
    requires c.Valid()
    ensures TokenInv(c, Exec(c, events))
  {
    if events != [] {
      var before, e := events[..|events| - 1], events[|events| - 1];
      TokensHold(c, before);
      if ByClient(e) { ClientKeepsTokens(c, Exec(c, before), e); } else { DaemonKeepsTokens(c, Exec(c, before), e); }
    }
  }

  // ----- Stranded input -----

  /** Bytes of input that no pending, held or owed signal will make the daemon look at. */
  function Uncovered(c: Config, s: State): int {
    |s.inQ| - c.block * InTokens(s)
  }

  /** What a step strands: a wake-up all the signals it clears but one, and a refused write the
      bytes it left behind. */
  function NewlyStranded(c: Config, s: State, e: Event): nat
    requires Fits(c, s)
  {
    if e.WaitIn? && s.daemon.DWaits? && !e.expired && s.inCount > 0 then c.block * (s.inCount - 1)
    else if e.Call? && Step(c, s, e).xruns > s.xruns then Queues.Accepts(c.Kind(), |s.inQ|, c.capacity, c.block)
    else 0
  }

  lemma TimesAdd(k: nat, a: nat, b: int)
    ensures k * (a + b) == k * a + k * b
  {
  }

  lemma StrandedByClient(c: Config, s: State, e: Event)
    requires c.Valid() && TokenInv(c, s) && ByClient(e)
    ensures Uncovered(c, Step(c, s, e)) == Uncovered(c, s) + NewlyStranded(c, s, e)
  {
    TokensAreBlocks(c, s);
    TimesAdd(c.block, InTokens(s), InTokens(Step(c, s, e)) - InTokens(s));
  }

  lemma StrandedByWaking(c: Config, s: State, expired: bool)
    requires c.Valid() && TokenInv(c, s)
    ensures Uncovered(c, Step(c, s, WaitIn(expired))) == Uncovered(c, s) + NewlyStranded(c, s, WaitIn(expired))
  {
    var s' := Step(c, s, WaitIn(expired));
    if s.daemon.DWaits? && !expired && s.inCount > 0 {
      TimesAdd(c.block, InTokens(s'), s.inCount - 1);
    }
  }

  lemma StrandedByDaemon(c: Config, s: State, e: Event)
    requires c.Valid() && TokenInv(c, s) && !ByClient(e) && !e.WaitIn?
    ensures Uncovered(c, Step(c, s, e)) == Uncovered(c, s)
  {
    TokensAreBlocks(c, s);
    hide Signalled, Backed;
    TimesAdd(c.block, InTokens(s), InTokens(Step(c, s, e)) - InTokens(s));
  }

  /** Stranded input never shrinks, and grows by exactly what each step strands. */
  lemma StrandedStep(c: Config, s: State, e: Event)
    requires c.Valid() && TokenInv(c, s)
    ensures Uncovered(c, Step(c, s, e)) == Uncovered(c, s) + NewlyStranded(c, s, e)
  {
    if ByClient(e) { StrandedByClient(c, s, e); }
    else if e.WaitIn? { StrandedByWaking(c, s, e.expired); }
    else { hide Step; StrandedByDaemon(c, s, e); }
  }

  /** Hence blocks coalesced by one wake-up stay in the input queue for ever after. */
  lemma {:induction false} StrandedForEver(c: Config, before: seq<Event>, after: seq<Event>)
    requires c.Valid()
    requires var s := Exec(c, before); s.daemon.DWaits? && s.inCount > 0
    ensures var n := Exec(c, before).inCount;
      c.block * (n - 1) <= |Exec(c, before + [WaitIn(false)] + after).inQ|
  {
    var s := Exec(c, before);
    TokensHold(c, before);
    StrandedStep(c, s, WaitIn(false));
    RunConcat(c, Start(), before, [WaitIn(false)]);
    RunOne(c, s, WaitIn(false));
    UncoveredGrows(c, before + [WaitIn(false)], after);
    TimesMonotone(c.block, 0, InTokens(Exec(c, before + [WaitIn(false)] + after)));
  }

  lemma {:induction false} UncoveredGrows(c: Config, before: seq<Event>, after: seq<Event>)
    requires c.Valid()
    ensures Uncovered(c, Exec(c, before)) <= Uncovered(c, Exec(c, before + after))
    decreases |after|
  {
    if after == [] {
      assert before + after == before;
    } else {
      var all, e := before + after[..|after| - 1], after[|after| - 1];
      assert before + after == all + [e];
      assert (all + [e])[..|all|] == all;
      UncoveredGrows(c, before, after[..|after| - 1]);
      TokensHold(c, all);
      StrandedStep(c, Exec(c, all), e);
    }
  }

  /** Bytes of output that no pending or owed signal, or woken client, will make the client read. */
  function UncoveredOutput(c: Config, s: State): int {
    |s.outQ| - c.block * OutTokens(s)
  }

  /** What a step strands on the output side: a client's wake-up all the signals it clears but one,
      and a dropped block the bytes it left behind. */
  function NewlyStrandedOutput(c: Config, s: State, e: Event): nat
    requires Fits(c, s)
  {
    if e.WaitOut? && s.client.CWaits? && !e.expired && s.outCount > 0 then c.block * (s.outCount - 1)
    else if e.WriteOut? && s.daemon.DMade? && |s.outQ| + c.block > c.capacity then
      Queues.Accepts(c.Kind(), |s.outQ|, c.capacity, c.block)
    else 0
  }

  lemma StrandedOutputByWaking(c: Config, s: State, expired: bool)
    requires c.Valid() && TokenInv(c, s)
    ensures UncoveredOutput(c, Step(c, s, WaitOut(expired)))
         == UncoveredOutput(c, s) + NewlyStrandedOutput(c, s, WaitOut(expired))
  {
    var s' := Step(c, s, WaitOut(expired));
    if s.client.CWaits? && !expired && s.outCount > 0 {
      TimesAdd(c.block, OutTokens(s'), s.outCount - 1);
    }
  }

  lemma StrandedOutputByWriting(c: Config, s: State)
    requires c.Valid() && TokenInv(c, s)
    ensures UncoveredOutput(c, Step(c, s, WriteOut)) == UncoveredOutput(c, s) + NewlyStrandedOutput(c, s, WriteOut)
  {
    TimesAdd(c.block, OutTokens(s), 1);
  }

  lemma StrandedOutputByRest(c: Config, s: State, e: Event)
    requires c.Valid() && TokenInv(c, s) && !e.WaitOut? && !e.WriteOut?
    ensures UncoveredOutput(c, Step(c, s, e)) == UncoveredOutput(c, s)
  {
    TokensAreBlocks(c, s);
    TimesAdd(c.block, OutTokens(s), OutTokens(Step(c, s, e)) - OutTokens(s));
  }

  /** The same for the output: every signal of the daemon makes the client read one block, except
      those that one wake-up coalesces. */
  lemma StrandedOutputStep(c: Config, s: State, e: Event)
    requires c.Valid() && TokenInv(c, s)
    ensures UncoveredOutput(c, Step(c, s, e)) == UncoveredOutput(c, s) + NewlyStrandedOutput(c, s, e)
  {
    match e {
      case WaitOut(expired) => StrandedOutputByWaking(c, s, expired);
      case WriteOut => StrandedOutputByWriting(c, s);
      case _ => hide Step; StrandedOutputByRest(c, s, e);
    }
  }

  // ----- Stopping -----

  /** Daemon steps left before it exits, once `running` is false. */
  function StepsLeft(d: Daemon): (n: nat)
    ensures n <= 8 && (n == 0 <==> d.DExited?)
  {
    match d
    case DExited => 0
    case DTop => 1
    case DCounts => 2
    case DOwes => 3
    case DMade(_) => 4
    case DHolds(_) => 5
    case DReady => 6
    case DWoken => 7
    case DWaits => 8
  }

  /** The daemon's next statement. */
  function DaemonEvent(d: Daemon, expired: bool): Event {
    match d
    case DTop => TestRunning
    case DWaits => WaitIn(expired)
    case DWoken => CheckIn
    case DReady => ReadIn
    case DHolds(_) => Make
    case DMade(_) => WriteOut
    case DOwes => SignalOut
    case DCounts => Count
    case DExited => TestRunning
  }

  /** How many of the events are steps the daemon really takes. */
  function DaemonSteps(c: Config, s: State, events: seq<Event>): nat
    requires Fits(c, s)
  {
    if events == [] then 0
    else
      var before, e := events[..|events| - 1], events[|events| - 1];
      var t := Run(c, s, before);
      DaemonSteps(c, s, before) + (if ByDaemon(e) && Step(c, t, e) != t then 1 else 0)
  }

  lemma StopStep(c: Config, s: State, e: Event)
    requires Fits(c, s) && !s.running
    ensures var t := Step(c, s, e);
      && !t.running
      && StepsLeft(t.daemon) + (if ByDaemon(e) && t != s then 1 else 0) <= StepsLeft(s.daemon)
      && t.taken + (if StepsLeft(t.daemon) >= 6 then 1 else 0) <= s.taken + (if StepsLeft(s.daemon) >= 6 then 1 else 0)
  {
  }

  /** Once `running` is false, in every schedule: the daemon takes at most eight more steps and
      at most one more block. */
  lemma {:induction false} StopIsBounded(c: Config, s: State, events: seq<Event>)
    requires Fits(c, s) && !s.running
    ensures var t := Run(c, s, events);
      && !t.running
      && DaemonSteps(c, s, events) + StepsLeft(t.daemon) <= StepsLeft(s.daemon)
      && t.taken + (if StepsLeft(t.daemon) >= 6 then 1 else 0) <= s.taken + (if StepsLeft(s.daemon) >= 6 then 1 else 0)
  {
    if events != [] {
      hide Step, StepsLeft;
      StopIsBounded(c, s, events[..|events| - 1]);
      StopStep(c, Run(c, s, events[..|events| - 1]), events[|events| - 1]);
    }
  }

  /** The daemon is never stuck before it exits, and after that it never moves again: its events
      leave both queues, both eventfds and everything else alone. */
  lemma DaemonMovesUntilExit(c: Config, s: State, expired: bool, e: Event)
    requires c.Valid() && TokenInv(c, s)
    ensures !s.daemon.DExited? ==> Step(c, s, DaemonEvent(s.daemon, expired)).daemon != s.daemon
    ensures s.daemon.DExited? && ByDaemon(e) ==> Step(c, s, e) == s
  {
  }
}
