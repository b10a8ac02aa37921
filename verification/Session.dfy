/** The code of both sides over shared objects: `EffectClient_Process`, the daemon's processing
    thread and its life cycle. Every statement that touches shared state is proved to be a step of
    the RoundTrip machine, so a session object always holds a state that machine can reach. */
module Sessions {
  import opened Words
  import opened EventFds
  import opened Stats
  import opened RoundTrip
  import opened RoundTripFlow
  import opened Schedules
  import opened Queues
  import RingBuffers

  datatype EffectResult =
    | EFFECT_OK
    | EFFECT_ERROR_INVALID_STATE
    | EFFECT_ERROR_TIMEOUT
    | EFFECT_ERROR_DEAD_OBJECT

  datatype SessionState = IDLE | OPENED | STARTED | STOPPED

  /** How the shared-state half of a call ends. */
  datatype Outcome = Refused | TimedOut | Answered(data: Block)

  lemma HandIsBlock(c: Config, events: seq<Event>)
    requires c.Valid()
    ensures var d := Exec(c, events).daemon; d.DHolds? || d.DMade? ==> |d.block| == c.block
  {
    TokensHold(c, events);
  }

  class Session {
    const cfg: Config
    const inputFmq: EffectFmq
    const outputFmq: EffectFmq
    const eventFdIn: EventFd
    const eventFdOut: EventFd
    const clientStats: EffectStats
    const daemonStats: EffectStats

    // client
    const isConnected: bool
    var isStarted: bool
    var client: Client

    // daemon
    var state: SessionState
    var threadRunning: bool
    var daemon: Daemon

    ghost var accepted: seq<Block>
    ghost var taken: nat
    ghost var kept: seq<bool>
    ghost var sent: seq<Block>
    ghost var delivered: seq<Block>
    ghost var shortReads: nat
    ghost var starved: nat
    ghost var trace: seq<Event>

    ghost function Repr(): set<object> {
      {this, inputFmq, outputFmq, eventFdIn, eventFdOut, clientStats, daemonStats}
    }

    /** The machine state this object holds. The thread's flag counts as set until it starts. */
    ghost function View(): State
      reads Repr()
    {
      State(inputFmq.content, outputFmq.content, eventFdIn.count, eventFdOut.count,
            client, daemon, threadRunning || state.IDLE? || state.OPENED?,
            accepted, taken, kept, sent, delivered,
            clientStats.timeouts, clientStats.xruns, shortReads, clientStats.processed,
            daemonStats.processed, daemonStats.dropped, daemonStats.xruns, starved)
    }

    ghost predicate Wired()
      reads Repr()
    {
      && inputFmq != outputFmq && eventFdIn != eventFdOut && clientStats != daemonStats
      && cfg.Valid()
      && inputFmq.kind == outputFmq.kind == cfg.Kind()
      && inputFmq.capacity == outputFmq.capacity == cfg.capacity
      && inputFmq.Valid() && outputFmq.Valid()
      && clientStats.Valid() && daemonStats.Valid()
      && LifeCycle()
    }

    ghost predicate Valid()
      reads Repr()
    {
      Wired() && View() == Exec(cfg, trace)
    }

    /** There is a thread only in a started session. */
    ghost predicate LifeCycle()
      reads this
    {
      && (state.IDLE? || state.OPENED? ==> !threadRunning && daemon.DTop?)
      && (state.STOPPED? ==> !threadRunning && daemon.DExited?)
    }

    constructor (cfg: Config, isConnected: bool)
      requires cfg.Valid()
      ensures Valid() && fresh(Repr()) && this.cfg == cfg && trace == []
      ensures state.IDLE? && !isStarted && client.CIdle? && daemon.DTop?
    {
      this.cfg, this.isConnected := cfg, isConnected;
      inputFmq := new EffectFmq(cfg.Kind(), cfg.capacity);
      outputFmq := new EffectFmq(cfg.Kind(), cfg.capacity);
      eventFdIn := new EventFd();
      eventFdOut := new EventFd();
      clientStats := new EffectStats();
      daemonStats := new EffectStats();
      isStarted, client := false, CIdle;
      state, threadRunning, daemon := IDLE, false, DTop;
      accepted, taken, kept, sent, delivered, shortReads, starved, trace := [], 0, [], [], [], 0, 0, [];
    }

    // ----- The client's statements -----

    method WriteInput(input: seq<byte>) returns (ok: bool)
      requires Valid() && client.CIdle? && |input| == cfg.block
      modifies `client, `accepted, `trace, inputFmq, clientStats
      ensures Valid() && trace == old(trace) + [Call(input)]
      ensures ok == (old(|inputFmq.content|) + cfg.block <= cfg.capacity)
      ensures client == if ok then COwes(input) else CIdle
      ensures accepted == old(accepted) + (if ok then [input] else [])
      ensures clientStats.xruns == old(clientStats.xruns) + (if ok then 0 else 1)
      ensures clientStats.timeouts == old(clientStats.timeouts) && clientStats.latencies == old(clientStats.latencies)
      ensures old(inputFmq.content) <= inputFmq.content
    {
      ghost var e := Call(input);
      ExecSnoc(cfg, trace, e);
      hide Exec, Run, DaemonStep, Summary, U32, U64;
      var written := inputFmq.Write(input);
      if written < |input| {
        clientStats.Xrun();
        ok := false;
      } else {
        client, accepted := COwes(input), accepted + [input];
        ok := true;
      }
      trace := trace + [e];
    }

    method SignalInput()
      requires Valid() && client.COwes?
      modifies `client, `trace, eventFdIn
      ensures Valid() && trace == old(trace) + [SignalIn] && client == CWaits(old(client).input)
    {
      ExecSnoc(cfg, trace, SignalIn);
      hide Exec, Run, DaemonStep, Summary, U32, U64;
      var _ := eventFdIn.Signal();
      client, trace := CWaits(client.input), trace + [SignalIn];
    }

    method AwaitOutput(expired: bool) returns (ok: bool)
      requires Valid() && client.CWaits?
      modifies `client, `trace, eventFdOut, clientStats
      ensures Valid() && trace == old(trace) + [WaitOut(expired)]
      ensures ok == (old(eventFdOut.count) > 0 && !expired)
      ensures client == if ok then CWoken(old(client).input) else CIdle
      ensures clientStats.timeouts == old(clientStats.timeouts) + (if ok then 0 else 1)
      ensures clientStats.xruns == old(clientStats.xruns) && clientStats.latencies == old(clientStats.latencies)
    {
      ExecSnoc(cfg, trace, WaitOut(expired));
      hide Exec, Run, DaemonStep, Summary, U32, U64;
      var status := eventFdOut.Wait(expired);
      if status < 0 {
        clientStats.Timeout();
        client := CIdle;
        ok := false;
      } else {
        client := CWoken(client.input);
        ok := true;
      }
      trace := trace + [WaitOut(expired)];
    }

    method ReadOutput(latency: nat) returns (data: seq<byte>)
      requires Valid() && client.CWoken?
      modifies `client, `trace, `delivered, `shortReads, outputFmq, clientStats
      ensures Valid() && trace == old(trace) + [ReadOut] && client.CIdle?
      ensures |data| <= cfg.block && |outputFmq.content| <= old(|outputFmq.content|)
      ensures delivered == old(delivered) + (if |data| == cfg.block then [data] else [])
      ensures shortReads == old(shortReads) + (if |data| == cfg.block then 0 else 1)
      ensures clientStats.timeouts == old(clientStats.timeouts) && clientStats.xruns == old(clientStats.xruns)
      ensures clientStats.latencies == old(clientStats.latencies) + (if |data| == cfg.block then [latency] else [])
    {
      ghost var s := View();
      ExecSnoc(cfg, trace, ReadOut);
      hide Exec, Run, DaemonStep, Summary, U32, U64;
      data := outputFmq.Read(cfg.block);
      assert outputFmq.content == s.outQ[|data|..] && data == s.outQ[..|data|];
      if |data| < cfg.block {
        CountShortRead();
      } else {
        Deliver(data, latency);
      }
    }

    method CountShortRead()
      requires Wired() && client.CWoken?
      requires Exec(cfg, trace + [ReadOut]) == View().(shortReads := shortReads + 1, client := CIdle)
      modifies `client, `trace, `shortReads, clientStats
      ensures Valid() && trace == old(trace) + [ReadOut] && client.CIdle? && shortReads == old(shortReads) + 1
      ensures clientStats.timeouts == old(clientStats.timeouts) && clientStats.xruns == old(clientStats.xruns)
      ensures clientStats.latencies == old(clientStats.latencies)
    {
      hide Exec, Summary, U32, U64;
      clientStats.Drop(cfg.frames);
      shortReads, client, trace := shortReads + 1, CIdle, trace + [ReadOut];
    }

    method Deliver(data: seq<byte>, latency: nat)
      requires Wired() && client.CWoken?
      requires Exec(cfg, trace + [ReadOut]) ==
        View().(delivered := delivered + [data], clientFrames := clientStats.processed + cfg.frames, client := CIdle)
      modifies `client, `trace, `delivered, clientStats
      ensures Valid() && trace == old(trace) + [ReadOut] && client.CIdle? && delivered == old(delivered) + [data]
      ensures clientStats.timeouts == old(clientStats.timeouts) && clientStats.xruns == old(clientStats.xruns)
      ensures clientStats.latencies == old(clientStats.latencies) + [latency]
    {
      hide Exec, Summary, U32, U64;
      clientStats.Complete(cfg.frames, latency);
      delivered, client, trace := delivered + [data], CIdle, trace + [ReadOut];
    }

    // ----- The daemon's statements -----

    method TestFlag()
      requires Valid() && daemon.DTop? && state.STARTED?
      modifies `daemon, `trace
      ensures Valid() && trace == old(trace) + [TestRunning]
      ensures daemon == if threadRunning then DWaits else DExited
    {
      ExecSnoc(cfg, trace, TestRunning);
      hide Exec, Run, ClientStep, Summary, U32, U64;
      daemon, trace := if threadRunning then DWaits else DExited, trace + [TestRunning];
    }

    method AwaitInput(expired: bool) returns (ok: bool)
      requires Valid() && daemon.DWaits?
      modifies `daemon, `trace, eventFdIn
      ensures Valid() && trace == old(trace) + [WaitIn(expired)]
      ensures ok == (old(eventFdIn.count) > 0 && !expired)
      ensures daemon == if ok then DWoken else DTop
    {
      ExecSnoc(cfg, trace, WaitIn(expired));
      hide Exec, Run, ClientStep, Summary, U32, U64;
      var status := eventFdIn.Wait(expired);
      ok := status >= 0;
      daemon, trace := if ok then DWoken else DTop, trace + [WaitIn(expired)];
    }

    method CheckInput() returns (ok: bool)
      requires Valid() && daemon.DWoken?
      modifies `daemon, `trace, `starved
      ensures Valid() && trace == old(trace) + [CheckIn]
      ensures daemon == if ok then DReady else DTop
      ensures starved == old(starved) + (if ok then 0 else 1)
    {
      ExecSnoc(cfg, trace, CheckIn);
      hide Exec, Run, ClientStep, Summary, U32, U64;
      var available := inputFmq.AvailableToRead();
      ok := available >= cfg.block;
      if !ok { starved := starved + 1; }
      daemon, trace := if ok then DReady else DTop, trace + [CheckIn];
    }

    method ReadInput() returns (ok: bool)
      requires Valid() && daemon.DReady?
      modifies `daemon, `trace, `taken, inputFmq, daemonStats
      ensures Valid() && trace == old(trace) + [ReadIn]
      ensures if ok then daemon.DHolds? && |daemon.block| == cfg.block else daemon.DTop?
      ensures taken == old(taken) + (if ok then 1 else 0)
      ensures ok ==> old(inputFmq.content) == daemon.block + inputFmq.content
      ensures daemonStats.xruns == old(daemonStats.xruns) + (if ok then 0 else 1)
      ensures daemonStats.processed == old(daemonStats.processed) && daemonStats.dropped == old(daemonStats.dropped)
      ensures daemonStats.latencies == old(daemonStats.latencies)
    {
      ExecSnoc(cfg, trace, ReadIn);
      hide Exec, Run, ClientStep, Summary, U32, U64;
      var data := inputFmq.Read(cfg.block);
      ok := |data| == cfg.block;
      if !ok {
        CountXrun();
      } else {
        HoldBlock(data);
      }
    }

    method CountXrun()
      requires Wired() && daemon.DReady?
      requires Exec(cfg, trace + [ReadIn]) == View().(daemonXruns := daemonStats.xruns + 1, daemon := DTop)
      modifies `daemon, `trace, daemonStats
      ensures Valid() && trace == old(trace) + [ReadIn] && daemon == DTop
      ensures daemonStats.xruns == old(daemonStats.xruns) + 1
      ensures daemonStats.processed == old(daemonStats.processed) && daemonStats.dropped == old(daemonStats.dropped)
      ensures daemonStats.latencies == old(daemonStats.latencies)
    {
      hide Exec, Summary, U32, U64;
      daemonStats.Xrun();
      daemon, trace := DTop, trace + [ReadIn];
    }

    method HoldBlock(data: seq<byte>)
      requires Wired() && daemon.DReady?
      requires Exec(cfg, trace + [ReadIn]) == View().(taken := taken + 1, daemon := DHolds(data))
      modifies `daemon, `trace, `taken
      ensures Valid() && trace == old(trace) + [ReadIn] && daemon == DHolds(data) && taken == old(taken) + 1
    {
      hide Exec, Summary, U32, U64;
      daemon, taken, trace := DHolds(data), taken + 1, trace + [ReadIn];
    }

    method ProcessAudio()
      requires Valid() && daemon.DHolds?
      modifies `daemon, `trace
      ensures Valid() && trace == old(trace) + [Make] && daemon == DMade(cfg.f(old(daemon).block))
    {
      ExecSnoc(cfg, trace, Make);
      hide Exec, Run, ClientStep, Summary, U32, U64;
      daemon, trace := DMade(cfg.f(daemon.block)), trace + [Make];
    }

    method WriteOutput() returns (ok: bool)
      requires Valid() && daemon.DMade?
      modifies `daemon, `trace, `kept, `sent, outputFmq, daemonStats
      ensures Valid() && trace == old(trace) + [WriteOut]
      ensures ok == (|old(outputFmq.content)| + cfg.block <= cfg.capacity)
      ensures daemon == if ok then DOwes else DTop
      ensures kept == old(kept) + [ok] && sent == old(sent) + (if ok then [old(daemon).block] else [])
      ensures daemonStats.dropped == old(daemonStats.dropped) + (if ok then 0 else cfg.frames)
      ensures daemonStats.processed == old(daemonStats.processed) && daemonStats.latencies == old(daemonStats.latencies)
    {
      HandIsBlock(cfg, trace);
      ghost var s := View();
      ExecSnoc(cfg, trace, WriteOut);
      hide Exec, Step, Summary, U32, U64, Accepts;
      var written := outputFmq.Write(daemon.block);
      ok := written == cfg.block;
      if !ok {
        WriteOutDropping(cfg, s);
        DropBlock();
      } else {
        WriteOutSending(cfg, s);
        SendBlock();
      }
    }

    method DropBlock()
      requires Wired() && daemon.DMade?
      requires Exec(cfg, trace + [WriteOut]) ==
        View().(kept := kept + [false], droppedFrames := daemonStats.dropped + cfg.frames, daemon := DTop)
      modifies `daemon, `trace, `kept, daemonStats
      ensures Valid() && trace == old(trace) + [WriteOut] && daemon == DTop && kept == old(kept) + [false]
      ensures daemonStats.dropped == old(daemonStats.dropped) + cfg.frames
      ensures daemonStats.processed == old(daemonStats.processed) && daemonStats.latencies == old(daemonStats.latencies)
    {
      hide Exec, Step, Summary, U32, U64, Accepts;
      daemonStats.Drop(cfg.frames);
      kept, daemon, trace := kept + [false], DTop, trace + [WriteOut];
    }

    method SendBlock()
      requires Wired() && daemon.DMade?
      requires Exec(cfg, trace + [WriteOut]) ==
        View().(kept := kept + [true], sent := sent + [daemon.block], daemon := DOwes)
      modifies `daemon, `trace, `kept, `sent
      ensures Valid() && trace == old(trace) + [WriteOut] && daemon == DOwes
      ensures kept == old(kept) + [true] && sent == old(sent) + [old(daemon).block]
    {
      hide Exec, Step, Summary, U32, U64, Accepts;
      kept, sent, daemon, trace := kept + [true], sent + [daemon.block], DOwes, trace + [WriteOut];
    }

    method SignalOutput()
      requires Valid() && daemon.DOwes?
      modifies `daemon, `trace, eventFdOut
      ensures Valid() && trace == old(trace) + [SignalOut] && daemon.DCounts?
    {
      ExecSnoc(cfg, trace, SignalOut);
      hide Exec, Run, ClientStep, Summary, U32, U64;
      var _ := eventFdOut.Signal();
      daemon, trace := DCounts, trace + [SignalOut];
    }

    method CountBlock(latency: nat)
      requires Valid() && daemon.DCounts?
      modifies `daemon, `trace, daemonStats
      ensures Valid() && trace == old(trace) + [Count] && daemon.DTop?
      ensures daemonStats.latencies == old(daemonStats.latencies) + [latency]
      ensures daemonStats.processed == old(daemonStats.processed) + cfg.frames
      ensures daemonStats.dropped == old(daemonStats.dropped)
    {
      ExecSnoc(cfg, trace, Count);
      hide Exec, Run, ClientStep, Summary, U32, U64;
      daemonStats.Complete(cfg.frames, latency);
      daemon, trace := DTop, trace + [Count];
    }

    // ----- Each side's environment: any steps of the other -----

    /** The daemon's next statement, whatever it is. */
    method DaemonMove(turn: DaemonTurn)
      requires Valid() && state.STARTED?
      modifies `daemon, `trace, `starved, `taken, `kept, `sent
      modifies inputFmq, outputFmq, eventFdIn, eventFdOut, daemonStats
      ensures Valid()
      ensures trace == old(trace) + DaemonNext(old(daemon), turn)
    {
      match daemon {
        case DTop => TestFlag();
        case DWaits => var _ := AwaitInput(turn.expired);
        case DWoken => var _ := CheckInput();
        case DReady => var _ := ReadInput();
        case DHolds(_) => ProcessAudio();
        case DMade(_) => var _ := WriteOutput();
        case DOwes => SignalOutput();
        case DCounts => CountBlock(turn.latency);
        case DExited =>
      }
    }

    /** `threadRunning = false`, by whoever stops the session. */
    method LowerFlag()
      requires Valid() && state.STARTED?
      modifies `threadRunning, `trace
      ensures Valid() && !threadRunning && trace == old(trace) + [RoundTrip.Stop]
    {
      ExecSnoc(cfg, trace, RoundTrip.Stop);
      hide Exec, Run, ClientStep, Summary, U32, U64;
      threadRunning := false;
      trace := trace + [RoundTrip.Stop];
    }

    /** What happens while the client is between two statements. */
    method DaemonMoves(turns: seq<Turn<DaemonTurn>>)
      requires Valid()
      modifies `daemon, `trace, `starved, `taken, `kept, `sent, `threadRunning
      modifies inputFmq, outputFmq, eventFdIn, eventFdOut, daemonStats
      ensures Valid()
      ensures trace == if state.STARTED? then DaemonGap(cfg, old(trace), turns) else old(trace)
    {
      hide Valid, Wired, View, Exec;
      if state.STARTED? {
        assert turns[..|turns|] == turns;
        for i := 0 to |turns|
          invariant Valid() && trace == DaemonGap(cfg, old(trace), turns[..i])
        {
          assert turns[..i + 1][..i] == turns[..i];
          TraceIsState();
          match turns[i] {
            case Takes(turn) => DaemonMove(turn);
            case LowersFlag => LowerFlag();
          }
        }
      }
    }

    /** The client's next statement, whatever it is, if the HAL is running. */
    method ClientMove(turn: ClientTurn)
      requires Valid()
      modifies `client, `trace, `accepted, `delivered, `shortReads
      modifies inputFmq, outputFmq, eventFdIn, eventFdOut, clientStats
      ensures Valid() && trace == old(trace) + ClientNext(cfg, old(client), turn, isStarted)
      ensures old(inputFmq.content) <= inputFmq.content && |outputFmq.content| <= old(|outputFmq.content|)
    {
      match client {
        case CIdle =>
          if isStarted && |turn.input| == cfg.block {
            var _ := WriteInput(turn.input);
          }
        case COwes(_) => SignalInput();
        case CWaits(_) => var _ := AwaitOutput(turn.expired);
        case CWoken(_) => var _ := ReadOutput(turn.latency);
      }
    }

    /** What happens while the daemon is between two statements. */
    method ClientMoves(turns: seq<Turn<ClientTurn>>)
      requires Valid() && state.STARTED?
      modifies `client, `trace, `accepted, `delivered, `shortReads, `threadRunning
      modifies inputFmq, outputFmq, eventFdIn, eventFdOut, clientStats
      ensures Valid() && (threadRunning ==> old(threadRunning))
      ensures trace == ClientGap(cfg, old(trace), turns, isStarted)
      ensures old(inputFmq.content) <= inputFmq.content && |outputFmq.content| <= old(|outputFmq.content|)
    {
      hide Valid, Wired, View, Exec;
      assert turns[..|turns|] == turns;
      for i := 0 to |turns|
        invariant Valid() && (threadRunning ==> old(threadRunning))
        invariant trace == ClientGap(cfg, old(trace), turns[..i], isStarted)
        invariant old(inputFmq.content) <= inputFmq.content && |outputFmq.content| <= old(|outputFmq.content|)
      {
        assert turns[..i + 1][..i] == turns[..i];
        TraceIsState();
        match turns[i] {
          case Takes(turn) => ClientMove(turn);
          case LowersFlag => LowerFlag();
        }
      }
    }

    // ----- The client's API -----

    method StartClient() returns (result: EffectResult)
      requires Valid()
      modifies `isStarted
      ensures Valid() && result == if isConnected then EFFECT_OK else EFFECT_ERROR_DEAD_OBJECT
      ensures isStarted == (old(isStarted) || isConnected)
    {
      if !isConnected {
        return EFFECT_ERROR_DEAD_OBJECT;
      }
      isStarted := true;
      return EFFECT_OK;
    }

    method StopClient()
      requires Valid()
      modifies `isStarted
      ensures Valid() && !isStarted
    {
      isStarted := false;
    }

    /** The end of a call that was woken: the answer. */
    method Collect(latency: nat) returns (data: Block)
      requires Valid() && client.CWoken?
      modifies `client, `trace, `delivered, `shortReads, outputFmq, clientStats
      ensures Valid() && client.CIdle? && trace == old(trace) + [ReadOut]
      ensures delivered == old(delivered) + [data]
      ensures clientStats.timeouts == old(clientStats.timeouts) && clientStats.xruns == old(clientStats.xruns)
      ensures clientStats.latencies == old(clientStats.latencies) + [latency]
      ensures |data| == cfg.block && Lagged(data)
    {
      hide View, Exec, Lagged;
      ghost var reading := trace;
      TraceIsState();
      BranchesNeverTaken();
      data := ReadOutput(latency);
      if |data| < cfg.block {
        // The passthrough after a short read: never reached.
        BranchesNeverTaken();
        assert false;
      }
      AnswerIsLagged(reading, data);
    }

    /** The gaps of a call: without a started session nothing happens in them. */
    ghost function Gaps(turns: seq<seq<Turn<DaemonTurn>>>): (gaps: seq<seq<Turn<DaemonTurn>>>)
      requires |turns| == 3
      reads this
      ensures |gaps| == 3
    {
      if state.STARTED? then turns else [[], [], []]
    }

    /** From the wait on: the answer or a timeout. The call is answered exactly if its wait finds a
        signal and is not cut short. */
    method AwaitAnswer(turns: seq<seq<Turn<DaemonTurn>>>, expired: bool, latency: nat) returns (outcome: Outcome)
      requires Valid() && client.CWaits? && |turns| == 3
      modifies `client, `daemon, `trace, `delivered, `shortReads, `starved, `taken, `kept, `sent, `threadRunning
      modifies inputFmq, outputFmq, eventFdIn, eventFdOut, clientStats, daemonStats
      ensures Valid() && client.CIdle?
      ensures trace == AfterWait(cfg, old(trace), Gaps(turns), expired)
      ensures outcome.TimedOut? || outcome.Answered?
      ensures outcome.Answered? <==> !expired && old(eventFdOut.count) > 0
      ensures delivered == old(delivered) + (if outcome.Answered? then [outcome.data] else [])
      ensures clientStats.xruns == old(clientStats.xruns)
      ensures clientStats.timeouts == old(clientStats.timeouts) + (if outcome.TimedOut? then 1 else 0)
      ensures clientStats.latencies == old(clientStats.latencies) + (if outcome.Answered? then [latency] else [])
      ensures outcome.Answered? ==> |outcome.data| == cfg.block && Lagged(outcome.data)
    {
      assert clientStats != daemonStats && inputFmq != outputFmq;
      hide Valid, Wired, View, Exec, Lagged, DaemonGap;
      var ok := AwaitOutput(expired);
      TraceIsState();
      if !ok {
        return TimedOut;
      }
      var data := CollectAfterGap(turns, latency);
      return Answered(data);
    }

    method CollectAfterGap(turns: seq<seq<Turn<DaemonTurn>>>, latency: nat) returns (data: Block)
      requires Valid() && client.CWoken? && |turns| == 3
      modifies `client, `daemon, `trace, `delivered, `shortReads, `starved, `taken, `kept, `sent, `threadRunning
      modifies inputFmq, outputFmq, eventFdIn, eventFdOut, clientStats, daemonStats
      ensures Valid() && client.CIdle?
      ensures trace == DaemonGap(cfg, old(trace), Gaps(turns)[2]) + [ReadOut]
      ensures delivered == old(delivered) + [data]
      ensures clientStats.timeouts == old(clientStats.timeouts) && clientStats.xruns == old(clientStats.xruns)
      ensures clientStats.latencies == old(clientStats.latencies) + [latency]
      ensures |data| == cfg.block && Lagged(data)
    {
      assert clientStats != daemonStats;
      NoGap(cfg, trace);
      hide Valid, Wired, View, Exec, Lagged, DaemonGap;
      DaemonMoves(turns[2]);
      data := Collect(latency);
    }

    /** The shared-state half of a call: write, signal, wait, read, with `turns` between the
        statements. */
    method Exchange(input: seq<byte>, turns: seq<seq<Turn<DaemonTurn>>>, expired: bool, latency: nat)
      returns (outcome: Outcome)
      requires Valid() && client.CIdle? && |turns| == 3 && |input| == cfg.block
      modifies `client, `daemon, `trace, `accepted, `delivered, `shortReads, `starved, `taken, `kept, `sent
      modifies `threadRunning, inputFmq, outputFmq, eventFdIn, eventFdOut, clientStats, daemonStats
      ensures Valid() && client.CIdle?
      ensures trace == CallTrace(cfg, old(trace), input, Gaps(turns), expired)
      ensures outcome.Refused? <==> old(|inputFmq.content|) + cfg.block > cfg.capacity
      ensures outcome.Answered? <==>
        !outcome.Refused? && !expired && Exec(cfg, BeforeWait(cfg, old(trace), input, Gaps(turns))).outCount > 0
      ensures accepted == old(accepted) + (if outcome.Refused? then [] else [input])
      ensures delivered == old(delivered) + (if outcome.Answered? then [outcome.data] else [])
      ensures clientStats.xruns == old(clientStats.xruns) + (if outcome.Refused? then 1 else 0)
      ensures clientStats.timeouts == old(clientStats.timeouts) + (if outcome.TimedOut? then 1 else 0)
      ensures clientStats.latencies == old(clientStats.latencies) + (if outcome.Answered? then [latency] else [])
      ensures outcome.Answered? ==> |outcome.data| == cfg.block && Lagged(outcome.data)
    {
      assert clientStats != daemonStats;
      hide Valid, Wired, View, Exec, Lagged, AfterWait, DaemonGap;
      var ok := WriteInput(input);
      TraceIsState();
      if !ok {
        return Refused;
      }
      SignalAndReachWait(turns);
      TraceIsState();
      outcome := AwaitAnswer(turns, expired, latency);
    }

    /** The part of a call between its write and its wait. */
    method SignalAndReachWait(turns: seq<seq<Turn<DaemonTurn>>>)
      requires Valid() && client.COwes? && |turns| == 3
      modifies `client, `daemon, `trace, `starved, `taken, `kept, `sent, `threadRunning
      modifies inputFmq, outputFmq, eventFdIn, eventFdOut, daemonStats
      ensures Valid() && client.CWaits?
      ensures trace == DaemonGap(cfg, DaemonGap(cfg, old(trace), Gaps(turns)[0]) + [SignalIn], Gaps(turns)[1])
    {
      NoGap(cfg, trace);
      NoGap(cfg, trace + [SignalIn]);
      hide Valid, Wired, View, Exec, DaemonGap;
      DaemonMoves(turns[0]);
      SignalInput();
      DaemonMoves(turns[1]);
    }

    /** One call with a full block, in any build and against any daemon: `turns` is what happens
        between the call's statements, `expired` whether its wait ends without a signal. The output
        buffer may be the input buffer. */
    method Process(input: array<byte>, output: array<byte>, turns: seq<seq<Turn<DaemonTurn>>>, expired: bool,
                   latency: nat)
      returns (result: EffectResult)
      requires Valid() && client.CIdle? && |turns| == 3
      requires input.Length == output.Length == cfg.block
      modifies Repr(), output
      ensures Valid() && client.CIdle?
      // which result, and when
      ensures !result.EFFECT_ERROR_DEAD_OBJECT?
      ensures result.EFFECT_ERROR_INVALID_STATE? <==> !old(isStarted)
      ensures result.EFFECT_OK? <==>
        (old(isStarted) && old(|inputFmq.content|) + cfg.block <= cfg.capacity && !expired
         && Exec(cfg, BeforeWait(cfg, old(trace), old(input[..]), old(Gaps(turns)))).outCount > 0)
      ensures trace == if old(isStarted) then CallTrace(cfg, old(trace), old(input[..]), old(Gaps(turns)), expired)
                       else old(trace)
      ensures result.EFFECT_ERROR_INVALID_STATE? ==> output[..] == old(output[..])
      // answered, with what Lagged says
      ensures result.EFFECT_OK? ==>
        && accepted == old(accepted) + [old(input[..])]
        && delivered == old(delivered) + [output[..]] && Lagged(output[..])
        && clientStats.timeouts == old(clientStats.timeouts) && clientStats.xruns == old(clientStats.xruns)
      ensures clientStats.latencies == old(clientStats.latencies) + (if result.EFFECT_OK? then [latency] else [])
      // not answered: counted once, and passed through, except by the legacy build on a full queue
      ensures result.EFFECT_ERROR_TIMEOUT? ==>
        var refused := old(|inputFmq.content|) + cfg.block > cfg.capacity;
        && delivered == old(delivered)
        && clientStats.xruns == old(clientStats.xruns) + (if refused then 1 else 0)
        && clientStats.timeouts == old(clientStats.timeouts) + (if refused then 0 else 1)
        && accepted == old(accepted) + (if refused then [] else [old(input[..])])
        && output[..] == if refused && cfg.build.Legacy? then old(output[..]) else old(input[..])
      // a daemon that gets its round in on a quiet system answers with the effect on the call's own input
      ensures old(isStarted && PromptCase(turns, expired)) ==> result.EFFECT_OK? && output[..] == cfg.f(old(input[..]))
    {
      if !isStarted {
        return EFFECT_ERROR_INVALID_STATE;
      }
      hide Valid, Wired, View, Exec, Lagged, PromptCase, BeforeWait, CallTrace;
      if PromptCase(turns, expired) { PromptlyAnswered(input[..], turns, expired); }
      var outcome := Exchange(input[..], turns, expired, latency);
      TraceIsState();
      assert outcome.Answered? ==> delivered[|delivered| - 1] == outcome.data;
      result := Finish(outcome, input, output);
    }

    /** The system is quiet and the daemon will get its round in. */
    ghost predicate PromptCase(turns: seq<seq<Turn<DaemonTurn>>>, expired: bool)
      reads Repr()
    {
      state.STARTED? && Quiet(View()) && cfg.block <= cfg.capacity && Prompt(turns) && !expired
    }

    lemma PromptlyAnswered(input: Block, turns: seq<seq<Turn<DaemonTurn>>>, expired: bool)
      requires Valid() && |turns| == 3 && |input| == cfg.block && PromptCase(turns, expired)
      ensures |inputFmq.content| + cfg.block <= cfg.capacity
      ensures Exec(cfg, BeforeWait(cfg, trace, input, Gaps(turns))).outCount > 0
      ensures Exec(cfg, CallTrace(cfg, trace, input, Gaps(turns), expired)).delivered == delivered + [cfg.f(input)]
    {
      PromptWait(cfg, trace, input, turns);
      PromptCall(cfg, trace, input, turns);
    }

    /** What the call returns and leaves in the output buffer. */
    method Finish(outcome: Outcome, input: array<byte>, output: array<byte>) returns (result: EffectResult)
      requires Valid() && input.Length == output.Length
      requires outcome.Answered? ==> |outcome.data| == output.Length && Lagged(outcome.data)
      modifies output
      ensures Valid() && (outcome.Answered? ==> Lagged(outcome.data))
      ensures result == if outcome.Answered? then EFFECT_OK else EFFECT_ERROR_TIMEOUT
      ensures output[..] == match outcome {
        case Refused => if cfg.build.Legacy? then old(output[..]) else old(input[..])
        case TimedOut => old(input[..])
        case Answered(data) => data
      }
    {
      match outcome {
        case Refused =>
          if !cfg.build.Legacy? {
            PassThrough(input, output);
          }
          return EFFECT_ERROR_TIMEOUT;
        case TimedOut =>
          PassThrough(input, output);
          return EFFECT_ERROR_TIMEOUT;
        case Answered(data) =>
          StoreAll(output, data);
          return EFFECT_OK;
      }
    }

    /** What an answer just delivered is: in every build, if no block was lost so far, the effect on
        the block accepted exactly `timeouts` calls earlier; on Android always, less the drops made
        before that block. */
    ghost predicate Lagged(data: Block)
      reads Repr()
    {
      && (clientStats.xruns + Falses(kept) == 0 ==>
            clientStats.timeouts < |accepted| && data == cfg.f(accepted[|accepted| - 1 - clientStats.timeouts]))
      && (cfg.build.Android? ==>
            exists k :: 0 <= k < |kept| <= |accepted| && kept[k] && data == cfg.f(accepted[k])
              && |accepted| - 1 - k == clientStats.timeouts - Falses(kept[..k]))
    }

    /** The daemon never finds its queue short of a block after a wake-up, nor does the client. */
    lemma BranchesNeverTaken()
      requires Valid()
      ensures shortReads == 0 && starved == 0 && daemonStats.xruns == 0
    {
      TokensHold(cfg, trace);
    }

    /** No block is lost while fewer calls have timed out than blocks fit in a queue. */
    lemma WindowHasNoLoss()
      requires Valid() && clientStats.timeouts < cfg.Room()
      ensures clientStats.xruns + Falses(kept) == 0 && daemonStats.dropped == 0
    {
      LosslessWindow(cfg, trace);
    }

    lemma TraceIsState()
      requires Valid()
      ensures var s := Exec(cfg, trace);
        s.client == client && s.delivered == delivered && s.taken == taken && s.daemon == daemon
        && s.inCount == eventFdIn.count && s.outCount == eventFdOut.count && s.inQ == inputFmq.content
        && (state.STARTED? ==> s.running == threadRunning)
    {
    }

    /** What the session says about the answer it has just delivered. */
    lemma AnswerIsLagged(before: seq<Event>, data: Block)
      requires Valid() && trace == before + [ReadOut] && Exec(cfg, before).client.CWoken?
      requires delivered == Exec(cfg, before).delivered + [data]
      ensures Lagged(data)
    {
      ExecSnoc(cfg, before, ReadOut);
      var s := Exec(cfg, before);
      assert View() == Step(cfg, s, ReadOut);
      assert accepted == s.accepted && kept == s.kept && clientStats.timeouts == s.timeouts;
      assert data == delivered[|delivered| - 1];
      if Losses(s) == 0 {
        NoLossLag(cfg, before);
      }
      if cfg.build.Android? {
        var k := ExactLag(cfg, before);
        assert kept[k] && data == cfg.f(accepted[k]);
      }
    }

    /** `memcpy(output, input, totalBytes)`, which does nothing when the two are one buffer. */
    static method PassThrough(input: array<byte>, output: array<byte>)
      requires input.Length == output.Length
      modifies output
      ensures output[..] == old(input[..])
    {
      if input != output {
        RingBuffers.MemCpy(output, 0, input, 0, input.Length);
      }
    }

    static method StoreAll(output: array<byte>, data: seq<byte>)
      requires |data| <= output.Length
      modifies output
      ensures output[..] == data + old(output[..])[|data|..]
      ensures |data| == output.Length ==> output[..] == data
    {
      for k := 0 to |data|
        invariant output[..k] == data[..k]
        invariant output[k..] == old(output[k..])
      {
        output[k] := data[k];
      }
      assert output[..] == output[..|data|] + output[|data|..];
    }

    // ----- The daemon's thread and life cycle -----

    /** The first half of a round: wait for input, check it is there, take a block. A round that is
        woken gets its block, the next one in the queue: neither check ever sends it back. */
    method TakeBlock(round: Round) returns (ok: bool)
      requires Valid() && daemon.DWaits?
      modifies `client, `daemon, `trace, `accepted, `delivered, `shortReads, `threadRunning, `starved, `taken
      modifies inputFmq, outputFmq, eventFdIn, eventFdOut, clientStats, daemonStats
      ensures Valid() && (threadRunning ==> old(threadRunning))
      ensures trace == TakeTrace(cfg, old(trace), round, isStarted)
      ensures ok == (old(eventFdIn.count) > 0 && !round.turn.expired)
      ensures if ok then daemon.DHolds? && cfg.block <= old(|inputFmq.content|) else daemon.DTop?
      ensures ok ==> daemon == DHolds(old(inputFmq.content)[..cfg.block])
      ensures old(inputFmq.content) <= (if ok then daemon.block else []) + inputFmq.content
      ensures |outputFmq.content| <= old(|outputFmq.content|)
      ensures taken == old(taken) + (if ok then 1 else 0)
      ensures daemonStats.processed == old(daemonStats.processed) && daemonStats.dropped == old(daemonStats.dropped)
      ensures daemonStats.latencies == old(daemonStats.latencies)
    {
      WakeHasBlock();
      hide Valid, Wired, View, Exec, CheckTrace;
      ok := AwaitInput(round.turn.expired);
      TraceIsState();
      if ok {
        CheckAndRead(round);
      }
    }

    /** Once woken, the block is there when it is looked for and when it is read. */
    method CheckAndRead(round: Round)
      requires Valid() && daemon.DWoken? && cfg.block <= |inputFmq.content|
      modifies `client, `daemon, `trace, `accepted, `delivered, `shortReads, `threadRunning, `starved, `taken
      modifies inputFmq, outputFmq, eventFdIn, eventFdOut, clientStats, daemonStats
      ensures Valid() && (threadRunning ==> old(threadRunning))
      ensures trace == CheckTrace(cfg, old(trace), round, isStarted)
      ensures daemon == DHolds(old(inputFmq.content)[..cfg.block])
      ensures old(inputFmq.content) <= daemon.block + inputFmq.content
      ensures |outputFmq.content| <= old(|outputFmq.content|)
      ensures taken == old(taken) + 1
      ensures daemonStats.processed == old(daemonStats.processed) && daemonStats.dropped == old(daemonStats.dropped)
      ensures daemonStats.latencies == old(daemonStats.latencies)
    {
      assert clientStats != daemonStats;
      hide Valid, Wired, View, Exec, ClientGap;
      CheckAfterGap(round);
      TraceIsState();
      ReadAfterGap(round);
    }

    method CheckAfterGap(round: Round)
      requires Valid() && daemon.DWoken?
      modifies `client, `daemon, `trace, `accepted, `delivered, `shortReads, `threadRunning, `starved
      modifies inputFmq, outputFmq, eventFdIn, eventFdOut, clientStats
      ensures Valid() && (threadRunning ==> old(threadRunning)) && daemon.DReady?
      ensures trace == ClientGap(cfg, old(trace), round.Gap(1), isStarted) + [CheckIn]
      ensures old(inputFmq.content) <= inputFmq.content && |outputFmq.content| <= old(|outputFmq.content|)
    {
      assert state.STARTED?;
      BranchesNeverTaken();
      hide Valid, Wired, View, Exec, ClientGap;
      ClientMoves(round.Gap(1));
      var _ := CheckInput();
      BranchesNeverTaken();
    }

    method ReadAfterGap(round: Round)
      requires Valid() && daemon.DReady? && cfg.block <= |inputFmq.content|
      modifies `client, `daemon, `trace, `accepted, `delivered, `shortReads, `threadRunning, `taken
      modifies inputFmq, outputFmq, eventFdIn, eventFdOut, clientStats, daemonStats
      ensures Valid() && (threadRunning ==> old(threadRunning))
      ensures trace == ClientGap(cfg, old(trace), round.Gap(2), isStarted) + [ReadIn]
      ensures daemon == DHolds(old(inputFmq.content)[..cfg.block])
      ensures old(inputFmq.content) <= daemon.block + inputFmq.content
      ensures |outputFmq.content| <= old(|outputFmq.content|)
      ensures taken == old(taken) + 1
      ensures daemonStats.processed == old(daemonStats.processed) && daemonStats.dropped == old(daemonStats.dropped)
      ensures daemonStats.latencies == old(daemonStats.latencies)
    {
      assert state.STARTED? && clientStats != daemonStats;
      BranchesNeverTaken();
      hide Valid, Wired, View, Exec, ClientGap;
      ClientMoves(round.Gap(2));
      var _ := ReadInput();
      BranchesNeverTaken();
    }

    /** A pending signal has its block waiting. */
    lemma WakeHasBlock()
      requires Valid()
      ensures eventFdIn.count > 0 ==> cfg.block <= |inputFmq.content|
    {
      TokensHold(cfg, trace);
      TokensAreBlocks(cfg, View());
    }

    /** The second half: process the block, write it out, signal and count it, or drop it. Room that
        was there when it began is still there. */
    method GiveBlock(round: Round) returns (ok: bool)
      requires Valid() && daemon.DHolds?
      modifies `client, `daemon, `trace, `accepted, `delivered, `shortReads, `threadRunning, `kept, `sent
      modifies inputFmq, outputFmq, eventFdIn, eventFdOut, clientStats, daemonStats
      ensures Valid() && (threadRunning ==> old(threadRunning))
      ensures trace == GiveTrace(cfg, old(trace), round, isStarted)
      ensures daemon.DTop?
      ensures |old(outputFmq.content)| + cfg.block <= cfg.capacity ==> ok
      ensures kept == old(kept) + [ok]
      ensures sent == old(sent) + (if ok then [cfg.f(old(daemon).block)] else [])
      ensures daemonStats.dropped == old(daemonStats.dropped) + (if ok then 0 else cfg.frames)
      ensures daemonStats.processed == old(daemonStats.processed) + (if ok then cfg.frames else 0)
      ensures daemonStats.latencies == old(daemonStats.latencies) + (if ok then [round.turn.latency] else [])
    {
      assert clientStats != daemonStats && inputFmq != outputFmq;
      hide Valid, Wired, View, Exec, OfferTrace, AnnounceTrace;
      ok := OfferBlock(round);
      TraceIsState();
      if !ok {
        return;
      }
      Announce(round);
    }

    method OfferBlock(round: Round) returns (ok: bool)
      requires Valid() && daemon.DHolds?
      modifies `client, `daemon, `trace, `accepted, `delivered, `shortReads, `threadRunning, `kept, `sent
      modifies inputFmq, outputFmq, eventFdIn, eventFdOut, clientStats, daemonStats
      ensures Valid() && (threadRunning ==> old(threadRunning))
      ensures trace == OfferTrace(cfg, old(trace), round, isStarted)
      ensures daemon == if ok then DOwes else DTop
      ensures |old(outputFmq.content)| + cfg.block <= cfg.capacity ==> ok
      ensures kept == old(kept) + [ok]
      ensures sent == old(sent) + (if ok then [cfg.f(old(daemon).block)] else [])
      ensures daemonStats.dropped == old(daemonStats.dropped) + (if ok then 0 else cfg.frames)
      ensures daemonStats.processed == old(daemonStats.processed) && daemonStats.latencies == old(daemonStats.latencies)
    {
      assert state.STARTED? && clientStats != daemonStats && inputFmq != outputFmq;
      hide Valid, Wired, View, Exec, ClientGap;
      ProcessAudio();
      ClientMoves(round.Gap(4));
      ok := WriteOutput();
    }

    /** A block that was written is signalled, then counted. */
    method Announce(round: Round)
      requires Valid() && daemon.DOwes?
      modifies `client, `daemon, `trace, `accepted, `delivered, `shortReads, `threadRunning
      modifies inputFmq, outputFmq, eventFdIn, eventFdOut, clientStats, daemonStats
      ensures Valid() && (threadRunning ==> old(threadRunning))
      ensures trace == AnnounceTrace(cfg, old(trace), round, isStarted)
      ensures daemon.DTop?
      ensures daemonStats.dropped == old(daemonStats.dropped)
      ensures daemonStats.processed == old(daemonStats.processed) + cfg.frames
      ensures daemonStats.latencies == old(daemonStats.latencies) + [round.turn.latency]
    {
      assert state.STARTED? && clientStats != daemonStats;
      hide Valid, Wired, View, Exec, ClientGap;
      ClientMoves(round.Gap(5));
      SignalOutput();
      ClientMoves(round.Gap(6));
      CountBlock(round.turn.latency);
    }

    /** The input queue as the round's wait finds it; `before` is the history when the flag was found up. */
    ghost function Waiting(before: seq<Event>, round: Round): seq<byte>
      reads `isStarted
    {
      Exec(cfg, ClientGap(cfg, before, round.Gap(0), isStarted)).inQ
    }

    /** One round of the thread, if the flag is up. A wait that finds a signal takes the next block; its
        effect is sent, and its latency recorded, if the output had room when the round began; any
        other wait takes nothing. */
    method OneRound(round: Round) returns (up: bool, ghost woken: bool, gave: bool)
      requires Valid() && state.STARTED? && daemon.DTop?
      modifies `client, `daemon, `trace, `accepted, `delivered, `shortReads, `threadRunning, `starved, `taken
      modifies `kept, `sent, inputFmq, outputFmq, eventFdIn, eventFdOut, clientStats, daemonStats
      ensures Valid() && up == old(threadRunning) && (threadRunning ==> up)
      ensures daemon == if up then DTop else DExited
      ensures trace == if up then RoundTrace(cfg, old(trace) + [TestRunning], round, isStarted)
                       else old(trace) + [TestRunning]
      ensures woken == (up && Wakes(cfg, old(trace) + [TestRunning], round, isStarted))
      ensures taken == old(taken) + (if woken then 1 else 0)
      ensures kept == old(kept) + (if woken then [gave] else []) && (gave ==> woken)
      ensures woken && |old(outputFmq.content)| + cfg.block <= cfg.capacity ==> gave
      ensures gave ==> cfg.block <= |Waiting(old(trace) + [TestRunning], round)|
      ensures sent == old(sent) + (if gave then [cfg.f(Waiting(old(trace) + [TestRunning], round)[..cfg.block])] else [])
      ensures daemonStats.latencies == old(daemonStats.latencies) + (if gave then [round.turn.latency] else [])
    {
      assert state.STARTED?;
      hide Valid, Wired, View, Exec, RoundTrace, Wakes, Waiting;
      TestFlag();
      up, woken, gave := threadRunning, false, false;
      if up {
        woken, gave := FinishRound(round);
      }
    }

    method FinishRound(round: Round) returns (ghost woken: bool, gave: bool)
      requires Valid() && daemon.DWaits?
      modifies `client, `daemon, `trace, `accepted, `delivered, `shortReads, `threadRunning, `starved, `taken
      modifies `kept, `sent, inputFmq, outputFmq, eventFdIn, eventFdOut, clientStats, daemonStats
      ensures Valid() && (threadRunning ==> old(threadRunning)) && daemon.DTop?
      ensures trace == RoundTrace(cfg, old(trace), round, isStarted)
      ensures woken == Wakes(cfg, old(trace), round, isStarted)
      ensures taken == old(taken) + (if woken then 1 else 0)
      ensures kept == old(kept) + (if woken then [gave] else []) && (gave ==> woken)
      ensures woken && |old(outputFmq.content)| + cfg.block <= cfg.capacity ==> gave
      ensures gave ==> cfg.block <= |Waiting(old(trace), round)|
      ensures sent == old(sent) + (if gave then [cfg.f(Waiting(old(trace), round)[..cfg.block])] else [])
      ensures daemonStats.latencies == old(daemonStats.latencies) + (if gave then [round.turn.latency] else [])
    {
      assert state.STARTED? && clientStats != daemonStats;
      hide Valid, Wired, View, Exec, ClientGap, MiddleTrace, Wakes, Waiting;
      woken, gave := WaitAndServe(round);
      ClientMoves(round.Gap(7));
    }

    method WaitAndServe(round: Round) returns (ghost woken: bool, gave: bool)
      requires Valid() && daemon.DWaits?
      modifies `client, `daemon, `trace, `accepted, `delivered, `shortReads, `threadRunning, `starved, `taken
      modifies `kept, `sent, inputFmq, outputFmq, eventFdIn, eventFdOut, clientStats, daemonStats
      ensures Valid() && (threadRunning ==> old(threadRunning)) && daemon.DTop?
      ensures trace == MiddleTrace(cfg, ClientGap(cfg, old(trace), round.Gap(0), isStarted), round, isStarted)
      ensures woken == Wakes(cfg, old(trace), round, isStarted)
      ensures taken == old(taken) + (if woken then 1 else 0)
      ensures kept == old(kept) + (if woken then [gave] else []) && (gave ==> woken)
      ensures woken && |old(outputFmq.content)| + cfg.block <= cfg.capacity ==> gave
      ensures gave ==> cfg.block <= |Waiting(old(trace), round)|
      ensures sent == old(sent) + (if gave then [cfg.f(Waiting(old(trace), round)[..cfg.block])] else [])
      ensures daemonStats.latencies == old(daemonStats.latencies) + (if gave then [round.turn.latency] else [])
    {
      assert state.STARTED? && clientStats != daemonStats;
      hide Valid, Wired, View, Exec, ClientGap, MiddleTrace;
      ClientMoves(round.Gap(0));
      TraceIsState();
      woken := eventFdIn.count > 0 && !round.turn.expired;
      gave := TakeAndGive(round);
    }

    /** A round between its first gap and its last. */
    method TakeAndGive(round: Round) returns (gave: bool)
      requires Valid() && daemon.DWaits?
      modifies `client, `daemon, `trace, `accepted, `delivered, `shortReads, `threadRunning, `starved, `taken
      modifies `kept, `sent, inputFmq, outputFmq, eventFdIn, eventFdOut, clientStats, daemonStats
      ensures Valid() && (threadRunning ==> old(threadRunning))
      ensures trace == MiddleTrace(cfg, old(trace), round, isStarted)
      ensures daemon.DTop?
      ensures taken == old(taken) + (if old(eventFdIn.count) > 0 && !round.turn.expired then 1 else 0)
      ensures kept == old(kept) + (if old(eventFdIn.count) > 0 && !round.turn.expired then [gave] else [])
      ensures gave ==> old(eventFdIn.count) > 0 && !round.turn.expired
      ensures old(eventFdIn.count) > 0 && !round.turn.expired && |old(outputFmq.content)| + cfg.block <= cfg.capacity ==> gave
      ensures gave ==> cfg.block <= old(|inputFmq.content|)
      ensures sent == old(sent) + (if gave then [cfg.f(old(inputFmq.content)[..cfg.block])] else [])
      ensures daemonStats.latencies == old(daemonStats.latencies) + (if gave then [round.turn.latency] else [])
    {
      assert clientStats != daemonStats;
      hide Valid, Wired, View, Exec, TakeTrace, RestTrace;
      var ok := TakeBlock(round);
      TraceIsState();
      if !ok {
        return false;
      }
      gave := GiveRest(round);
    }

    method GiveRest(round: Round) returns (gave: bool)
      requires Valid() && daemon.DHolds?
      modifies `client, `daemon, `trace, `accepted, `delivered, `shortReads, `threadRunning, `kept, `sent
      modifies inputFmq, outputFmq, eventFdIn, eventFdOut, clientStats, daemonStats
      ensures Valid() && (threadRunning ==> old(threadRunning))
      ensures trace == RestTrace(cfg, old(trace), round, isStarted)
      ensures daemon.DTop?
      ensures |old(outputFmq.content)| + cfg.block <= cfg.capacity ==> gave
      ensures kept == old(kept) + [gave]
      ensures sent == old(sent) + (if gave then [cfg.f(old(daemon).block)] else [])
      ensures daemonStats.latencies == old(daemonStats.latencies) + (if gave then [round.turn.latency] else [])
    {
      assert state.STARTED? && clientStats != daemonStats;
      hide Valid, Wired, View, Exec, ClientGap, GiveTrace;
      ClientMoves(round.Gap(3));
      gave := GiveBlock(round);
    }

    /** The processing thread, for as many rounds as are given. It does `n` of them, stopping short
        exactly by seeing its flag down, which may fall at any point of any round; and it takes as
        many blocks as rounds were woken. */
    method ProcessingThread(rounds: seq<Round>) returns (n: nat)
      requires Valid() && state.STARTED? && daemon.DTop?
      modifies `client, `daemon, `trace, `accepted, `delivered, `shortReads, `threadRunning, `starved, `taken
      modifies `kept, `sent, inputFmq, outputFmq, eventFdIn, eventFdOut, clientStats, daemonStats
      ensures Valid()
      ensures n <= |rounds| && daemon == if n < |rounds| then DExited else DTop
      ensures trace == ThreadTrace(cfg, old(trace), rounds[..n], isStarted) + (if n < |rounds| then [TestRunning] else [])
      ensures forall k :: 0 <= k < n ==> FlagUp(cfg, old(trace), rounds, k, isStarted)
      ensures n < |rounds| ==> !FlagUp(cfg, old(trace), rounds, n, isStarted) && !threadRunning
      ensures taken == old(taken) + WokenRounds(cfg, old(trace), rounds[..n], isStarted)
      ensures |kept| - |old(kept)| == taken - old(taken) && old(sent) <= sent
      ensures n > 0 && FirstServed(old(trace), rounds[0], old(|outputFmq.content|)) ==>
        var waiting := Waiting(old(trace) + [TestRunning], rounds[0]);
        |old(sent)| < |sent| && cfg.block <= |waiting| && sent[|old(sent)|] == cfg.f(waiting[..cfg.block])
    {
      hide Valid, Wired, View, Exec, RoundTrace, Wakes, ClientGap, Waiting;
      n := 0;
      while n < |rounds|
        invariant n <= |rounds|
        invariant Valid() && daemon.DTop?
        invariant trace == ThreadTrace(cfg, old(trace), rounds[..n], isStarted)
        invariant forall k :: 0 <= k < n ==> FlagUp(cfg, old(trace), rounds, k, isStarted)
        invariant taken == old(taken) + WokenRounds(cfg, old(trace), rounds[..n], isStarted)
        invariant |kept| - |old(kept)| == taken - old(taken) && old(sent) <= sent
        invariant n == 0 ==> sent == old(sent) && outputFmq.content == old(outputFmq.content)
        invariant n > 0 && FirstServed(old(trace), rounds[0], old(|outputFmq.content|)) ==>
          var waiting := Waiting(old(trace) + [TestRunning], rounds[0]);
          |old(sent)| < |sent| && cfg.block <= |waiting| && sent[|old(sent)|] == cfg.f(waiting[..cfg.block])
      {
        assert rounds[..n + 1][..n] == rounds[..n];
        TraceIsState();
        var up, woken, gave := OneRound(rounds[n]);
        if !up {
          return;
        }
        n := n + 1;
      }
    }

    /** The thread's first round is woken and has room for its answer. */
    ghost predicate FirstServed(before: seq<Event>, round: Round, held: nat)
      reads `isStarted
    {
      Wakes(cfg, before + [TestRunning], round, isStarted) && held + cfg.block <= cfg.capacity
    }

    method Open() returns (status: int)
      requires Valid()
      modifies `state
      ensures Valid() && status == if old(state).IDLE? then 0 else -1
      ensures state == if status == 0 then OPENED else old(state)
    {
      if !state.IDLE? {
        return -1;
      }
      state := OPENED;
      return 0;
    }

    /** `created` says whether `pthread_create` succeeded. */
    method Start(created: bool) returns (status: int)
      requires Valid()
      modifies `state, `threadRunning
      ensures Valid() && status == if old(state).OPENED? && created then 0 else -1
      ensures state == if status == 0 then STARTED else old(state)
      ensures threadRunning == if status == 0 then true else old(threadRunning)
    {
      if !state.OPENED? {
        return -1;
      }
      threadRunning := true;
      if !created {
        threadRunning := false;
        return -1;
      }
      state := STARTED;
      return 0;
    }

    /** With the flag down, the daemon's next step brings it nearer its exit. */
    lemma JoinStep(turn: DaemonTurn)
      requires Valid() && state.STARTED? && !threadRunning && !daemon.DExited?
      ensures var t := Exec(cfg, trace + [DaemonEvent(daemon, turn.expired)]);
        && StepsLeft(t.daemon) < StepsLeft(daemon)
        && taken <= t.taken
        && t.taken + (if StepsLeft(t.daemon) >= 6 then 1 else 0) <= taken + (if StepsLeft(daemon) >= 6 then 1 else 0)
    {
      var s, e := View(), DaemonEvent(daemon, turn.expired);
      ExecSnoc(cfg, trace, e);
      TokensHold(cfg, trace);
      StopStep(cfg, s, e);
      DaemonMovesUntilExit(cfg, s, turn.expired, e);
    }

    /** `pthread_join`: the daemon runs on until the thread ends, which takes it `n` steps, at most
        eight; before step `i` happens what `steps[i]` says. */
    method Join(steps: seq<Round>) returns (n: nat)
      requires Valid() && state.STARTED? && !threadRunning && |steps| == 8
      modifies `client, `daemon, `trace, `accepted, `delivered, `shortReads, `starved, `taken, `kept, `sent
      modifies `threadRunning, inputFmq, outputFmq, eventFdIn, eventFdOut, clientStats, daemonStats
      ensures Valid() && daemon.DExited? && !threadRunning
      ensures n <= 8 && trace == JoinTrace(cfg, old(trace), steps[..n], isStarted)
      ensures old(taken) <= taken <= old(taken) + 1
    {
      hide Valid, View, Exec, Step, StepsLeft, ClientGap;
      n := 0;
      while !daemon.DExited?
        invariant Valid() && !threadRunning
        invariant n + StepsLeft(daemon) <= 8 && trace == JoinTrace(cfg, old(trace), steps[..n], isStarted)
        invariant old(taken) <= taken
        invariant taken + (if StepsLeft(daemon) >= 6 then 1 else 0) <= old(taken) + 1
        decreases StepsLeft(daemon)
      {
        assert steps[..n + 1][..n] == steps[..n];
        ClientMoves(steps[n].Gap(0));
          JoinStep(steps[n].turn);
        TraceIsState();
        DaemonMove(steps[n].turn);
        TraceIsState();
        n := n + 1;
      }
    }

    /** Stopping: whatever happens meanwhile, the thread is joined, having taken at most one more
        block; from then on the daemon moves nothing (DaemonMovesUntilExit). */
    method Stop(steps: seq<Round>) returns (status: int, ghost n: nat)
      requires Valid() && |steps| == 8
      modifies Repr()
      ensures Valid() && n <= 8
      ensures status == if old(state).STARTED? then 0 else -1
      ensures if status == 0 then state.STOPPED? && !threadRunning && daemon.DExited?
              else state == old(state) && threadRunning == old(threadRunning)
      ensures trace == if status == 0 then JoinTrace(cfg, old(trace) + [RoundTrip.Stop], steps[..n], isStarted)
                       else old(trace)
      ensures old(taken) <= taken <= old(taken) + 1
      ensures isStarted == old(isStarted)
    {
      if !state.STARTED? {
        return -1, 0;
      }
      n := StopThread(steps);
      return 0, n;
    }

    method StopThread(steps: seq<Round>) returns (n: nat)
      requires Valid() && state.STARTED? && |steps| == 8
      modifies Repr()
      ensures Valid()
      ensures state.STOPPED? && !threadRunning && daemon.DExited?
      ensures n <= 8 && trace == JoinTrace(cfg, old(trace) + [RoundTrip.Stop], steps[..n], isStarted)
      ensures old(taken) <= taken <= old(taken) + 1
      ensures isStarted == old(isStarted)
    {
      hide View, Exec, JoinTrace;
      LowerFlag();
      n := Join(steps);
      BecomeStopped();
    }

    method BecomeStopped()
      requires Valid() && state.STARTED? && !threadRunning && daemon.DExited?
      modifies `state
      ensures Valid() && state.STOPPED?
    {
      hide Exec;
      state := STOPPED;
    }

    /** A session is never torn down under its thread: whatever its state, there was none, or it
        has ended. */
    method Destroy(steps: seq<Round>)
      requires Valid() && |steps| == 8
      modifies Repr()
      ensures Valid() && !state.STARTED? && !threadRunning
      ensures old(state).STARTED? || old(state).STOPPED? ==> daemon.DExited?
      ensures old(state).IDLE? || old(state).OPENED? ==> daemon.DTop?
    {
      if state.STARTED? {
        var _, _ := Stop(steps);
      }
    }
  }
}
