/** What each side's code does with shared state, as a function of the schedule: the events of a
    call, of a round of the processing thread and of a join, given what happens in each gap between
    their statements. And what an undisturbed daemon does: it answers. */
module Schedules {
  import opened EventFds
  import opened RoundTrip

  /** One step the daemon takes while the client is between two statements. */
  datatype DaemonTurn = DaemonTurn(expired: bool, latency: nat)

  /** One step the client takes while the daemon is between two statements. */
  datatype ClientTurn = ClientTurn(input: Block, expired: bool, latency: nat)

  /** What else happens between two statements: a step of the other side, or the thread's flag
      going down. */
  datatype Turn<T> = Takes(turn: T) | LowersFlag

  /** A round of the processing thread: its own choices, and what happens in each gap between
      its statements. */
  datatype Round = Round(turn: DaemonTurn, gaps: seq<seq<Turn<ClientTurn>>>) {
    function Gap(i: nat): seq<Turn<ClientTurn>> {
      if i < |gaps| then gaps[i] else []
    }
  }

  /** The client's next statement. */
  function ClientEvent(client: Client, turn: ClientTurn): Event {
    match client
    case CIdle => Call(turn.input)
    case COwes(_) => SignalIn
    case CWaits(_) => WaitOut(turn.expired)
    case CWoken(_) => ReadOut
  }

  function DaemonNext(d: Daemon, turn: DaemonTurn): seq<Event> {
    if d.DExited? then [] else [DaemonEvent(d, turn.expired)]
  }

  /** An idle client makes a call only when it is started, and with a whole block. */
  function ClientNext(c: Config, client: Client, turn: ClientTurn, calling: bool): seq<Event> {
    if client.CIdle? && !(calling && |turn.input| == c.block) then [] else [ClientEvent(client, turn)]
  }

  /** The history after a gap in the client's code. */
  function DaemonGap(c: Config, before: seq<Event>, turns: seq<Turn<DaemonTurn>>): seq<Event> {
    if turns == [] then before
    else
      var n := |turns| - 1;
      var t := DaemonGap(c, before, turns[..n]);
      match turns[n]
      case Takes(turn) => t + DaemonNext(Exec(c, t).daemon, turn)
      case LowersFlag => t + [Stop]
  }

  /** The history after a gap in the daemon's code. */
  function ClientGap(c: Config, before: seq<Event>, turns: seq<Turn<ClientTurn>>, calling: bool): seq<Event> {
    if turns == [] then before
    else
      var n := |turns| - 1;
      var t := ClientGap(c, before, turns[..n], calling);
      match turns[n]
      case Takes(turn) => t + ClientNext(c, Exec(c, t).client, turn, calling)
      case LowersFlag => t + [Stop]
  }

  // ----- A call -----

  /** The history when a call that was not refused comes to its wait. */
  function BeforeWait(c: Config, before: seq<Event>, input: Block, turns: seq<seq<Turn<DaemonTurn>>>): seq<Event>
    requires |turns| == 3
  {
    DaemonGap(c, DaemonGap(c, before + [Call(input)], turns[0]) + [SignalIn], turns[1])
  }

  /** The history after a wait, and the read if it was woken. */
  function AfterWait(c: Config, waiting: seq<Event>, turns: seq<seq<Turn<DaemonTurn>>>, expired: bool): seq<Event>
    requires |turns| == 3
  {
    var waited := waiting + [WaitOut(expired)];
    if Exec(c, waited).client.CIdle? then waited else DaemonGap(c, waited, turns[2]) + [ReadOut]
  }

  /** The history after a whole call. */
  function CallTrace(c: Config, before: seq<Event>, input: Block, turns: seq<seq<Turn<DaemonTurn>>>, expired: bool): seq<Event>
    requires |turns| == 3
  {
    if Exec(c, before + [Call(input)]).client.CIdle? then before + [Call(input)]
    else AfterWait(c, BeforeWait(c, before, input, turns), turns, expired)
  }

  // ----- A round of the thread -----

  function TakeTrace(c: Config, before: seq<Event>, round: Round, calling: bool): seq<Event> {
    var waited := before + [WaitIn(round.turn.expired)];
    if Exec(c, waited).daemon.DTop? then waited else CheckTrace(c, waited, round, calling)
  }

  function CheckTrace(c: Config, before: seq<Event>, round: Round, calling: bool): seq<Event> {
    var checked := ClientGap(c, before, round.Gap(1), calling) + [CheckIn];
    if Exec(c, checked).daemon.DTop? then checked
    else ClientGap(c, checked, round.Gap(2), calling) + [ReadIn]
  }

  function OfferTrace(c: Config, before: seq<Event>, round: Round, calling: bool): seq<Event> {
    ClientGap(c, before + [Make], round.Gap(4), calling) + [WriteOut]
  }

  function AnnounceTrace(c: Config, before: seq<Event>, round: Round, calling: bool): seq<Event> {
    ClientGap(c, ClientGap(c, before, round.Gap(5), calling) + [SignalOut], round.Gap(6), calling) + [Count]
  }

  function GiveTrace(c: Config, before: seq<Event>, round: Round, calling: bool): seq<Event> {
    var offered := OfferTrace(c, before, round, calling);
    if Exec(c, offered).daemon.DTop? then offered else AnnounceTrace(c, offered, round, calling)
  }

  function RestTrace(c: Config, before: seq<Event>, round: Round, calling: bool): seq<Event> {
    GiveTrace(c, ClientGap(c, before, round.Gap(3), calling), round, calling)
  }

  function MiddleTrace(c: Config, before: seq<Event>, round: Round, calling: bool): seq<Event> {
    var took := TakeTrace(c, before, round, calling);
    if Exec(c, took).daemon.DTop? then took else RestTrace(c, took, round, calling)
  }

  /** The history after a round that found the flag up. */
  function RoundTrace(c: Config, before: seq<Event>, round: Round, calling: bool): seq<Event> {
    var waiting := ClientGap(c, before, round.Gap(0), calling);
    ClientGap(c, MiddleTrace(c, waiting, round, calling), round.Gap(7), calling)
  }

  /** The round's wait finds a signal and is not cut short. */
  predicate Wakes(c: Config, before: seq<Event>, round: Round, calling: bool) {
    !round.turn.expired && Exec(c, ClientGap(c, before, round.Gap(0), calling)).inCount > 0
  }

  /** The history after so many rounds, each finding the flag up. */
  function ThreadTrace(c: Config, before: seq<Event>, rounds: seq<Round>, calling: bool): seq<Event> {
    if rounds == [] then before
    else
      var n := |rounds| - 1;
      RoundTrace(c, ThreadTrace(c, before, rounds[..n], calling) + [TestRunning], rounds[n], calling)
  }

  /** Round `k` of the thread would find its flag up. */
  predicate FlagUp(c: Config, before: seq<Event>, rounds: seq<Round>, k: nat, calling: bool)
    requires k <= |rounds|
  {
    Exec(c, ThreadTrace(c, before, rounds[..k], calling)).running
  }

  /** How many of the rounds were woken. */
  function WokenRounds(c: Config, before: seq<Event>, rounds: seq<Round>, calling: bool): nat {
    if rounds == [] then 0
    else
      var n := |rounds| - 1;
      WokenRounds(c, before, rounds[..n], calling) +
      if Wakes(c, ThreadTrace(c, before, rounds[..n], calling) + [TestRunning], rounds[n], calling) then 1 else 0
  }

  /** The history after so many steps of a daemon being joined, each after its gap. */
  function JoinTrace(c: Config, before: seq<Event>, steps: seq<Round>, calling: bool): seq<Event> {
    if steps == [] then before
    else
      var n := |steps| - 1;
      var t := ClientGap(c, JoinTrace(c, before, steps[..n], calling), steps[n].Gap(0), calling);
      t + DaemonNext(Exec(c, t).daemon, steps[n].turn)
  }

  // ----- Progress -----

  /** The state after `n` steps of the daemon on its own, no wait of it cut short. */
  function DaemonAlone(c: Config, s: State, n: nat): (s': State)
    requires Fits(c, s)
    ensures Fits(c, s')
  {
    if n == 0 then s
    else
      var t := DaemonAlone(c, s, n - 1);
      Step(c, t, DaemonEvent(t.daemon, false))
  }

  lemma AloneThree(c: Config, s: State)
    requires Fits(c, s)
    ensures var s1 := Step(c, s, DaemonEvent(s.daemon, false));
      var s2 := Step(c, s1, DaemonEvent(s1.daemon, false));
      DaemonAlone(c, s, 3) == Step(c, s2, DaemonEvent(s2.daemon, false))
  {
    hide Step;
    assert DaemonAlone(c, s, 1) == Step(c, DaemonAlone(c, s, 0), DaemonEvent(s.daemon, false));
    assert DaemonAlone(c, s, 2) == Step(c, DaemonAlone(c, s, 1), DaemonEvent(DaemonAlone(c, s, 1).daemon, false));
  }

  lemma {:induction false} AloneAdd(c: Config, s: State, m: nat, n: nat)
    requires Fits(c, s)
    ensures DaemonAlone(c, s, m + n) == DaemonAlone(c, DaemonAlone(c, s, m), n)
    decreases n
  {
    hide Step;
    if n > 0 {
      AloneAdd(c, s, m, n - 1);
      assert m + n - 1 == m + (n - 1);
    }
  }

  /** With a signal pending, three steps wake it and find its block there. */
  lemma Wakens(c: Config, s: State)
    requires c.Valid() && TokenInv(c, s)
    requires s.daemon.DTop? && s.running && s.inCount > 0
    ensures c.block <= |s.inQ|
    ensures DaemonAlone(c, s, 3) == s.(inCount := 0, daemon := DReady)
  {
    TokensAreBlocks(c, s);
    AloneThree(c, s);
  }

  lemma Reads(c: Config, s: State)
    requires Fits(c, s) && s.daemon.DReady? && c.block <= |s.inQ|
    ensures Step(c, s, ReadIn) ==
      s.(inQ := s.inQ[c.block..], taken := s.taken + 1, daemon := DHolds(s.inQ[..c.block]))
  {
  }

  lemma Makes(c: Config, s: State)
    requires Fits(c, s) && s.daemon.DHolds?
    ensures Step(c, s, Make) == s.(daemon := DMade(c.f(s.daemon.block)))
  {
  }

  /** Three more take the block and offer its effect to a queue with room. */
  lemma TakesAndOffers(c: Config, s: State)
    requires c.Valid() && Fits(c, s) && s.daemon.DReady?
    requires c.block <= |s.inQ| && |s.outQ| + c.block <= c.capacity
    ensures var answer := c.f(s.inQ[..c.block]);
      DaemonAlone(c, s, 3) ==
        s.(inQ := s.inQ[c.block..], outQ := s.outQ + answer, taken := s.taken + 1,
           kept := s.kept + [true], sent := s.sent + [answer], daemon := DOwes)
  {
    hide Step, DaemonAlone;
    AloneThree(c, s);
    var block := s.inQ[..c.block];
    var answer := c.f(block);
    var s1 := s.(inQ := s.inQ[c.block..], taken := s.taken + 1, daemon := DHolds(block));
    Reads(c, s);
    Makes(c, s1);
    WriteOutSending(c, s1.(daemon := DMade(answer)));
  }

  lemma Announces(c: Config, s: State)
    requires Fits(c, s) && s.daemon.DOwes? && Signalled(s.outCount) == s.outCount + 1
    ensures DaemonAlone(c, s, 2) ==
      s.(outCount := s.outCount + 1, daemonFrames := s.daemonFrames + c.frames, daemon := DTop)
  {
    assert DaemonAlone(c, s, 1) == Step(c, DaemonAlone(c, s, 0), DaemonEvent(s.daemon, false));
  }

  lemma OffersInSix(c: Config, s: State)
    requires c.Valid() && TokenInv(c, s)
    requires s.daemon.DTop? && s.running && s.inCount > 0
    requires |s.outQ| + c.block <= c.capacity
    ensures c.block <= |s.inQ|
    ensures var answer := c.f(s.inQ[..c.block]);
      DaemonAlone(c, s, 6) ==
        s.(inQ := s.inQ[c.block..], inCount := 0, outQ := s.outQ + answer, taken := s.taken + 1,
           kept := s.kept + [true], sent := s.sent + [answer], daemon := DOwes)
  {
    Wakens(c, s);
    AloneAdd(c, s, 3, 3);
    assert Fits(c, s);
    hide DaemonAlone, TokenInv, Step;
    TakesAndOffers(c, DaemonAlone(c, s, 3));
  }

  /** Whatever state the two sides have reached: a running daemon at its loop's top with a signal
      pending and room for its answer takes the next block, sends the effect on it and signals the
      client, all within eight steps. */
  lemma DaemonAnswers(c: Config, s: State)
    requires c.Valid() && TokenInv(c, s)
    requires s.daemon.DTop? && s.running && s.inCount > 0
    requires |s.outQ| + c.block <= c.capacity
    ensures c.block <= |s.inQ|
    ensures var answer := c.f(s.inQ[..c.block]);
      DaemonAlone(c, s, 8) ==
        s.(inQ := s.inQ[c.block..], inCount := 0, outQ := s.outQ + answer, outCount := s.outCount + 1,
           taken := s.taken + 1, kept := s.kept + [true], sent := s.sent + [answer],
           daemonFrames := s.daemonFrames + c.frames, daemon := DTop)
  {
    OffersInSix(c, s);
    TokensAreBlocks(c, s);
    AloneAdd(c, s, 6, 2);
    assert Fits(c, s);
    Announces(c, DaemonAlone(c, s, 6));
    hide DaemonAlone, Signalled, TokenInv, Step;
  }

  lemma NextIsStep(c: Config, t: seq<Event>, turn: DaemonTurn)
    requires !turn.expired
    ensures var s := Exec(c, t);
      Exec(c, t + DaemonNext(s.daemon, turn)) == Step(c, s, DaemonEvent(s.daemon, false))
  {
    var s := Exec(c, t);
    ExecSnoc(c, t, DaemonEvent(s.daemon, false));
    ExitedStays(c, s);
    hide Step, Exec, DaemonEvent;
    assert t + [] == t;
  }

  lemma ExitedStays(c: Config, s: State)
    requires Fits(c, s)
    ensures s.daemon.DExited? ==> Step(c, s, DaemonEvent(s.daemon, false)) == s
  {
  }

  /** A gap filled with unexpired daemon steps is the daemon on its own. */
  lemma {:induction false} GapIsAlone(c: Config, before: seq<Event>, turns: seq<Turn<DaemonTurn>>)
    requires forall i :: 0 <= i < |turns| ==> turns[i].Takes? && !turns[i].turn.expired
    ensures Exec(c, DaemonGap(c, before, turns)) == DaemonAlone(c, Exec(c, before), |turns|)
  {
    hide Step, Exec, DaemonEvent, DaemonNext;
    if turns != [] {
      var n := |turns| - 1;
      assert turns[n].Takes?;
      GapIsAlone(c, before, turns[..n]);
      NextIsStep(c, DaemonGap(c, before, turns[..n]), turns[n].turn);
    }
  }

  /** Nothing queued, signalled or under way. */
  predicate Quiet(s: State) {
    s.client.CIdle? && s.daemon.DTop? && s.running && s.inQ == s.outQ == [] && s.inCount == s.outCount == 0
  }

  /** The daemon has a whole undisturbed round between the client's signal and its wait. */
  predicate Prompt(turns: seq<seq<Turn<DaemonTurn>>>) {
    && |turns| == 3 && turns[0] == turns[2] == [] && |turns[1]| == 8
    && forall i :: 0 <= i < 8 ==> turns[1][i].Takes? && !turns[1][i].turn.expired
  }

  lemma PromptWait(c: Config, before: seq<Event>, input: Block, turns: seq<seq<Turn<DaemonTurn>>>)
    requires c.Valid() && |input| == c.block <= c.capacity && Quiet(Exec(c, before)) && Prompt(turns)
    ensures Exec(c, before + [Call(input)]).client.COwes?
    ensures var s, w := Exec(c, before), Exec(c, BeforeWait(c, before, input, turns));
      && w.client.CWaits? && w.outCount == 1 && w.outQ == c.f(input)
      && w.daemon.DTop? && w.running && w.inQ == [] && w.inCount == 0
      && w.delivered == s.delivered && w.timeouts == s.timeouts && w.xruns == s.xruns
  {
    var called := before + [Call(input)];
    var signalled := called + [SignalIn];
    ExecSnoc(c, before, Call(input));
    ExecSnoc(c, called, SignalIn);
    assert input[..c.block] == input;
    assert Exec(c, signalled).inQ == input;
    TokensHold(c, signalled);
    GapIsAlone(c, signalled, turns[1]);
    hide DaemonGap, DaemonAlone;
    assert DaemonGap(c, called, turns[0]) == called by { NoGap(c, called); }
    DaemonAnswers(c, Exec(c, signalled));
  }

  lemma NoGap(c: Config, before: seq<Event>)
    ensures DaemonGap(c, before, []) == before
  {
  }

  lemma WokenReads(c: Config, w: State)
    requires c.Valid() && Fits(c, w) && w.client.CWaits? && w.outCount > 0 && |w.outQ| == c.block
    ensures var woken := Step(c, w, WaitOut(false));
      && woken.client.CWoken?
      && Step(c, woken, ReadOut) ==
           w.(outCount := 0, outQ := [], client := CIdle, delivered := w.delivered + [w.outQ],
              clientFrames := w.clientFrames + c.frames)
  {
    ReadOutTaking(c, Step(c, w, WaitOut(false)));
    assert w.outQ[..c.block] == w.outQ && w.outQ[c.block..] == [];
  }

  /** A prompt answer: called on a quiet system, with a daemon that gets its round in, the call
      delivers the effect on its own input, and counts no timeout and no refusal. */
  lemma PromptCall(c: Config, before: seq<Event>, input: Block, turns: seq<seq<Turn<DaemonTurn>>>)
    requires c.Valid() && |input| == c.block <= c.capacity && Quiet(Exec(c, before)) && Prompt(turns)
    ensures var s, s' := Exec(c, before), Exec(c, CallTrace(c, before, input, turns, false));
      && s'.delivered == s.delivered + [c.f(input)]
      && s'.timeouts == s.timeouts && s'.xruns == s.xruns && Quiet(s')
  {
    var waiting := BeforeWait(c, before, input, turns);
    PromptWait(c, before, input, turns);
    WokenReads(c, Exec(c, waiting));
    ExecSnoc(c, waiting, WaitOut(false));
    ExecSnoc(c, waiting + [WaitOut(false)], ReadOut);
    NoGap(c, waiting + [WaitOut(false)]);
    hide DaemonGap, BeforeWait, Exec, Step;
  }

  /** A call made in the gap before the wait wakes the round, which finds the block behind what was
      queued already. */
  lemma CallInGapWakes(c: Config, before: seq<Event>, call: ClientTurn, signal: ClientTurn, round: Round)
    requires c.Valid() && Fits(c, Exec(c, before)) && Exec(c, before).client.CIdle?
    requires |call.input| == c.block && |Exec(c, before).inQ| + c.block <= c.capacity
    requires round.Gap(0) == [Takes(call), Takes(signal)] && !round.turn.expired
    ensures Wakes(c, before, round, true)
    ensures Exec(c, ClientGap(c, before, round.Gap(0), true)).inQ == Exec(c, before).inQ + call.input
  {
    var called := before + [Call(call.input)];
    ExecSnoc(c, before, Call(call.input));
    ExecSnoc(c, called, SignalIn);
    assert call.input[..c.block] == call.input;
    assert round.Gap(0)[..1] == [Takes(call)] && [Takes(call)][..0] == [];
    assert ClientGap(c, before, [Takes(call)], true) == called;
  }

  // ----- Histories only grow -----

  lemma {:induction false} DaemonGapExtends(c: Config, before: seq<Event>, turns: seq<Turn<DaemonTurn>>)
    ensures before <= DaemonGap(c, before, turns)
  {
    if turns != [] { DaemonGapExtends(c, before, turns[..|turns| - 1]); }
  }

  lemma {:induction false} ClientGapExtends(c: Config, before: seq<Event>, turns: seq<Turn<ClientTurn>>, calling: bool)
    ensures before <= ClientGap(c, before, turns, calling)
  {
    if turns != [] { ClientGapExtends(c, before, turns[..|turns| - 1], calling); }
  }

  lemma CallExtends(c: Config, before: seq<Event>, input: Block, turns: seq<seq<Turn<DaemonTurn>>>, expired: bool)
    requires |turns| == 3
    ensures before <= CallTrace(c, before, input, turns, expired)
  {
    var called := before + [Call(input)];
    var signalled := DaemonGap(c, called, turns[0]) + [SignalIn];
    var waited := DaemonGap(c, signalled, turns[1]) + [WaitOut(expired)];
    DaemonGapExtends(c, called, turns[0]);
    DaemonGapExtends(c, signalled, turns[1]);
    DaemonGapExtends(c, waited, turns[2]);
    hide DaemonGap, Exec;
  }

  lemma TakeExtends(c: Config, before: seq<Event>, round: Round, calling: bool)
    ensures before <= TakeTrace(c, before, round, calling)
  {
    var waited := before + [WaitIn(round.turn.expired)];
    var checked := ClientGap(c, waited, round.Gap(1), calling) + [CheckIn];
    ClientGapExtends(c, waited, round.Gap(1), calling);
    ClientGapExtends(c, checked, round.Gap(2), calling);
    hide ClientGap, Exec;
  }

  lemma GiveExtends(c: Config, before: seq<Event>, round: Round, calling: bool)
    ensures before <= GiveTrace(c, before, round, calling)
  {
    var offered := OfferTrace(c, before, round, calling);
    var signalled := ClientGap(c, offered, round.Gap(5), calling) + [SignalOut];
    ClientGapExtends(c, before + [Make], round.Gap(4), calling);
    ClientGapExtends(c, offered, round.Gap(5), calling);
    ClientGapExtends(c, signalled, round.Gap(6), calling);
    hide ClientGap, Exec;
  }

  lemma RoundExtends(c: Config, before: seq<Event>, round: Round, calling: bool)
    ensures before <= RoundTrace(c, before, round, calling)
  {
    var waiting := ClientGap(c, before, round.Gap(0), calling);
    var took := TakeTrace(c, waiting, round, calling);
    var given := ClientGap(c, took, round.Gap(3), calling);
    ClientGapExtends(c, before, round.Gap(0), calling);
    TakeExtends(c, waiting, round, calling);
    ClientGapExtends(c, took, round.Gap(3), calling);
    GiveExtends(c, given, round, calling);
    ClientGapExtends(c, MiddleTrace(c, waiting, round, calling), round.Gap(7), calling);
    hide ClientGap, TakeTrace, GiveTrace, Exec;
  }

  lemma {:induction false} ThreadExtends(c: Config, before: seq<Event>, rounds: seq<Round>, calling: bool)
    ensures before <= ThreadTrace(c, before, rounds, calling)
  {
    if rounds != [] {
      var n := |rounds| - 1;
      ThreadExtends(c, before, rounds[..n], calling);
      RoundExtends(c, ThreadTrace(c, before, rounds[..n], calling) + [TestRunning], rounds[n], calling);
    }
  }

  lemma {:induction false} JoinExtends(c: Config, before: seq<Event>, steps: seq<Round>, calling: bool)
    ensures before <= JoinTrace(c, before, steps, calling)
  {
    if steps != [] {
      var n := |steps| - 1;
      JoinExtends(c, before, steps[..n], calling);
      ClientGapExtends(c, JoinTrace(c, before, steps[..n], calling), steps[n].Gap(0), calling);
    }
  }
}
