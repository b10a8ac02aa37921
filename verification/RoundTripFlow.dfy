/** Where every block of the round trip is: conservation, order and lag of the Android build, and
    when the partial-transfer builds do the same. */
module RoundTripFlow {
  import opened Words
  import opened EventFds
  import opened RoundTrip
  import Queues

  function Flat(blocks: seq<Block>): seq<byte> {
    if blocks == [] then [] else blocks[0] + Flat(blocks[1..])
  }

  predicate AllOf(blocks: seq<Block>, size: nat) {
    forall i :: 0 <= i < |blocks| ==> |blocks[i]| == size
  }

  lemma {:induction false} FlatSnoc(blocks: seq<Block>, b: Block)
    ensures Flat(blocks + [b]) == Flat(blocks) + b
  {
    if blocks == [] {
      assert blocks + [b] == [b];
    } else {
      assert (blocks + [b])[1..] == blocks[1..] + [b];
      FlatSnoc(blocks[1..], b);
    }
  }

  lemma {:induction false} FlatLength(blocks: seq<Block>, size: nat)
    requires AllOf(blocks, size)
    ensures |Flat(blocks)| == size * |blocks|
  {
    if blocks != [] {
      FlatLength(blocks[1..], size);
      TimesAdd(size, |blocks| - 1, 1);
    }
  }

  /** Taking the next block off a queue of blocks. */
  lemma FlatHead(blocks: seq<Block>, n: nat, size: nat)
    requires n <= |blocks| && 0 < size && AllOf(blocks, size) && size <= |Flat(blocks[n..])|
    ensures n < |blocks|
    ensures Flat(blocks[n..])[..size] == blocks[n]
    ensures Flat(blocks[n..])[size..] == Flat(blocks[n + 1..])
  {
    assert blocks[n..] != [];
    assert blocks[n..][1..] == blocks[n + 1..];
  }

  function Trues(kept: seq<bool>): nat {
    if kept == [] then 0 else Trues(kept[..|kept| - 1]) + (if kept[|kept| - 1] then 1 else 0)
  }

  function Falses(kept: seq<bool>): nat {
    if kept == [] then 0 else Falses(kept[..|kept| - 1]) + (if kept[|kept| - 1] then 0 else 1)
  }

  /** The effect mapped over the blocks that were kept, in order. */
  ghost function SentOf(f: Block -> Block, accepted: seq<Block>, kept: seq<bool>): seq<Block>
    requires |kept| <= |accepted|
  {
    if kept == [] then []
    else
      var n := |kept| - 1;
      SentOf(f, accepted, kept[..n]) + if kept[n] then [f(accepted[n])] else []
  }

  lemma {:induction false} SentOfExtend(f: Block -> Block, accepted: seq<Block>, b: Block, kept: seq<bool>)
    requires |kept| <= |accepted|
    ensures SentOf(f, accepted + [b], kept) == SentOf(f, accepted, kept)
  {
    if kept != [] {
      SentOfExtend(f, accepted, b, kept[..|kept| - 1]);
    }
  }

  lemma SentOfVerdict(f: Block -> Block, accepted: seq<Block>, kept: seq<bool>, v: bool)
    requires |kept| < |accepted|
    ensures SentOf(f, accepted, kept + [v])
         == SentOf(f, accepted, kept) + (if v then [f(accepted[|kept|])] else [])
    ensures Trues(kept + [v]) == Trues(kept) + (if v then 1 else 0)
    ensures Falses(kept + [v]) == Falses(kept) + (if v then 0 else 1)
  {
    assert (kept + [v])[..|kept|] == kept;
  }

  lemma {:induction false} VerdictsCount(f: Block -> Block, accepted: seq<Block>, kept: seq<bool>)
    requires |kept| <= |accepted|
    ensures Trues(kept) + Falses(kept) == |kept|
    ensures |SentOf(f, accepted, kept)| == Trues(kept)
  {
    if kept != [] {
      VerdictsCount(f, accepted, kept[..|kept| - 1]);
    }
  }

  function Hand(s: State): nat { if s.daemon.DHolds? || s.daemon.DMade? then 1 else 0 }

  function InFlight(s: State): nat { if s.client.CIdle? then 0 else 1 }

  /** Blocks sent but not yet counted by the daemon. */
  function Uncounted(s: State): nat { if s.daemon.DOwes? || s.daemon.DCounts? then 1 else 0 }

  /** The input queue holds exactly the accepted blocks not yet taken, and the daemon's hand the
      last one taken, before or after the effect. */
  ghost predicate InputFlow(c: Config, s: State) {
    && AllOf(s.accepted, c.block)
    && s.taken <= |s.accepted|
    && s.inQ == Flat(s.accepted[s.taken..])
    && |s.kept| + Hand(s) == s.taken
    && (s.daemon.DHolds? ==> s.daemon.block == s.accepted[s.taken - 1])
    && (s.daemon.DMade? ==> s.daemon.block == c.f(s.accepted[s.taken - 1]))
  }

  /** The output queue holds exactly the sent blocks not yet delivered, and what was sent is the
      effect over the kept blocks. */
  ghost predicate OutputFlow(c: Config, s: State) {
    && AllOf(s.sent, c.block)
    && |s.kept| <= |s.accepted|
    && s.sent == SentOf(c.f, s.accepted, s.kept)
    && s.delivered <= s.sent
    && s.outQ == Flat(s.sent[|s.delivered|..])
  }

  /** Every accepted block's call was answered, timed out, or is in flight; and the frame
      counters agree with the blocks. */
  ghost predicate Tally(c: Config, s: State) {
    && |s.accepted| == |s.delivered| + s.timeouts + InFlight(s)
    && s.clientFrames == FramesIn(c, |s.delivered|)
    && s.daemonFrames + FramesIn(c, Uncounted(s)) == FramesIn(c, |s.sent|)
    && s.droppedFrames == FramesIn(c, Falses(s.kept))
    && (!s.client.CIdle? ==> s.accepted != [] && s.client.input == s.accepted[|s.accepted| - 1])
  }

  function FramesIn(c: Config, blocks: nat): nat { c.frames * blocks }

  lemma OneMoreBlock(c: Config, blocks: nat)
    ensures FramesIn(c, 0) == 0 && FramesIn(c, 1) == c.frames
    ensures FramesIn(c, blocks + 1) == FramesIn(c, blocks) + c.frames
  {
  }

  ghost predicate FlowInv(c: Config, s: State) {
    TokenInv(c, s) && InputFlow(c, s) && OutputFlow(c, s) && Tally(c, s)
  }

  // Frames: what each part of the invariant depends on.

  lemma InputFrame(c: Config, s: State, s': State)
    requires InputFlow(c, s)
    requires s'.accepted == s.accepted && s'.taken == s.taken && s'.inQ == s.inQ && s'.kept == s.kept
    requires s'.daemon == s.daemon || Hand(s) == Hand(s') == 0
    ensures InputFlow(c, s')
  {
  }

  lemma OutputFrame(c: Config, s: State, s': State)
    requires OutputFlow(c, s)
    requires s'.accepted == s.accepted && s'.kept == s.kept
    requires s'.sent == s.sent && s'.delivered == s.delivered && s'.outQ == s.outQ
    ensures OutputFlow(c, s')
  {
  }

  lemma TallyFrame(c: Config, s: State, s': State)
    requires Tally(c, s)
    requires s'.accepted == s.accepted && s'.kept == s.kept && s'.sent == s.sent && s'.delivered == s.delivered
    requires s'.clientFrames == s.clientFrames && s'.droppedFrames == s.droppedFrames
    requires s'.daemonFrames == s.daemonFrames && Uncounted(s') == Uncounted(s)
    requires s'.timeouts + InFlight(s') == s.timeouts + InFlight(s)
    requires s'.client.CIdle? || (!s.client.CIdle? && s'.client.input == s.client.input)
    ensures Tally(c, s')
  {
  }

  lemma CallKeepsFlow(c: Config, s: State, input: Block)
    requires c.Valid() && c.build.Android? && FlowInv(c, s)
    ensures FlowInv(c, Step(c, s, Call(input)))
  {
    ClientKeepsTokens(c, s, Call(input));
    hide FramesIn, TokenInv, Flat, SentOf;
    var s' := Step(c, s, Call(input));
    if s'.accepted != s.accepted {
      assert s'.accepted == s.accepted + [input] && s'.inQ == s.inQ + input;
      assert s'.accepted[s.taken..] == s.accepted[s.taken..] + [input];
      FlatSnoc(s.accepted[s.taken..], input);
      SentOfExtend(c.f, s.accepted, input, s.kept);
    } else {
      assert s'.inQ == s.inQ;
      InputFrame(c, s, s');
      OutputFrame(c, s, s');
    }
  }

  lemma ReadOutKeepsFlow(c: Config, s: State)
    requires c.Valid() && c.build.Android? && FlowInv(c, s)
    ensures FlowInv(c, Step(c, s, ReadOut))
  {
    ClientKeepsTokens(c, s, ReadOut);
    TokensAreBlocks(c, s);
    InputFrame(c, s, Step(c, s, ReadOut));
    if s.client.CWoken? {
      ReadOutTaking(c, s);
      hide Step, FramesIn, TokenInv, Flat, SentOf, InputFlow;
      FlatHead(s.sent, |s.delivered|, c.block);
      OneMoreBlock(c, |s.delivered|);
    }
  }

  lemma ReadInKeepsFlow(c: Config, s: State)
    requires c.Valid() && c.build.Android? && FlowInv(c, s)
    ensures FlowInv(c, Step(c, s, ReadIn))
  {
    DaemonKeepsTokens(c, s, ReadIn);
    TokensAreBlocks(c, s);
    OutputFrame(c, s, Step(c, s, ReadIn));
    TallyFrame(c, s, Step(c, s, ReadIn));
    hide FramesIn, TokenInv, Flat, SentOf, OutputFlow, Tally;
    if s.daemon.DReady? {
      FlatHead(s.accepted, s.taken, c.block);
    }
  }

  lemma WriteOutSends(c: Config, s: State)
    requires c.Valid() && c.build.Android? && FlowInv(c, s)
    requires s.daemon.DMade? && |s.outQ| + c.block <= c.capacity
    ensures FlowInv(c, Step(c, s, WriteOut))
  {
    DaemonKeepsTokens(c, s, WriteOut);
    WriteOutSending(c, s);
    var s', o := Step(c, s, WriteOut), s.daemon.block;
    hide Step, FramesIn, TokenInv, Flat, SentOf, Trues, Falses;
    SentOfVerdict(c.f, s.accepted, s.kept, true);
    OneMoreBlock(c, |s.sent|);
    FlatSnoc(s.sent[|s.delivered|..], o);
    assert s'.sent[|s.delivered|..] == s.sent[|s.delivered|..] + [o];
  }

  lemma WriteOutDrops(c: Config, s: State)
    requires c.Valid() && c.build.Android? && FlowInv(c, s)
    requires s.daemon.DMade? && |s.outQ| + c.block > c.capacity
    ensures FlowInv(c, Step(c, s, WriteOut))
  {
    DaemonKeepsTokens(c, s, WriteOut);
    WriteOutDropping(c, s);
    assert s.outQ + s.daemon.block[..0] == s.outQ;
    hide Step, FramesIn, TokenInv, Flat, SentOf, Trues, Falses;
    SentOfVerdict(c.f, s.accepted, s.kept, false);
    OneMoreBlock(c, Falses(s.kept));
  }

  lemma ClientWaitsKeepFlow(c: Config, s: State, e: Event)
    requires c.Valid() && c.build.Android? && FlowInv(c, s)
    requires e.SignalIn? || e.WaitOut?
    ensures FlowInv(c, Step(c, s, e))
  {
    ClientKeepsTokens(c, s, e);
    hide TokenInv, InputFlow, OutputFlow, Tally, Signalled;
    InputFrame(c, s, Step(c, s, e));
    OutputFrame(c, s, Step(c, s, e));
    TallyFrame(c, s, Step(c, s, e));
  }

  lemma DaemonWaitsKeepFlow(c: Config, s: State, e: Event)
    requires c.Valid() && c.build.Android? && FlowInv(c, s)
    requires e.TestRunning? || e.WaitIn? || e.Stop?
    ensures FlowInv(c, Step(c, s, e))
  {
    DaemonKeepsTokens(c, s, e);
    hide TokenInv, InputFlow, OutputFlow, Tally, Signalled;
    InputFrame(c, s, Step(c, s, e));
    OutputFrame(c, s, Step(c, s, e));
    TallyFrame(c, s, Step(c, s, e));
  }

  lemma DaemonMovesKeepFlow(c: Config, s: State, e: Event)
    requires c.Valid() && c.build.Android? && FlowInv(c, s)
    requires e.CheckIn? || e.SignalOut?
    ensures FlowInv(c, Step(c, s, e))
  {
    DaemonKeepsTokens(c, s, e);
    hide TokenInv, InputFlow, OutputFlow, Tally, Signalled;
    InputFrame(c, s, Step(c, s, e));
    OutputFrame(c, s, Step(c, s, e));
    TallyFrame(c, s, Step(c, s, e));
  }

  lemma MakeAndCountKeepFlow(c: Config, s: State, e: Event)
    requires c.Valid() && c.build.Android? && FlowInv(c, s)
    requires e.Make? || e.Count?
    ensures FlowInv(c, Step(c, s, e))
  {
    DaemonKeepsTokens(c, s, e);
    OneMoreBlock(c, 0);
    OutputFrame(c, s, Step(c, s, e));
    hide FramesIn, TokenInv, Flat, Falses, OutputFlow;
  }

  lemma {:induction false} FlowHolds(c: Config, events: seq<Event>)
    requires c.Valid() && c.build.Android?
    ensures FlowInv(c, Exec(c, events))
  {
    if events != [] {
      var before, e := events[..|events| - 1], events[|events| - 1];
      FlowHolds(c, before);
      StepKeepsFlow(c, Exec(c, before), e);
    } else {
      assert Start().accepted[0..] == [];
    }
  }

  lemma StepKeepsFlow(c: Config, s: State, e: Event)
    requires c.Valid() && c.build.Android? && FlowInv(c, s)
    ensures FlowInv(c, Step(c, s, e))
  {
    assert Fits(c, s);
    hide FlowInv;
    match e {
      case Call(input) => CallKeepsFlow(c, s, input);
      case ReadOut => ReadOutKeepsFlow(c, s);
      case ReadIn => ReadInKeepsFlow(c, s);
      case WriteOut =>
        if !s.daemon.DMade? { assert Step(c, s, WriteOut) == s; }
        else if |s.outQ| + c.block <= c.capacity { WriteOutSends(c, s); }
        else { WriteOutDrops(c, s); }
      case _ =>
        if ByClient(e) { ClientWaitsKeepFlow(c, s, e); }
        else if e.Make? || e.Count? { MakeAndCountKeepFlow(c, s, e); }
        else if e.CheckIn? || e.SignalOut? { DaemonMovesKeepFlow(c, s, e); }
        else { DaemonWaitsKeepFlow(c, s, e); }
    }
  }

  // ----- Conservation, order and lag -----

  /** Backlog conservation: what is in the two queues, in the daemon's hand and dropped is
      exactly one block for each timed-out call (and for the call in flight, if any). */
  lemma Backlog(c: Config, events: seq<Event>)
    requires c.Valid() && c.build.Android?
    ensures var s := Exec(c, events);
      |s.inQ| + c.block * Hand(s) + |s.outQ| + c.block * Falses(s.kept) == c.block * (s.timeouts + InFlight(s))
  {
    FlowHolds(c, events);
    BacklogOf(c, Exec(c, events));
  }

  lemma BacklogOf(c: Config, s: State)
    requires c.Valid() && FlowInv(c, s)
    ensures |s.inQ| == c.block * (|s.accepted| - s.taken)
    ensures |s.outQ| == c.block * (|s.sent| - |s.delivered|)
    ensures |s.inQ| + c.block * Hand(s) + |s.outQ| + c.block * Falses(s.kept) == c.block * (s.timeouts + InFlight(s))
  {
    FlatLength(s.accepted[s.taken..], c.block);
    FlatLength(s.sent[|s.delivered|..], c.block);
    VerdictsCount(c.f, s.accepted, s.kept);
    hide TokenInv, Flat, SentOf, Falses, Trues;
    var i, o, h, d := |s.accepted| - s.taken, |s.sent| - |s.delivered|, Hand(s), Falses(s.kept);
    assert i + h + o + d == s.timeouts + InFlight(s);
    TimesAdd(c.block, i, h);
    TimesAdd(c.block, i + h, o);
    TimesAdd(c.block, i + h + o, d);
  }

  /** The answers given so far are, in order, without repetition or tearing, a prefix of the effect
      mapped over the accepted blocks that the daemon kept. */
  lemma OrderedDelivery(c: Config, events: seq<Event>)
    requires c.Valid() && c.build.Android?
    ensures var s := Exec(c, events);
      && |s.kept| <= |s.accepted|
      && s.delivered <= SentOf(c.f, s.accepted, s.kept)
      && AllOf(s.delivered, c.block)
  {
    FlowHolds(c, events);
  }

  /** Cross-process accounting, at every step. */
  lemma Accounting(c: Config, events: seq<Event>)
    requires c.Valid() && c.build.Android?
    ensures var s := Exec(c, events);
      && s.daemonFrames + s.droppedFrames + c.frames * (Hand(s) + Uncounted(s)) == c.frames * s.taken
      && c.block * (s.daemonFrames + c.frames * Uncounted(s) - s.clientFrames) == c.frames * |s.outQ|
  {
    var s := Exec(c, events);
    FlowHolds(c, events);
    BacklogOf(c, s);
    VerdictsCount(c.f, s.accepted, s.kept);
    assert s.taken == Hand(s) + |s.sent| + Falses(s.kept);
    hide FlowInv, Exec, Falses;
    AccountingArithmetic(c.frames, c.block, s.taken, Hand(s), |s.sent|, |s.delivered|, Falses(s.kept), Uncounted(s));
    TalliesOf(c, events);
  }

  lemma TalliesOf(c: Config, events: seq<Event>)
    requires c.Valid() && c.build.Android?
    ensures Tally(c, Exec(c, events))
  {
    FlowHolds(c, events);
  }

  lemma AccountingArithmetic(k: nat, b: nat, taken: nat, hand: nat, sent: nat, delivered: nat, dropped: nat, open: nat)
    requires taken == hand + sent + dropped
    ensures k * sent - k * open + k * dropped + k * (hand + open) == k * taken
    ensures b * (k * sent - k * delivered) == k * (b * (sent - delivered))
  {
    TimesAdd(k, hand, open);
    TimesAdd(k, hand + sent, dropped);
    TimesAdd(k, hand, sent);
    TimesAdd(k, delivered, sent - delivered);
    assert b * (k * (sent - delivered)) == k * (b * (sent - delivered));
  }

  /** The accepted block behind the `j`-th sent one. */
  lemma {:induction false} NthSent(f: Block -> Block, accepted: seq<Block>, kept: seq<bool>, j: nat) returns (k: nat)
    requires |kept| <= |accepted| && j < |SentOf(f, accepted, kept)|
    ensures k < |kept| && kept[k] && Trues(kept[..k]) == j
    ensures SentOf(f, accepted, kept)[j] == f(accepted[k])
  {
    var n := |kept| - 1;
    VerdictsCount(f, accepted, kept[..n]);
    if j < |SentOf(f, accepted, kept[..n])| {
      k := NthSent(f, accepted, kept[..n], j);
      assert kept[..n][..k] == kept[..k];
    } else {
      k := n;
    }
  }

  /** Exact lag: an answered call gets the effect on the block accepted `timeouts` calls before
      it, less the drops made before that block. */
  lemma ExactLag(c: Config, events: seq<Event>) returns (k: nat)
    requires c.Valid() && c.build.Android? && Exec(c, events).client.CWoken?
    ensures var s := Exec(c, events);
      && k < |s.kept| <= |s.accepted|
      && s.kept[k]
      && Step(c, s, ReadOut).delivered == s.delivered + [c.f(s.accepted[k])]
      && |s.accepted| - 1 - k == s.timeouts - Falses(s.kept[..k])
  {
    var s := Exec(c, events);
    FlowHolds(c, events);
    TokensAreBlocks(c, s);
    FlatHead(s.sent, |s.delivered|, c.block);
    k := NthSent(c.f, s.accepted, s.kept, |s.delivered|);
    VerdictsCount(c.f, s.accepted, s.kept[..k]);
  }

  // ----- Runs without loss, in every build -----

  function OnAndroid(c: Config): Config { c.(build := Android) }

  predicate SameAccepts(c: Config, held: nat)
    requires held <= c.capacity
  {
    Queues.Accepts(Queues.Partial, held, c.capacity, c.block)
    == Queues.Accepts(Queues.AllOrNothing, held, c.capacity, c.block)
  }

  predicate SameGives(c: Config, held: nat) {
    Queues.Gives(Queues.Partial, held, c.block) == Queues.Gives(Queues.AllOrNothing, held, c.block)
  }

  predicate Writes(c: Config, s: State, e: Event) {
    e.Call? && s.client.CIdle? && |e.input| == c.block
  }

  predicate Sends(s: State, e: Event) {
    e.WriteOut? && s.daemon.DMade?
  }

  /** Builds differ only where the two kinds of queue would move different amounts. */
  lemma SameTransfersSameStep(c: Config, s: State, e: Event)
    requires c.Valid() && Fits(c, s)
    requires Writes(c, s, e) ==> SameAccepts(c, |s.inQ|)
    requires Sends(s, e) ==> SameAccepts(c, |s.outQ|)
    requires s.daemon.DReady? ==> SameGives(c, |s.inQ|)
    requires s.client.CWoken? ==> SameGives(c, |s.outQ|)
    ensures Step(c, s, e) == Step(OnAndroid(c), s, e)
  {
    hide Queues.Accepts, Queues.Gives, Signalled;
  }

  /** The step finds room for the block it writes, if it writes one. */
  predicate HasSpace(c: Config, s: State, e: Event) {
    && (Writes(c, s, e) ==> |s.inQ| + c.block <= c.capacity)
    && (Sends(s, e) ==> |s.outQ| + c.block <= c.capacity)
  }

  lemma BuildsAgreeWithSpace(c: Config, s: State, e: Event)
    requires c.Valid() && TokenInv(c, s) && HasSpace(c, s, e)
    ensures Step(c, s, e) == Step(OnAndroid(c), s, e)
  {
    TokensAreBlocks(c, s);
    SameTransfersSameStep(c, s, e);
  }

  /** Blocks lost for good: calls refused and blocks the daemon dropped. */
  function Losses(s: State): nat { s.xruns + Falses(s.kept) }

  /** A step loses a block exactly when it finds no room for the one it writes. */
  lemma LossIffNoSpace(c: Config, s: State, e: Event)
    requires c.Valid() && TokenInv(c, s)
    ensures Losses(Step(c, s, e)) == Losses(s) + (if HasSpace(c, s, e) then 0 else 1)
  {
    StepLosses(c, s, e);
    FalsesSnoc(s.kept, HasSpace(c, s, e));
    hide Step, Falses, TokenInv, Fits;
    assert s.kept + [] == s.kept;
  }

  lemma StepLosses(c: Config, s: State, e: Event)
    requires c.Valid() && TokenInv(c, s)
    ensures Step(c, s, e).xruns == s.xruns + (if Writes(c, s, e) && !HasSpace(c, s, e) then 1 else 0)
    ensures Step(c, s, e).kept == s.kept + (if Sends(s, e) then [HasSpace(c, s, e)] else [])
  {
    hide Signalled, Backed, Falses;
  }

  lemma FalsesSnoc(kept: seq<bool>, v: bool)
    ensures Falses(kept + [v]) == Falses(kept) + (if v then 0 else 1)
  {
    assert (kept + [v])[..|kept|] == kept;
  }

  /** A run in which nothing was refused or dropped goes through the same states in every build,
      however many calls timed out. */
  lemma {:induction false} NoLossSameStates(c: Config, events: seq<Event>)
    requires c.Valid() && Losses(Exec(c, events)) == 0
    ensures Exec(c, events) == Exec(OnAndroid(c), events)
  {
    if events != [] {
      var before, e := events[..|events| - 1], events[|events| - 1];
      TokensHold(c, before);
      hide TokenInv, Step, Losses;
      LossIffNoSpace(c, Exec(c, before), e);
      NoLossSameStates(c, before);
      BuildsAgreeWithSpace(c, Exec(c, before), e);
    }
  }

  lemma {:induction false} FalsesOfPrefix(kept: seq<bool>, k: nat)
    requires k <= |kept|
    ensures Falses(kept[..k]) <= Falses(kept)
  {
    if k < |kept| {
      FalsesOfPrefix(kept[..|kept| - 1], k);
      assert kept[..|kept| - 1][..k] == kept[..k];
    } else {
      assert kept[..k] == kept;
    }
  }

  lemma NoLossNoDrop(c: Config, events: seq<Event>)
    requires c.Valid() && Losses(Exec(c, events)) == 0
    ensures Exec(c, events).droppedFrames == 0
  {
    hide TokenInv, InputFlow, OutputFlow;
    NoLossSameStates(c, events);
    FlowHolds(OnAndroid(c), events);
  }

  /** Exact lag in every build: as long as nothing was refused or dropped, an answered call gets the
      effect on the block accepted exactly `timeouts` calls before it. */
  lemma NoLossLag(c: Config, events: seq<Event>)
    requires c.Valid() && Losses(Exec(c, events)) == 0 && Exec(c, events).client.CWoken?
    ensures var s := Exec(c, events);
      && s.timeouts < |s.accepted|
      && Step(c, s, ReadOut).delivered == s.delivered + [c.f(s.accepted[|s.accepted| - 1 - s.timeouts])]
  {
    var s := Exec(c, events);
    NoLossSameStates(c, events);
    TokensHold(c, events);
    BuildsAgreeWithSpace(c, s, ReadOut);
    hide TokenInv, Step;
    var k := ExactLag(OnAndroid(c), events);
    FalsesOfPrefix(s.kept, k);
  }

  // ----- The lossless window -----

  lemma RoomFits(c: Config)
    requires 0 < c.block
    ensures c.block * c.Room() <= c.capacity < c.block * (c.Room() + 1)
  {
  }

  lemma RoomHoldsOne(c: Config)
    requires 0 < c.block <= c.capacity
    ensures 0 < c.Room()
  {
    RoomFits(c);
  }

  lemma SpaceArithmetic(b: nat, cap: nat, room: nat, timeouts: nat, inLen: nat, hand: nat, outLen: nat, drops: nat, open: nat)
    requires inLen + b * hand + outLen + b * drops == b * (timeouts + open)
    requires b * room <= cap && timeouts < room && open <= 1
    ensures open == 0 ==> inLen + b <= cap
    ensures hand == 1 ==> outLen + b <= cap
  {
    TimesMonotone(b, timeouts + 1, room);
    TimesMonotone(b, timeouts + open, timeouts + 1);
    TimesAdd(b, timeouts, 1);
    TimesMonotone(b, 0, drops);
    TimesMonotone(b, 0, hand);
  }

  /** While fewer calls have timed out than blocks fit, neither side can find its queue full. */
  lemma SpaceInWindow(c: Config, s: State)
    requires c.Valid() && FlowInv(c, s) && s.timeouts < c.Room()
    ensures s.client.CIdle? ==> |s.inQ| + c.block <= c.capacity
    ensures s.daemon.DMade? ==> |s.outQ| + c.block <= c.capacity
  {
    RoomFits(c);
    BacklogOf(c, s);
    hide FlowInv, Config.Room, Falses;
    SpaceArithmetic(c.block, c.capacity, c.Room(), s.timeouts, |s.inQ|, Hand(s), |s.outQ|, Falses(s.kept), InFlight(s));
  }

  lemma TimeoutsGrow(c: Config, s: State, e: Event)
    requires Fits(c, s)
    ensures s.timeouts <= Step(c, s, e).timeouts
  {
  }

  /** While fewer calls have timed out than blocks fit in a queue, nothing is lost, in any build. */
  lemma {:induction false} LosslessWindow(c: Config, events: seq<Event>)
    requires c.Valid() && Exec(c, events).timeouts < c.Room()
    ensures Losses(Exec(c, events)) == 0 && Exec(c, events).droppedFrames == 0
    ensures Exec(c, events) == Exec(OnAndroid(c), events)
  {
    if events != [] {
      var before, e := events[..|events| - 1], events[|events| - 1];
      var s := Exec(c, before);
      TimeoutsGrow(c, s, e);
      hide FlowInv, TokenInv, Step, Losses;
      LosslessWindow(c, before);
      FlowHolds(OnAndroid(c), before);
      SpaceInWindow(OnAndroid(c), s);
      TokensHold(c, before);
      LossIffNoSpace(c, s, e);
    }
    NoLossSameStates(c, events);
    NoLossNoDrop(c, events);
  }

  /** So inside the window every answer lags by exactly the timeouts. */
  lemma WindowLag(c: Config, events: seq<Event>)
    requires c.Valid() && Exec(c, events).client.CWoken? && Exec(c, events).timeouts < c.Room()
    ensures var s := Exec(c, events);
      && s.timeouts < |s.accepted|
      && Step(c, s, ReadOut).delivered == s.delivered + [c.f(s.accepted[|s.accepted| - 1 - s.timeouts])]
  {
    LosslessWindow(c, events);
    NoLossLag(c, events);
  }

  lemma WithoutTimeoutsOwnInput(c: Config, events: seq<Event>)
    requires c.Valid() && Exec(c, events).client.CWoken? && Exec(c, events).timeouts == 0
    ensures var s := Exec(c, events);
      Step(c, s, ReadOut).delivered == s.delivered + [c.f(s.client.input)]
  {
    TokensHold(c, events);
    TokensAreBlocks(c, Exec(c, events));
    RoomHoldsOne(c);
    WindowLag(c, events);
    LosslessWindow(c, events);
    FlowHolds(OnAndroid(c), events);
  }

  // ----- The window is tight, and when builds differ -----

  /** `n` calls that all time out while the daemon does not run. */
  function Fill(input: Block, n: nat): seq<Event> {
    if n == 0 then [] else Fill(input, n - 1) + [Call(input), SignalIn, WaitOut(true)]
  }

  lemma RunThree(c: Config, s: State, e1: Event, e2: Event, e3: Event)
    requires Fits(c, s)
    ensures Run(c, s, [e1, e2, e3]) == Step(c, Step(c, Step(c, s, e1), e2), e3)
  {
    hide Run, Step;
    assert [e1, e2] + [e3] == [e1, e2, e3] && [e1] + [e2] == [e1, e2];
    RunConcat(c, s, [e1, e2], [e3]);
    RunConcat(c, s, [e1], [e2]);
    RunOne(c, s, e1);
    RunOne(c, Step(c, s, e1), e2);
    RunOne(c, Step(c, Step(c, s, e1), e2), e3);
  }

  lemma CallTimesOut(c: Config, s: State, input: Block)
    requires c.Valid() && Fits(c, s) && s.client.CIdle?
    requires |input| == c.block && |s.inQ| + c.block <= c.capacity
    ensures var s' := Run(c, s, [Call(input), SignalIn, WaitOut(true)]);
      s'.client.CIdle? && s'.timeouts == s.timeouts + 1 && s'.inQ == s.inQ + input && s'.xruns == s.xruns
  {
    RunThree(c, s, Call(input), SignalIn, WaitOut(true));
    hide Run, Signalled;
  }

  lemma {:induction false} FillFills(c: Config, input: Block, n: nat)
    requires c.Valid() && |input| == c.block && n <= c.Room()
    ensures var s := Exec(c, Fill(input, n));
      s.client.CIdle? && s.timeouts == n && |s.inQ| == c.block * n && s.xruns == 0
  {
    if n > 0 {
      FillFills(c, input, n - 1);
      RoomFits(c);
      TimesMonotone(c.block, n, c.Room());
      TimesAdd(c.block, n - 1, 1);
      CallTimesOut(c, Exec(c, Fill(input, n - 1)), input);
      RunConcat(c, Start(), Fill(input, n - 1), [Call(input), SignalIn, WaitOut(true)]);
    }
  }

  /** With as many timeouts as blocks fit, the next call can find the queue full, in any build. */
  lemma WindowIsTight(c: Config, input: Block)
    requires c.Valid() && |input| == c.block
    ensures var s := Exec(c, Fill(input, c.Room()));
      s.client.CIdle? && s.timeouts == c.Room() && Step(c, s, Call(input)).xruns == s.xruns + 1
  {
    FillFills(c, input, c.Room());
    RoomFits(c);
    TimesAdd(c.block, c.Room(), 1);
  }

  lemma {:induction false} TimesIsAligned(block: nat, n: nat)
    requires 0 < block
    ensures Pos(block * n, block) == 0
  {
    if n > 0 {
      TimesIsAligned(block, n - 1);
      TimesAdd(block, n - 1, 1);
      PosAdd(block * (n - 1), block, block);
    }
  }

  lemma AlignedBuildsAgree(c: Config, s: State, e: Event)
    requires c.Valid() && FlowInv(OnAndroid(c), s) && Pos(c.capacity, c.block) == 0
    ensures Step(c, s, e) == Step(OnAndroid(c), s, e)
  {
    BacklogOf(OnAndroid(c), s);
    TimesIsAligned(c.block, |s.accepted| - s.taken);
    TimesIsAligned(c.block, |s.sent| - |s.delivered|);
    Queues.KindsAgreeOnBlock(|s.inQ|, c.capacity, c.block);
    Queues.KindsAgreeOnBlock(|s.outQ|, c.capacity, c.block);
    hide FlowInv, Pos, Step;
    SameTransfersSameStep(c, s, e);
  }

  lemma {:induction false} AlignedRunsAgree(c: Config, events: seq<Event>)
    requires c.Valid() && Pos(c.capacity, c.block) == 0
    ensures Exec(c, events) == Exec(OnAndroid(c), events)
  {
    if events != [] {
      var before := events[..|events| - 1];
      AlignedRunsAgree(c, before);
      FlowHolds(OnAndroid(c), before);
      AlignedBuildsAgree(c, Exec(c, before), events[|events| - 1]);
    }
  }

  /** Over all schedules, a partial-transfer build is the Android build exactly when a whole number
      of blocks fits in a queue. */
  lemma BuildsAgreeIff(c: Config)
    requires c.Valid() && !c.build.Android?
    ensures (forall events :: Exec(c, events) == Exec(OnAndroid(c), events)) <==> c.capacity % c.block == 0
  {
    PosIsRemainder(c.capacity, c.block);
    if c.capacity % c.block == 0 {
      forall events ensures Exec(c, events) == Exec(OnAndroid(c), events) { AlignedRunsAgree(c, events); }
    } else {
      var input := seq(c.block, i => 0);
      TornWrite(c, input);
      var events := Fill(input, c.Room()) + [Call(input)];
      assert Exec(c, events).inQ != Exec(OnAndroid(c), events).inQ;
    }
  }

  lemma TornWrite(c: Config, input: Block)
    requires c.Valid() && !c.build.Android? && |input| == c.block && c.capacity % c.block != 0
    ensures var events := Fill(input, c.Room()) + [Call(input)];
      |Exec(c, events).inQ| > |Exec(OnAndroid(c), events).inQ|
  {
    var a := OnAndroid(c);
    FillFills(c, input, c.Room());
    FillFills(a, input, c.Room());
    RoomFits(c);
    RunConcat(c, Start(), Fill(input, c.Room()), [Call(input)]);
    RunOne(c, Exec(c, Fill(input, c.Room())), Call(input));
    RunConcat(a, Start(), Fill(input, c.Room()), [Call(input)]);
    RunOne(a, Exec(a, Fill(input, c.Room())), Call(input));
    assert c.capacity == c.block * c.Room() + c.capacity % c.block;
  }
}
