/** The HAL's degradation counter: a leaky count of timeouts that latches passthrough. */
module Hal {
  import opened Words

  newtype sample = x: int | -32768 <= x < 32768

  /** What a call of `EffectClient_Process` returned. */
  datatype Outcome = Ok | Timeout | Other

  datatype Degradation = Degradation(count: nat, passthrough: bool)

  function Next(d: Degradation, o: Outcome): Degradation {
    if d.passthrough then d
    else match o
      case Timeout => Degradation(d.count + 1, d.count + 1 > 100)
      case Ok => Degradation(if d.count > 0 then d.count - 1 else 0, false)
      case Other => d
  }

  function After(history: seq<Outcome>): Degradation {
    if history == [] then Degradation(0, false)
    else Next(After(history[..|history| - 1]), history[|history| - 1])
  }

  /** Timeouts minus answers. */
  function Net(history: seq<Outcome>): int {
    if history == [] then 0
    else
      var last := history[|history| - 1];
      Net(history[..|history| - 1]) + (if last.Timeout? then 1 else if last.Ok? then -1 else 0)
  }

  function Weight(o: Outcome): int {
    if o.Timeout? then 1 else if o.Ok? then -1 else 0
  }

  lemma NetSnoc(before: seq<Outcome>, o: Outcome, i: nat)
    requires i <= |before|
    ensures Net((before + [o])[i..]) == Net(before[i..]) + Weight(o)
  {
    assert (before + [o])[i..] == before[i..] + [o];
    assert (before[i..] + [o])[..|before| - i] == before[i..];
  }

  lemma AfterSnoc(before: seq<Outcome>, o: Outcome)
    ensures After(before + [o]) == Next(After(before), o)
  {
    assert (before + [o])[..|before|] == before;
  }

  lemma {:induction false} NoStretchExceeds(history: seq<Outcome>, i: nat)
    requires !After(history).passthrough && i <= |history|
    ensures Net(history[i..]) <= After(history).count
  {
    if i < |history| {
      var before, o := history[..|history| - 1], history[|history| - 1];
      assert history == before + [o];
      NoStretchExceeds(before, i);
      NetSnoc(before, o, i);
    } else {
      assert history[i..] == [];
    }
  }

  lemma {:induction false} SomeStretchReaches(history: seq<Outcome>) returns (from: nat)
    requires !After(history).passthrough
    ensures from <= |history| && Net(history[from..]) == After(history).count
  {
    if After(history).count == 0 {
      from := |history|;
      assert history[from..] == [];
    } else {
      var before, o := history[..|history| - 1], history[|history| - 1];
      assert history == before + [o];
      from := SomeStretchReaches(before);
      NetSnoc(before, o, from);
    }
  }

  /** Until it latches, the counter is the largest excess of timeouts over answers that any recent
      stretch of calls, however long, has had. */
  lemma CountIsWorstRecentStretch(history: seq<Outcome>)
    requires !After(history).passthrough
    ensures forall i :: 0 <= i <= |history| ==> Net(history[i..]) <= After(history).count
    ensures exists i :: 0 <= i <= |history| && Net(history[i..]) == After(history).count
  {
    forall i | 0 <= i <= |history| ensures Net(history[i..]) <= After(history).count {
      NoStretchExceeds(history, i);
    }
    var from := SomeStretchReaches(history);
  }

  ghost predicate BadWindow(history: seq<Outcome>, i: int, j: int) {
    0 <= i <= j <= |history| && Net(history[i..j]) > 100
  }

  /** A call that does not latch completes no bad window, and one that latches completes one. */
  lemma NewBadWindow(before: seq<Outcome>, o: Outcome) returns (from: nat)
    requires !After(before).passthrough
    ensures After(before + [o]).passthrough ==> BadWindow(before + [o], from, |before| + 1)
    ensures !After(before + [o]).passthrough ==>
      forall i, j :: j == |before| + 1 ==> !BadWindow(before + [o], i, j)
  {
    var history := before + [o];
    AfterSnoc(before, o);
    from := SomeStretchReaches(before);
    NetSnoc(before, o, from);
    assert history[from..|history|] == history[from..];
    if !After(history).passthrough {
      LatchCount(before);
      forall i | 0 <= i <= |history| ensures Net(history[i..|history|]) <= 100 {
        assert history[i..|history|] == history[i..];
        NoStretchExceeds(history, i);
        LatchCount(history);
      }
    }
  }

  lemma {:induction false} LatchCount(history: seq<Outcome>)
    ensures After(history).count <= (if After(history).passthrough then 101 else 100)
  {
    if history != [] {
      LatchCount(history[..|history| - 1]);
    }
  }

  lemma OlderWindows(before: seq<Outcome>, o: Outcome, i: int, j: int)
    requires j <= |before|
    ensures BadWindow(before + [o], i, j) <==> BadWindow(before, i, j)
  {
    if 0 <= i <= j { assert (before + [o])[i..j] == before[i..j]; }
  }

  /** Passthrough has latched exactly if some window of consecutive calls had over 100 more timeouts
      than answers. */
  lemma {:induction false} LatchedIffBadWindow(history: seq<Outcome>)
    ensures After(history).passthrough <==> exists i, j :: BadWindow(history, i, j)
  {
    if history != [] {
      var before, o := history[..|history| - 1], history[|history| - 1];
      assert history == before + [o];
      LatchedIffBadWindow(before);
      AfterSnoc(before, o);
      forall i, j | j <= |before| ensures BadWindow(history, i, j) <==> BadWindow(before, i, j) {
        OlderWindows(before, o, i, j);
      }
      if After(before).passthrough {
        var i, j :| BadWindow(before, i, j);
        assert BadWindow(history, i, j);
      } else {
        var from := NewBadWindow(before, o);
        hide Net;
        assert forall i, j :: BadWindow(history, i, j) ==> j <= |before| || j == |before| + 1;
      }
    }
  }

  lemma {:induction false} LatchStays(history: seq<Outcome>, more: seq<Outcome>)
    requires After(history).passthrough
    ensures After(history + more) == After(history)
    decreases |more|
  {
    if more == [] {
      assert history + more == history;
    } else {
      var n := |more| - 1;
      assert (history + more)[..|history| + n] == history + more[..n];
      LatchStays(history, more[..n]);
    }
  }

  /** A hundred calls, as in the example program, can never latch. */
  lemma HundredCallsNeverLatch(history: seq<Outcome>)
    requires |history| <= 100
    ensures !After(history).passthrough
  {
    LatchedIffBadWindow(history);
    forall i, j | 0 <= i <= j <= |history| ensures !BadWindow(history, i, j) {
      NetAtMostLength(history[i..j]);
    }
  }

  lemma {:induction false} NetAtMostLength(history: seq<Outcome>)
    ensures Net(history) <= |history|
  {
    if history != [] {
      NetAtMostLength(history[..|history| - 1]);
    }
  }

  class AudioHal {
    var effectEnabled: bool
    var passthroughMode: bool
    var timeoutCount: nat
    ghost var history: seq<Outcome>

    ghost predicate Valid()
      reads this
    {
      effectEnabled ==> Degradation(timeoutCount, passthroughMode) == After(history)
    }

    constructor ()
      ensures Valid() && !effectEnabled
    {
      effectEnabled, passthroughMode, timeoutCount, history := false, false, 0, [];
    }

    /** `didOpen` and `didStart` are the results of the two client calls. */
    method Init(didOpen: bool, didStart: bool) returns (status: int)
      modifies this
      ensures Valid() && effectEnabled == (didOpen && didStart) && passthroughMode == !effectEnabled
      ensures status == if effectEnabled then 0 else -1
      ensures effectEnabled ==> history == []
    {
      if !didOpen || !didStart {
        effectEnabled, passthroughMode := false, true;
        return -1;
      }
      effectEnabled, passthroughMode, timeoutCount, history := true, false, 0, [];
      return 0;
    }

    /** `outcome` is what the client returned and `produced` what it left in the output buffer. */
    method Process(input: array<sample>, output: array<sample>, frames: nat, outcome: Outcome, produced: seq<sample>)
      requires Valid() && input != output
      requires frames * 2 == input.Length == output.Length == |produced|
      modifies `passthroughMode, `timeoutCount, `history, output
      ensures Valid()
      ensures history == old(history) + (if effectEnabled && !old(passthroughMode) then [outcome] else [])
      ensures output[..] == if effectEnabled && !old(passthroughMode) && !outcome.Other? then produced else input[..]
      ensures !effectEnabled ==> timeoutCount == old(timeoutCount) && passthroughMode == old(passthroughMode)
    {
      if !effectEnabled || passthroughMode {
        forall i | 0 <= i < output.Length { output[i] := input[i]; }
        return;
      }
      forall i | 0 <= i < output.Length { output[i] := produced[i]; }
      history := history + [outcome];
      assert history[..|history| - 1] == old(history);
      if outcome.Timeout? {
        timeoutCount := timeoutCount + 1;
        if timeoutCount > 100 {
          passthroughMode := true;
        }
      } else if outcome.Ok? {
        if timeoutCount > 0 {
          timeoutCount := timeoutCount - 1;
        }
      } else {
        forall i | 0 <= i < output.Length { output[i] := input[i]; }
      }
    }
  }
}
