/** The statistics both processes keep: 32- and 64-bit counters and a rolling latency. */
module Stats {
  import opened Words

  /** The largest latency for which the rolling average cannot overflow 32 bits. */
  const LIMIT: nat := 429496729

  datatype Latency = Latency(avg: nat, p95: nat, max: nat)

  /** `(avg * 9 + latency) / 10` in `uint32_t`; an average of 0 counts as "none yet". */
  function NextAverage(avg: nat, latency: nat): nat {
    if avg == 0 then latency else U32(avg * 9 + latency) / 10
  }

  function NextLatency(l: Latency, latency: nat): Latency {
    Latency(NextAverage(l.avg, latency),
            if latency > l.p95 then latency else l.p95,
            if latency > l.max then latency else l.max)
  }

  function Summary(latencies: seq<nat>): Latency {
    if latencies == [] then Latency(0, 0, 0)
    else NextLatency(Summary(latencies[..|latencies| - 1]), latencies[|latencies| - 1])
  }

  lemma SummarySnoc(latencies: seq<nat>, latency: nat)
    ensures Summary(latencies + [latency]) == NextLatency(Summary(latencies), latency)
  {
    assert (latencies + [latency])[..|latencies|] == latencies;
  }

  /** The rolling average without rounding. */
  ghost function ExactAverage(latencies: seq<nat>): real
    requires latencies != []
  {
    var last := latencies[|latencies| - 1] as real;
    if |latencies| == 1 then last
    else 0.9 * ExactAverage(latencies[..|latencies| - 1]) + 0.1 * last
  }

  /** The 32-bit update is the intended one exactly while it does not overflow. */
  lemma UpdateIsRightIff(avg: nat, latency: nat)
    requires 0 < avg < POW32 && latency < POW32
    ensures NextAverage(avg, latency) == (avg * 9 + latency) / 10 <==> avg * 9 + latency < POW32
  {
    var x := avg * 9 + latency;
    if x >= POW32 {
      assert x == POW32 * (x / POW32) + U32(x);
      assert U32(x) <= x - POW32;
    }
  }

  /** The average never leaves the range of the latencies seen. */
  lemma {:induction false} AverageWithinRange(latencies: seq<nat>, lo: nat, hi: nat)
    requires latencies != [] && hi <= LIMIT
    requires forall i :: 0 <= i < |latencies| ==> lo <= latencies[i] <= hi
    ensures lo <= Summary(latencies).avg <= hi
  {
    var before := latencies[..|latencies| - 1];
    if before != [] {
      AverageWithinRange(before, lo, hi);
    }
  }

  /** One update keeps the average at most 9 below the exact one, and not above it, exactly when
      it is not a restart from 0 with a latency above the exact average so far. */
  lemma TrailStep(avg: nat, exact: real, latency: nat)
    requires avg <= LIMIT && latency <= LIMIT && 0.0 <= exact - avg as real < 9.0
    ensures 0.0 <= 0.9 * exact + 0.1 * latency as real - NextAverage(avg, latency) as real < 9.0
      <==> !(avg == 0 && latency as real > exact)
  {
    if avg != 0 {
      var x := avg * 9 + latency;
      assert x == 10 * (x / 10) + x % 10;
      assert x as real == 10.0 * (x / 10) as real + (x % 10) as real;
      assert x as real == 9.0 * avg as real + latency as real;
    }
  }

  /** The integer average is at most 9 below the exact one, and not above it. */
  ghost predicate Trails(latencies: seq<nat>)
    requires latencies != []
  {
    0.0 <= ExactAverage(latencies) - Summary(latencies).avg as real < 9.0
  }

  /** Measurement `n` finds the average at 0, which reads as "none yet", and is above the exact
      average so far. */
  ghost predicate Restarts(latencies: seq<nat>, n: nat)
    requires 0 < n < |latencies|
  {
    Summary(latencies[..n]).avg == 0 && latencies[n] as real > ExactAverage(latencies[..n])
  }

  lemma {:induction false} TrailsUpTo(latencies: seq<nat>, m: nat)
    requires 0 < m <= |latencies|
    requires forall i :: 0 <= i < |latencies| ==> latencies[i] <= LIMIT
    ensures (forall n :: 0 < n <= m ==> Trails(latencies[..n])) <==> (forall n :: 0 < n < m ==> !Restarts(latencies, n))
  {
    var now := latencies[..m];
    if m == 1 {
      assert Summary(now[..0]) == Latency(0, 0, 0);
    } else {
      var before := latencies[..m - 1];
      TrailsUpTo(latencies, m - 1);
      assert now[..m - 1] == before;
      if Trails(before) {
        AverageWithinRange(before, 0, LIMIT);
        TrailStep(Summary(before).avg, ExactAverage(before), latencies[m - 1]);
        assert Trails(now) <==> !Restarts(latencies, m - 1);
      }
    }
  }

  /** Over any history the average trails the exact one throughout if and only if it never
      restarts above it. */
  lemma TrailsIffNoRestart(latencies: seq<nat>)
    requires forall i :: 0 <= i < |latencies| ==> latencies[i] <= LIMIT
    ensures (forall n :: 0 < n <= |latencies| ==> Trails(latencies[..n]))
      <==> (forall n :: 0 < n < |latencies| ==> !Restarts(latencies, n))
  {
    if latencies != [] { TrailsUpTo(latencies, |latencies|); }
  }

  /** For latencies of at least one microsecond it never does. */
  lemma AverageTrailsExact(latencies: seq<nat>)
    requires latencies != []
    requires forall i :: 0 <= i < |latencies| ==> 1 <= latencies[i] <= LIMIT
    ensures Trails(latencies)
  {
    forall n | 0 < n < |latencies| ensures !Restarts(latencies, n) {
      AverageWithinRange(latencies[..n], 1, LIMIT);
    }
    TrailsIffNoRestart(latencies);
    assert latencies[..|latencies|] == latencies;
  }

  /** A zero latency can restart the average: here it ends above the exact one. */
  lemma ZeroLatencyRestarts()
    ensures Summary([1, 0, 10]).avg == 10 && ExactAverage([1, 0, 10]) < 2.0
  {
    assert [1, 0, 10][..2] == [1, 0] && [1, 0][..1] == [1] && [1][..0] == [];
    assert Summary([1]).avg == 1 && Summary([1, 0]).avg == 0;
    assert ExactAverage([1]) == 1.0 && ExactAverage([1, 0]) == 0.9;
  }

  /** Both `maxLatencyUs` and `p95LatencyUs` are the true maximum: the latter is no percentile. */
  lemma {:induction false} PeakIsMaximum(latencies: seq<nat>)
    ensures Summary(latencies).p95 == Summary(latencies).max
    ensures forall i :: 0 <= i < |latencies| ==> latencies[i] <= Summary(latencies).max
    ensures latencies != [] ==> Summary(latencies).max in latencies
  {
    if latencies != [] {
      var before := latencies[..|latencies| - 1];
      PeakIsMaximum(before);
      if before != [] { assert Summary(before).max in before; }
      if before == [] { assert Summary(before) == Latency(0, 0, 0); }
    }
  }

  /** `EffectStats` and `SessionStats`. The ghost fields hold the true numbers behind the words. */
  class EffectStats {
    var processedFrames: nat
    var droppedFrames: nat
    var avgLatencyUs: nat
    var p95LatencyUs: nat
    var maxLatencyUs: nat
    var timeoutCount: nat
    var xrunCount: nat

    ghost var processed: nat
    ghost var dropped: nat
    ghost var timeouts: nat
    ghost var xruns: nat
    ghost var latencies: seq<nat>

    ghost predicate Valid()
      reads this
    {
      && processedFrames == U64(processed)
      && droppedFrames == U64(dropped)
      && timeoutCount == U32(timeouts)
      && xrunCount == U32(xruns)
      && Latency(avgLatencyUs, p95LatencyUs, maxLatencyUs) == Summary(latencies)
    }

    constructor ()
      ensures Valid() && processed == dropped == timeouts == xruns == 0 && latencies == []
    {
      processedFrames, droppedFrames, timeoutCount, xrunCount := 0, 0, 0, 0;
      avgLatencyUs, p95LatencyUs, maxLatencyUs := 0, 0, 0;
      processed, dropped, timeouts, xruns, latencies := 0, 0, 0, 0, [];
    }

    method Complete(frames: nat, latency: nat)
      requires Valid()
      modifies this
      ensures Valid() && processed == old(processed) + frames && latencies == old(latencies) + [latency]
      ensures dropped == old(dropped) && timeouts == old(timeouts) && xruns == old(xruns)
    {
      CounterFollows(processed, frames);
      SummarySnoc(latencies, latency);
      hide Summary, U32, U64;
      processedFrames := U64(processedFrames + frames);
      if avgLatencyUs == 0 {
        avgLatencyUs := latency;
      } else {
        avgLatencyUs := U32(avgLatencyUs * 9 + latency) / 10;
      }
      if latency > maxLatencyUs {
        maxLatencyUs := latency;
      }
      if latency > p95LatencyUs {
        p95LatencyUs := latency;
      }
      processed, latencies := processed + frames, latencies + [latency];
    }

    method Drop(frames: nat)
      requires Valid()
      modifies this
      ensures Valid() && dropped == old(dropped) + frames
      ensures processed == old(processed) && timeouts == old(timeouts) && xruns == old(xruns)
      ensures latencies == old(latencies)
    {
      CounterFollows(dropped, frames);
      hide U32, U64;
      droppedFrames, dropped := U64(droppedFrames + frames), dropped + frames;
    }

    method Timeout()
      requires Valid()
      modifies this
      ensures Valid() && timeouts == old(timeouts) + 1
      ensures processed == old(processed) && dropped == old(dropped) && xruns == old(xruns)
      ensures latencies == old(latencies)
    {
      CounterFollows(timeouts, 1);
      hide U32, U64;
      timeoutCount, timeouts := U32(timeoutCount + 1), timeouts + 1;
    }

    method Xrun()
      requires Valid()
      modifies this
      ensures Valid() && xruns == old(xruns) + 1
      ensures processed == old(processed) && dropped == old(dropped) && timeouts == old(timeouts)
      ensures latencies == old(latencies)
    {
      CounterFollows(xruns, 1);
      hide U32, U64;
      xrunCount, xruns := U32(xrunCount + 1), xruns + 1;
    }
  }
}
