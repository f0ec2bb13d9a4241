/** How long a pull waits for a swarm that sends nothing. */
module SwarmWait {

  datatype Verdict = Finished | GaveUp

  /** Ticks follow one another by at most period, from time 0. */
  ghost predicate Ticking(tickAt: nat -> int, period: nat) {
    tickAt(0) == 0 && forall i: nat, j: nat :: j == i + 1 ==> tickAt(i) < tickAt(j) <= tickAt(i) + period
  }

  /** The byte count starts at or above 0, never decreases and never exceeds total. */
  ghost predicate Growing(completed: nat -> int, total: nat) {
    && (forall i: nat :: 0 <= completed(i) <= total)
    && (forall i: nat, j: nat :: i <= j ==> completed(i) <= completed(j))
  }

  lemma OneStretch(a: nat, b: nat, g: nat)
    requires a < b
    ensures a * g + g <= b * g
  {
    assert (b - a - 1) * g >= 0;
    assert b * g == a * g + g + (b - a - 1) * g;
  }

  /** The end of the download is seen at the k-th tick: it has ended, and when
      the tick is ready as well (there is none at the start) it is preferred. */
  predicate Seen(done: nat -> bool, preferred: nat -> bool, k: nat) {
    done(k) && (k == 0 || preferred(k))
  }

  /** The waiting loop: at each tick the completed byte count is sampled; a
      change restarts the clock, and more than grace without one gives up.
      tickAt(k) is the time of the k-th tick, completed(k) the count sampled
      there, done(k) whether the download has ended by then, preferred(k)
      which of the two is taken when both are ready. With a count that
      never decreases and never exceeds total, and ticks at most period apart,
      the loop ends in bounded time, and gives up only after the count stood
      still for longer than grace. */
  method Wait(tickAt: nat -> int, completed: nat -> int, done: nat -> bool, preferred: nat -> bool,
              grace: nat, period: nat, total: nat)
    returns (verdict: Verdict, k: nat, since: nat)
    requires Ticking(tickAt, period) && Growing(completed, total)
    ensures tickAt(k) <= (total + 1) * (grace + period)
    ensures verdict == Finished <==> Seen(done, preferred, k)
    ensures forall i :: 0 <= i < k ==> !Seen(done, preferred, i)
    ensures verdict == GaveUp ==>
      && since < k && tickAt(k) - tickAt(since) > grace
      && (forall i :: since < i <= k ==> completed(i) == completed(k))
      && (since == 0 ==> completed(k) == 0)
      && (since > 0 ==> completed(since) == completed(k))
  {
    var lastBytes, started := 0, 0;
    k, since := 0, 0;
    while !Seen(done, preferred, k)
      invariant started == tickAt(since) && since <= k
      invariant 0 <= lastBytes <= total
      invariant tickAt(k) - started <= grace
      invariant started <= lastBytes * (grace + period)
      invariant forall i :: since < i <= k ==> completed(i) == lastBytes
      invariant since == 0 ==> lastBytes == 0
      invariant since > 0 ==> completed(since) == lastBytes
      invariant forall i :: 0 <= i < k ==> !Seen(done, preferred, i)
      decreases total - lastBytes, grace - (tickAt(k) - started)
    {
      assert tickAt(k + 1) <= tickAt(k) + period;
      k := k + 1;
      if Seen(done, preferred, k) {
        break;
      }
      var cur := completed(k);
      if cur != lastBytes {
        assert completed(since) <= cur;
        OneStretch(lastBytes, cur, grace + period);
        lastBytes, since := cur, k;
        started := tickAt(k);
      }
      if tickAt(k) - started > grace {
        OneStretch(lastBytes, total + 1, grace + period);
        return GaveUp, k, since;
      }
    }
    OneStretch(lastBytes, total + 1, grace + period);
    return Finished, k, since;
  }
}
