/**
 * The timeline allocator of `AudioAfade::Process`: every decoded frame is
 * stamped with the running counter `pts_counter_`, which then advances by the
 * frame's sample count. The decoder's own timestamps are discarded.
 *
 * `Stamps` is the allocator run over a sequence of sample counts. It is tied
 * to its closed form (each stamp is the start plus the prefix sum before it)
 * and to the composition law that lets consecutive `Process` calls be read as one
 * run.
 */
module Timeline {

  /** Total number of samples in `counts`. */
  function Sum(counts: seq<int>): int {
    if |counts| == 0 then 0 else counts[0] + Sum(counts[1..])
  }

  /** One allocation: the stamp handed out is the counter before the frame; the counter then moves on. */
  function Next(counter: int, samples: int): (r: (int, int))
    ensures r.0 == counter
    ensures r.1 - r.0 == samples
  {
    (counter, counter + samples)
  }

  /** The stamps a counter starting at `start` hands out to frames of the given sample counts, in order. */
  function Stamps(start: int, counts: seq<int>): (r: seq<int>)
    ensures |r| == |counts|
    ensures |counts| > 0 ==> r[0] == start
    decreases |counts|
  {
    if |counts| == 0 then []
    else
      var (stamp, counter) := Next(start, counts[0]);
      [stamp] + Stamps(counter, counts[1..])
  }

  /** The counter after the allocator has stamped every frame. */
  function Advance(start: int, counts: seq<int>): (r: int)
    ensures r == start + Sum(counts)
    decreases |counts|
  {
    if |counts| == 0 then start else Advance(Next(start, counts[0]).1, counts[1..])
  }

  lemma {:induction false} SumAppend(a: seq<int>, b: seq<int>)
    ensures Sum(a + b) == Sum(a) + Sum(b)
    decreases |a|
  {
    if |a| == 0 {
      assert a + b == b;
    } else {
      assert (a + b)[1..] == a[1..] + b;
      SumAppend(a[1..], b);
    }
  }

  /** Stamp `i` is the start plus the samples of every earlier frame: stamps are prefix sums. */
  lemma {:induction false} StampIsPrefixSum(start: int, counts: seq<int>, i: nat)
    requires i < |counts|
    ensures Stamps(start, counts)[i] == start + Sum(counts[..i])
    decreases i
  {
    if i > 0 {
      StampIsPrefixSum(start + counts[0], counts[1..], i - 1);
      assert counts[..i] == [counts[0]] + counts[1..][..i - 1];
      SumAppend([counts[0]], counts[1..][..i - 1]);
    }
  }

  /** Consecutive stamps differ by exactly the earlier frame's sample count. */
  lemma StampStep(start: int, counts: seq<int>, i: nat)
    requires i + 1 < |counts|
    ensures Stamps(start, counts)[i + 1] == Stamps(start, counts)[i] + counts[i]
  {
    StampIsPrefixSum(start, counts, i);
    StampIsPrefixSum(start, counts, i + 1);
    assert counts[..i + 1] == counts[..i] + [counts[i]];
    SumAppend(counts[..i], [counts[i]]);
  }

  /** When every frame carries samples, the stamps strictly increase. */
  lemma StampsIncrease(start: int, counts: seq<int>, i: nat, j: nat)
    requires forall k :: 0 <= k < |counts| ==> counts[k] > 0
    requires i < j < |counts|
    ensures Stamps(start, counts)[i] < Stamps(start, counts)[j]
    decreases j - i
  {
    StampStep(start, counts, j - 1);
    if i < j - 1 {
      StampsIncrease(start, counts, i, j - 1);
    }
  }

  /**
   * Stamping two batches one after the other, the second starting where the
   * first left the counter, is the same as stamping them as one batch.
   */
  lemma {:induction false} StampsCompose(start: int, a: seq<int>, b: seq<int>)
    ensures Stamps(start, a + b) == Stamps(start, a) + Stamps(Advance(start, a), b)
    decreases |a|
  {
    if |a| == 0 {
      assert a + b == b;
    } else {
      assert (a + b)[1..] == a[1..] + b;
      StampsCompose(start + a[0], a[1..], b);
    }
  }
}
