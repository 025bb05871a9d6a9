/**
 * The position tracker of the continuous consume task: per-partition offset
 * maps are summed into one scalar each, the end is raised to the live
 * position when the consumer has run past it, and a completion percentage is
 * derived from the three sums.
 */
module Positions {

  /** A topic partition: the key of every offset map. */
  datatype TopicPartition = TopicPartition(topic: string, partition: int)

  /** Offsets per topic partition, as the consumer resource reports them. */
  type OffsetMap = map<TopicPartition, int>

  /** A progress snapshot handed to the sink with every batch. */
  datatype ConsumerPosition = ConsumerPosition(
    startValue: int,
    endValue: int,
    consumerPosition: int,
    percentage: int,
    totalRecords: int)

  /** Sum of m's values over the keys ks, taken in an unspecified order. */
  ghost function SumOver(m: OffsetMap, ks: set<TopicPartition>): int
    requires ks <= m.Keys
  {
    if ks == {} then 0
    else
      var k :| k in ks;
      m[k] + SumOver(m, ks - {k})
  }

  /** The sum does not depend on the order: any key may be taken first. */
  lemma {:induction false} SumOverPick(m: OffsetMap, ks: set<TopicPartition>, k: TopicPartition)
    requires ks <= m.Keys && k in ks
    ensures SumOver(m, ks) == m[k] + SumOver(m, ks - {k})
    decreases |ks|
  {
    var j :| j in ks && SumOver(m, ks) == m[j] + SumOver(m, ks - {j});
    if j != k {
      SumOverPick(m, ks - {j}, k);
      SumOverPick(m, ks - {k}, j);
      assert ks - {j} - {k} == ks - {k} - {j};
    }
  }

  /** The sum of all the values of an offset map; 0 for the empty map. */
  ghost function TotalOffset(m: OffsetMap): int
  {
    SumOver(m, m.Keys)
  }

  /** Empty map sums to 0, a single entry to its value. */
  lemma TotalOffsetSmall(k: TopicPartition, v: int)
    ensures TotalOffset(map[]) == 0
    ensures TotalOffset(map[k := v]) == v
  {
    var m := map[k := v];
    SumOverPick(m, m.Keys, k);
    assert m.Keys - {k} == {};
  }

  /** Removing one entry takes exactly its value off the total. */
  lemma TotalOffsetRemove(m: OffsetMap, k: TopicPartition)
    requires k in m
    ensures TotalOffset(m) == m[k] + TotalOffset(m - {k})
  {
    SumOverPick(m, m.Keys, k);
    SumOverSameValues(m, m - {k}, m.Keys - {k});
    assert (m - {k}).Keys == m.Keys - {k};
  }

  /** Two maps that agree on ks have the same sum over ks. */
  lemma {:induction false} SumOverSameValues(a: OffsetMap, b: OffsetMap, ks: set<TopicPartition>)
    requires ks <= a.Keys && ks <= b.Keys
    requires forall k :: k in ks ==> a[k] == b[k]
    ensures SumOver(a, ks) == SumOver(b, ks)
    decreases |ks|
  {
    if ks != {} {
      var k :| k in ks;
      SumOverPick(a, ks, k);
      SumOverPick(b, ks, k);
      SumOverSameValues(a, b, ks - {k});
    }
  }

  /** Pointwise smaller offsets give a smaller sum over the same keys. */
  lemma {:induction false} SumOverMonotone(a: OffsetMap, b: OffsetMap, ks: set<TopicPartition>)
    requires ks <= a.Keys && ks <= b.Keys
    requires forall k :: k in ks ==> a[k] <= b[k]
    ensures SumOver(a, ks) <= SumOver(b, ks)
    decreases |ks|
  {
    if ks != {} {
      var k :| k in ks;
      SumOverPick(a, ks, k);
      SumOverPick(b, ks, k);
      SumOverMonotone(a, b, ks - {k});
    }
  }

  /**
   * If every partition's offset in a is at most its offset in b (same
   * partitions), then a's total is at most b's.
   */
  lemma TotalOffsetMonotone(a: OffsetMap, b: OffsetMap)
    requires a.Keys == b.Keys
    requires forall k :: k in a ==> a[k] <= b[k]
    ensures TotalOffset(a) <= TotalOffset(b)
  {
    SumOverMonotone(a, b, a.Keys);
  }

  /** Offsets are never negative, so neither is their total. */
  lemma TotalOffsetNonNegative(m: OffsetMap)
    requires forall k :: k in m ==> m[k] >= 0
    ensures TotalOffset(m) >= 0
  {
    SumOverMonotone(map k | k in m :: 0, m, m.Keys);
    ZeroSum(map k | k in m :: 0, m.Keys);
  }

  lemma {:induction false} ZeroSum(m: OffsetMap, ks: set<TopicPartition>)
    requires ks <= m.Keys
    requires forall k :: k in ks ==> m[k] == 0
    ensures SumOver(m, ks) == 0
    decreases |ks|
  {
    if ks != {} {
      var k :| k in ks;
      SumOverPick(m, ks, k);
      ZeroSum(m, ks - {k});
    }
  }

  /** Java's (int) cast of a quotient: division truncating toward zero. */
  function TruncDiv(a: int, b: int): (q: int)
    requires b > 0
    ensures a >= 0 ==> 0 <= q && q * b <= a < q * b + b
    ensures a < 0 ==> q <= 0 && q * b - b < a <= q * b
  {
    if a >= 0 then
      DivBounds(a, b, a / b);
      a / b
    else
      DivBounds(-a, b, (-a) / b);
      NegMul((-a) / b, b);
      -((-a) / b)
  }

  /** Euclidean division of a natural number: the quotient times b is within b of it. */
  lemma DivBounds(n: int, b: int, d: int)
    requires n >= 0 && b > 0 && d == n / b
    ensures 0 <= d && d * b <= n < d * b + b
  {
  }

  lemma NegMul(d: int, b: int)
    ensures (-d) * b == -(d * b)
  {
  }

  /** Cancelling a positive factor from a strict inequality. */
  lemma MulCancelLt(x: int, y: int, b: int)
    requires b > 0 && x * b < y * b
    ensures x < y
  {
  }

  /**
   * The percentage of the way from start to end that position has reached,
   * with the divisor guarded as max(end - start, 1).
   */
  function Percentage(start: int, end: int, position: int): int
  {
    TruncDiv(100 * (position - start), if end - start > 1 then end - start else 1)
  }

  /** Between start and end the percentage lies in [0, 100]. */
  lemma PercentageBounds(start: int, end: int, position: int)
    requires start <= position <= end
    ensures 0 <= Percentage(start, end, position) <= 100
    ensures position == start ==> Percentage(start, end, position) == 0
    ensures start < position == end ==> Percentage(start, end, position) == 100
  {
    var d := if end - start > 1 then end - start else 1;
    var a := 100 * (position - start);
    var q := TruncDiv(a, d);
    assert a <= 100 * d;
    MulCancelLt(q, 101, d);
    if position == start {
      MulCancelLt(q, 1, d);
    }
    if start < position == end {
      assert a == 100 * d;
      MulCancelLt(99, q, d);
    }
  }

  /**
   * For a fixed start and end, the percentage never decreases as the
   * position advances.
   */
  lemma PercentageMonotone(start: int, end: int, p: int, p': int)
    requires start <= p <= p'
    ensures Percentage(start, end, p) <= Percentage(start, end, p')
  {
    var d := if end - start > 1 then end - start else 1;
    var a, a' := 100 * (p - start), 100 * (p' - start);
    var q, q' := TruncDiv(a, d), TruncDiv(a', d);
    MulSucc(q', d);
    MulCancelLt(q, q' + 1, d);
  }

  lemma MulSucc(x: int, b: int)
    ensures (x + 1) * b == x * b + b
  {
  }

  /**
   * The snapshot built on every flush: the three sums, the end raised to the
   * position when the consumer has moved past it, the percentage and the
   * running record count.
   */
  ghost function Track(startOffsets: OffsetMap, endOffsets: OffsetMap, currentOffsets: OffsetMap,
                       totalRecords: int): (p: ConsumerPosition)
    ensures p.startValue == TotalOffset(startOffsets)
    ensures p.consumerPosition == TotalOffset(currentOffsets)
    ensures p.totalRecords == totalRecords
    ensures p.endValue >= p.consumerPosition && p.endValue >= TotalOffset(endOffsets)
    ensures p.endValue == TotalOffset(endOffsets) || p.endValue == p.consumerPosition
    ensures p.startValue <= p.consumerPosition ==> 0 <= p.percentage <= 100
    ensures p.consumerPosition == p.startValue ==> p.percentage == 0
    ensures p.startValue < p.consumerPosition && TotalOffset(endOffsets) <= p.consumerPosition
            ==> p.percentage == 100
  {
    var start := TotalOffset(startOffsets);
    var end := TotalOffset(endOffsets);
    var position := TotalOffset(currentOffsets);
    var end' := if end < position then position else end;
    if start <= position then
      PercentageBounds(start, end', position);
      ConsumerPosition(start, end', position, Percentage(start, end', position), totalRecords)
    else
      ConsumerPosition(start, end', position, Percentage(start, end', position), totalRecords)
  }

  /**
   * The snapshot depends on the record count only through its own
   * totalRecords field: taken once and restamped with a count, it is the
   * snapshot at that count.
   */
  lemma StampedTrack(startOffsets: OffsetMap, endOffsets: OffsetMap, currentOffsets: OffsetMap,
                     before: int, totalRecords: int)
    ensures Track(startOffsets, endOffsets, currentOffsets, before).(totalRecords := totalRecords)
            == Track(startOffsets, endOffsets, currentOffsets, totalRecords)
  {
  }

  /**
   * When every partition's live position is at or past its start position,
   * the reported percentage lies in [0, 100].
   */
  lemma TrackInRange(startOffsets: OffsetMap, endOffsets: OffsetMap, currentOffsets: OffsetMap,
                     totalRecords: int)
    requires startOffsets.Keys == currentOffsets.Keys
    requires forall k :: k in startOffsets ==> startOffsets[k] <= currentOffsets[k]
    ensures 0 <= Track(startOffsets, endOffsets, currentOffsets, totalRecords).percentage <= 100
  {
    TotalOffsetMonotone(startOffsets, currentOffsets);
  }
}
