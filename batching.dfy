/**
 * The batcher of the continuous consume task, as a specification: which
 * batches, with which pending commits and record counts, one fetch produces
 * when its records are filtered one by one, a batch is flushed as soon as it
 * holds BATCH_SIZE messages, and whatever remains is flushed when the fetch
 * is exhausted.
 */
module Batching {
  import opened Positions

  /** Messages per batch before a flush is forced. */
  const BATCH_SIZE: nat := 50

  /**
   * A fetched record. Timestamp and headers are only copied into the
   * consumed message, so they are left out.
   */
  datatype Record = Record(topic: string, partition: int, offset: int, key: string, value: string)

  function PartitionOf(r: Record): TopicPartition
  {
    TopicPartition(r.topic, r.partition)
  }

  /** The records that pass the filter, in fetch order. */
  function Filter(records: seq<Record>, pass: Record -> bool): seq<Record>
  {
    if records == [] then []
    else (if pass(records[0]) then [records[0]] else []) + Filter(records[1..], pass)
  }

  /**
   * Filtering keeps only passing records, never more than it was given; it
   * keeps everything when every record passes and nothing when none does.
   */
  lemma {:induction false} FilterProperties(records: seq<Record>, pass: Record -> bool)
    ensures var kept := Filter(records, pass);
            |kept| <= |records| &&
            (forall i :: 0 <= i < |kept| ==> pass(kept[i])) &&
            ((forall i :: 0 <= i < |records| ==> pass(records[i])) ==> kept == records) &&
            ((forall i :: 0 <= i < |records| ==> !pass(records[i])) ==> kept == [])
    decreases |records|
  {
    if records != [] {
      FilterProperties(records[1..], pass);
      var x := if pass(records[0]) then [records[0]] else [];
      var rest := Filter(records[1..], pass);
      assert Filter(records, pass) == x + rest;
      forall i | 0 <= i < |x + rest| ensures pass((x + rest)[i]) {
        if i >= |x| {
          assert (x + rest)[i] == rest[i - |x|];
        }
      }
      if forall i :: 0 <= i < |records| ==> pass(records[i]) {
        assert forall i :: 0 <= i < |records[1..]| ==> pass(records[1..][i]);
        assert records == [records[0]] + records[1..];
      }
      if forall i :: 0 <= i < |records| ==> !pass(records[i]) {
        assert forall i :: 0 <= i < |records[1..]| ==> !pass(records[1..][i]);
      }
    }
  }

  /** Index j holds the last message of partition p in msgs. */
  ghost predicate IsLastOf(msgs: seq<Record>, j: int, p: TopicPartition)
  {
    0 <= j < |msgs| && PartitionOf(msgs[j]) == p &&
    forall j' :: j < j' < |msgs| ==> PartitionOf(msgs[j']) != p
  }

  /**
   * The pending commits of a batch: exactly the partitions of its messages,
   * each mapped to the offset of that partition's last message.
   */
  ghost predicate CommitsLastOffsets(msgs: seq<Record>, commits: OffsetMap)
  {
    (forall j :: 0 <= j < |msgs| ==> PartitionOf(msgs[j]) in commits) &&
    (forall p :: p in commits ==> exists j :: IsLastOf(msgs, j, p) && msgs[j].offset == commits[p])
  }

  /** Appending a message and overwriting its partition's entry keeps the commits exact. */
  lemma CommitsLastOffsetsAppend(msgs: seq<Record>, commits: OffsetMap, r: Record)
    requires CommitsLastOffsets(msgs, commits)
    ensures CommitsLastOffsets(msgs + [r], commits[PartitionOf(r) := r.offset])
  {
    var msgs', commits' := msgs + [r], commits[PartitionOf(r) := r.offset];
    forall p | p in commits'
      ensures exists j :: IsLastOf(msgs', j, p) && msgs'[j].offset == commits'[p]
    {
      if p == PartitionOf(r) {
        assert IsLastOf(msgs', |msgs|, p);
      } else {
        var j :| IsLastOf(msgs, j, p) && msgs[j].offset == commits[p];
        assert IsLastOf(msgs', j, p);
      }
    }
  }

  /**
   * The pending commits a batch leaves behind, built as the loop builds
   * them: each passing record overwrites its partition's entry with its own
   * offset.
   */
  function LastOffsets(msgs: seq<Record>): OffsetMap
  {
    if msgs == [] then map[]
    else LastOffsets(msgs[..|msgs| - 1])[PartitionOf(msgs[|msgs| - 1]) := msgs[|msgs| - 1].offset]
  }

  lemma LastOffsetsAppend(msgs: seq<Record>, r: Record)
    ensures LastOffsets(msgs + [r]) == LastOffsets(msgs)[PartitionOf(r) := r.offset]
  {
    assert (msgs + [r])[..|msgs|] == msgs;
  }

  /**
   * The overwriting map holds exactly the partitions of the batch, each
   * with the offset of that partition's last message.
   */
  lemma {:induction false} LastOffsetsAreLast(msgs: seq<Record>)
    ensures CommitsLastOffsets(msgs, LastOffsets(msgs))
    decreases |msgs|
  {
    if msgs != [] {
      var init, r := msgs[..|msgs| - 1], msgs[|msgs| - 1];
      LastOffsetsAreLast(init);
      CommitsLastOffsetsAppend(init, LastOffsets(init), r);
      assert init + [r] == msgs;
    } else {
      assert LastOffsets(msgs) == map[];
    }
  }

  /** One flush: the batch forwarded, the commits issued and the record count at that moment. */
  datatype Flush = Flush(messages: seq<Record>, commits: OffsetMap, totalRecords: int)

  /**
   * The flushes of a fetch, from a batcher holding buf and pending, after
   * total records have been seen: each record is counted, a passing record
   * is appended and overwrites its partition's pending offset, and a full
   * batch is flushed at once; the exhausted fetch flushes what is left.
   */
  function Flushes(records: seq<Record>, pass: Record -> bool, buf: seq<Record>,
                   pending: OffsetMap, total: int): (fs: seq<Flush>)
    ensures |fs| >= 1
    decreases |records|
  {
    if records == [] then [Flush(buf, pending, total)]
    else
      var r := records[0];
      var buf' := if pass(r) then buf + [r] else buf;
      var pending' := if pass(r) then pending[PartitionOf(r) := r.offset] else pending;
      if |buf'| >= BATCH_SIZE then
        [Flush(buf', pending', total + 1)] + Flushes(records[1..], pass, [], map[], total + 1)
      else
        Flushes(records[1..], pass, buf', pending', total + 1)
  }

  /**
   * The batcher part-way through a fetch: the batch being built, its
   * pending commits, the record count and the flushes done so far.
   */
  datatype Batcher = Batcher(buf: seq<Record>, pending: OffsetMap, total: int, flushed: seq<Flush>)

  /**
   * A record counted and, when it passes the filter, appended to the batch
   * with its partition's pending offset overwritten by its own.
   */
  function Admit(b: Batcher, r: Record, pass: Record -> bool): Batcher
  {
    if pass(r) then Batcher(b.buf + [r], b.pending[PartitionOf(r) := r.offset], b.total + 1, b.flushed)
    else Batcher(b.buf, b.pending, b.total + 1, b.flushed)
  }

  /** A batch of BATCH_SIZE or more is flushed and the batcher emptied; otherwise nothing happens. */
  function FlushFull(b: Batcher): Batcher
  {
    if |b.buf| >= BATCH_SIZE then Batcher([], map[], b.total, b.flushed + [Flush(b.buf, b.pending, b.total)])
    else b
  }

  /** One record through the batcher, as the record loop handles it. */
  function Feed(b: Batcher, r: Record, pass: Record -> bool): Batcher
  {
    FlushFull(Admit(b, r, pass))
  }

  /** The batcher after feeding it the records one at a time, in order. */
  function FeedAll(b: Batcher, records: seq<Record>, pass: Record -> bool): (b': Batcher)
    ensures b'.total == b.total + |records|
    decreases |records|
  {
    if records == [] then b
    else Feed(FeedAll(b, records[..|records| - 1], pass), records[|records| - 1], pass)
  }

  /** The flushes of a batcher once the fetch is exhausted: those done and the final one. */
  function Drained(b: Batcher): seq<Flush>
  {
    b.flushed + [Flush(b.buf, b.pending, b.total)]
  }

  /** Feeding one more record of a fetch. */
  lemma FeedAllSnoc(b: Batcher, records: seq<Record>, i: nat, pass: Record -> bool)
    requires i < |records|
    ensures FeedAll(b, records[..i + 1], pass) == Feed(FeedAll(b, records[..i], pass), records[i], pass)
  {
    assert records[..i + 1][..i] == records[..i];
  }

  /** Feeding a first record, then the rest. */
  lemma {:induction false} FeedAllFirst(b: Batcher, r: Record, rest: seq<Record>, pass: Record -> bool)
    ensures FeedAll(b, [r] + rest, pass) == FeedAll(Feed(b, r, pass), rest, pass)
    decreases |rest|
  {
    if rest == [] {
      assert [r] + rest == [r];
      assert [r][..0] == [];
    } else {
      var init, last := rest[..|rest| - 1], rest[|rest| - 1];
      FeedAllFirst(b, r, init, pass);
      assert ([r] + rest)[..|rest|] == [r] + init;
      assert ([r] + rest)[|rest|] == last;
    }
  }

  /**
   * The record-at-a-time batcher and the flush specification agree: the
   * flushes a batcher ends with are the ones it had, followed by the
   * flushes of the fetch from its batch, commits and count.
   */
  lemma {:induction false} FeedAllFlushes(b: Batcher, records: seq<Record>, pass: Record -> bool)
    ensures Drained(FeedAll(b, records, pass)) == b.flushed + Flushes(records, pass, b.buf, b.pending, b.total)
    decreases |records|
  {
    if records != [] {
      var r, rest := records[0], records[1..];
      var b' := Feed(b, r, pass);
      assert records == [r] + rest;
      FeedAllFirst(b, r, rest, pass);
      FeedAllFlushes(b', rest, pass);
      var buf' := if pass(r) then b.buf + [r] else b.buf;
      if |buf'| >= BATCH_SIZE {
        var pending' := if pass(r) then b.pending[PartitionOf(r) := r.offset] else b.pending;
        var tail := Flushes(rest, pass, [], map[], b.total + 1);
        assert Flushes(records, pass, b.buf, b.pending, b.total) == [Flush(buf', pending', b.total + 1)] + tail;
        assert b'.flushed == b.flushed + [Flush(buf', pending', b.total + 1)];
        assert (b.flushed + [Flush(buf', pending', b.total + 1)]) + tail
               == b.flushed + ([Flush(buf', pending', b.total + 1)] + tail);
      }
    } else {
      assert FeedAll(b, records, pass) == b;
    }
  }

  /** From an empty batcher, the fed and drained fetch gives exactly its specified flushes. */
  lemma FeedFetch(records: seq<Record>, pass: Record -> bool, total: int)
    ensures Drained(FeedAll(Batcher([], map[], total, []), records, pass)) == Flushes(records, pass, [], map[], total)
  {
    FeedAllFlushes(Batcher([], map[], total, []), records, pass);
    assert [] + Flushes(records, pass, [], map[], total) == Flushes(records, pass, [], map[], total);
  }

  /** Flushes once done stay done: feeding further records only adds flushes after them. */
  lemma {:induction false} FeedAllFlushedGrows(b: Batcher, records: seq<Record>, k: nat, pass: Record -> bool)
    requires k <= |records|
    ensures FeedAll(b, records[..k], pass).flushed <= FeedAll(b, records, pass).flushed
    decreases |records|
  {
    if k < |records| {
      var init := records[..|records| - 1];
      FeedAllFlushedGrows(b, init, k, pass);
      assert init[..k] == records[..k];
    } else {
      assert records[..k] == records;
    }
  }

  /**
   * A fetch cut short, with no final flush: the batches flushed so far and
   * the batch still being built are, joined, exactly the passing records,
   * and that batch holds fewer than BATCH_SIZE messages.
   */
  lemma Undrained(records: seq<Record>, pass: Record -> bool, total: int)
    ensures var b := FeedAll(Batcher([], map[], total, []), records, pass);
            JoinedMessages(b.flushed) + b.buf == Filter(records, pass) && |b.buf| < BATCH_SIZE
  {
    var b := FeedAll(Batcher([], map[], total, []), records, pass);
    FeedFetch(records, pass, total);
    FlushedMessages(records, pass, [], map[], total);
    FlushSizes(records, pass, [], map[], total);
    JoinedSnoc(b.flushed, Flush(b.buf, b.pending, b.total));
    assert [] + Filter(records, pass) == Filter(records, pass);
  }

  /** All the messages of a sequence of flushes, in order. */
  function JoinedMessages(fs: seq<Flush>): seq<Record>
  {
    if fs == [] then [] else fs[0].messages + JoinedMessages(fs[1..])
  }

  lemma {:induction false} JoinedSnoc(fs: seq<Flush>, f: Flush)
    ensures JoinedMessages(fs + [f]) == JoinedMessages(fs) + f.messages
    decreases |fs|
  {
    if fs == [] {
      assert [] + [f] == [f];
      assert JoinedMessages([f]) == f.messages + JoinedMessages([]);
    } else {
      JoinedSnoc(fs[1..], f);
      assert (fs + [f])[1..] == fs[1..] + [f];
    }
  }

  /**
   * Every flush but the last forwards exactly BATCH_SIZE messages; the last
   * one, at fetch exhaustion, forwards fewer (possibly none).
   */
  lemma {:induction false} FlushSizes(records: seq<Record>, pass: Record -> bool, buf: seq<Record>,
                                      pending: OffsetMap, total: int)
    requires |buf| < BATCH_SIZE
    ensures var fs := Flushes(records, pass, buf, pending, total);
            (forall j :: 0 <= j < |fs| - 1 ==> |fs[j].messages| == BATCH_SIZE) &&
            |fs[|fs| - 1].messages| < BATCH_SIZE
    decreases |records|
  {
    if records != [] {
      var r := records[0];
      var buf' := if pass(r) then buf + [r] else buf;
      var pending' := if pass(r) then pending[PartitionOf(r) := r.offset] else pending;
      if |buf'| >= BATCH_SIZE {
        FlushSizes(records[1..], pass, [], map[], total + 1);
      } else {
        FlushSizes(records[1..], pass, buf', pending', total + 1);
      }
    }
  }

  lemma JoinedCons(f: Flush, fs: seq<Flush>)
    ensures JoinedMessages([f] + fs) == f.messages + JoinedMessages(fs)
  {
    assert ([f] + fs)[1..] == fs;
  }

  /**
   * Nothing is lost, duplicated or reordered: the flushed batches, joined,
   * are the buffered messages followed by the fetch's passing records.
   */
  lemma {:induction false} FlushedMessages(records: seq<Record>, pass: Record -> bool, buf: seq<Record>,
                                           pending: OffsetMap, total: int)
    ensures JoinedMessages(Flushes(records, pass, buf, pending, total)) == buf + Filter(records, pass)
    decreases |records|
  {
    var fs := Flushes(records, pass, buf, pending, total);
    if records == [] {
      assert JoinedMessages(fs) == buf + JoinedMessages([]);
    } else {
      var r := records[0];
      var x := if pass(r) then [r] else [];
      var buf' := if pass(r) then buf + [r] else buf;
      var pending' := if pass(r) then pending[PartitionOf(r) := r.offset] else pending;
      assert buf' == buf + x;
      var rest := Filter(records[1..], pass);
      assert Filter(records, pass) == x + rest;
      if |buf'| >= BATCH_SIZE {
        var tail := Flushes(records[1..], pass, [], map[], total + 1);
        assert fs == [Flush(buf', pending', total + 1)] + tail;
        FlushedMessages(records[1..], pass, [], map[], total + 1);
        JoinedCons(Flush(buf', pending', total + 1), tail);
        assert JoinedMessages(fs) == buf' + ([] + rest);
      } else {
        assert fs == Flushes(records[1..], pass, buf', pending', total + 1);
        FlushedMessages(records[1..], pass, buf', pending', total + 1);
      }
    }
  }

  /** The total length of flushes that are all full except the last. */
  lemma {:induction false} JoinedLength(fs: seq<Flush>)
    requires |fs| >= 1
    requires forall j :: 0 <= j < |fs| - 1 ==> |fs[j].messages| == BATCH_SIZE
    ensures |JoinedMessages(fs)| == BATCH_SIZE * (|fs| - 1) + |fs[|fs| - 1].messages|
    decreases |fs|
  {
    if |fs| > 1 {
      JoinedLength(fs[1..]);
    } else {
      assert JoinedMessages(fs) == fs[0].messages + JoinedMessages([]);
    }
  }

  /**
   * How many flushes a fetch produces and how large the last one is: with n
   * messages to forward (the buffered ones and the passing records), there
   * are n / BATCH_SIZE full batches followed by one batch of n % BATCH_SIZE.
   */
  lemma FlushCount(records: seq<Record>, pass: Record -> bool, buf: seq<Record>,
                   pending: OffsetMap, total: int)
    requires |buf| < BATCH_SIZE
    ensures var fs := Flushes(records, pass, buf, pending, total);
            var n := |buf| + |Filter(records, pass)|;
            |fs| == n / BATCH_SIZE + 1 && |fs[|fs| - 1].messages| == n % BATCH_SIZE
  {
    var fs := Flushes(records, pass, buf, pending, total);
    FlushSizes(records, pass, buf, pending, total);
    FlushedMessages(records, pass, buf, pending, total);
    JoinedLength(fs);
  }

  /**
   * When every record of a fetch passes the filter, a fetch of n records is
   * forwarded as n / BATCH_SIZE full batches and one batch of the remaining
   * n % BATCH_SIZE (120 records: 50, 50 and 20).
   */
  lemma AllPass(records: seq<Record>, pass: Record -> bool, total: int)
    requires forall i :: 0 <= i < |records| ==> pass(records[i])
    ensures var fs := Flushes(records, pass, [], map[], total);
            |fs| == |records| / BATCH_SIZE + 1 &&
            (forall j :: 0 <= j < |fs| - 1 ==> |fs[j].messages| == BATCH_SIZE) &&
            |fs[|fs| - 1].messages| == |records| % BATCH_SIZE &&
            JoinedMessages(fs) == records
  {
    FilterProperties(records, pass);
    FlushCount(records, pass, [], map[], total);
    FlushSizes(records, pass, [], map[], total);
    FlushedMessages(records, pass, [], map[], total);
  }

  /**
   * When the filter rejects every record, the fetch still ends in exactly
   * one flush, of the batcher's previous content, with every record counted.
   */
  lemma {:induction false} NonePass(records: seq<Record>, pass: Record -> bool, buf: seq<Record>,
                                    pending: OffsetMap, total: int)
    requires |buf| < BATCH_SIZE
    requires forall i :: 0 <= i < |records| ==> !pass(records[i])
    ensures Flushes(records, pass, buf, pending, total) == [Flush(buf, pending, total + |records|)]
    decreases |records|
  {
    if records != [] {
      assert !pass(records[0]);
      assert forall i :: 0 <= i < |records[1..]| ==> !pass(records[1..][i]);
      NonePass(records[1..], pass, buf, pending, total + 1);
    }
  }

  /** Every flush carries the exact pending commits of its own batch. */
  ghost predicate ExactCommits(fs: seq<Flush>)
  {
    forall j :: 0 <= j < |fs| ==> fs[j].commits == LastOffsets(fs[j].messages)
  }

  /**
   * Every flush of a fetch carries the exact pending commits of its own
   * batch: built by overwriting, so each partition of its messages maps to
   * the offset of its last message there (LastOffsetsAreLast).
   */
  lemma {:induction false} FlushCommits(records: seq<Record>, pass: Record -> bool, buf: seq<Record>,
                                        pending: OffsetMap, total: int)
    requires pending == LastOffsets(buf)
    ensures ExactCommits(Flushes(records, pass, buf, pending, total))
    decreases |records|
  {
    if records != [] {
      var r := records[0];
      var buf' := if pass(r) then buf + [r] else buf;
      var pending' := if pass(r) then pending[PartitionOf(r) := r.offset] else pending;
      if pass(r) {
        LastOffsetsAppend(buf, r);
      }
      if |buf'| >= BATCH_SIZE {
        FlushCommits(records[1..], pass, [], map[], total + 1);
        ExactCommitsCons(Flush(buf', pending', total + 1), Flushes(records[1..], pass, [], map[], total + 1));
      } else {
        FlushCommits(records[1..], pass, buf', pending', total + 1);
      }
    }
  }

  lemma ExactCommitsCons(f: Flush, fs: seq<Flush>)
    requires f.commits == LastOffsets(f.messages) && ExactCommits(fs)
    ensures ExactCommits([f] + fs)
  {
    forall j | 0 <= j < |[f] + fs| ensures ([f] + fs)[j].commits == LastOffsets(([f] + fs)[j].messages) {
      if j > 0 {
        assert ([f] + fs)[j] == fs[j - 1];
      }
    }
  }

  /**
   * The record count of each flush: never below the count before the fetch,
   * never decreasing from one flush to the next, and at the last flush the
   * count before the fetch plus every record of it, passing or not.
   */
  lemma {:induction false} FlushTotals(records: seq<Record>, pass: Record -> bool, buf: seq<Record>,
                                       pending: OffsetMap, total: int)
    ensures var fs := Flushes(records, pass, buf, pending, total);
            (forall j :: 0 <= j < |fs| ==> total <= fs[j].totalRecords <= total + |records|) &&
            (forall j :: 0 < j < |fs| ==> fs[j - 1].totalRecords <= fs[j].totalRecords) &&
            fs[|fs| - 1].totalRecords == total + |records|
    decreases |records|
  {
    if records != [] {
      var r := records[0];
      var buf' := if pass(r) then buf + [r] else buf;
      var pending' := if pass(r) then pending[PartitionOf(r) := r.offset] else pending;
      if |buf'| >= BATCH_SIZE {
        FlushTotals(records[1..], pass, [], map[], total + 1);
      } else {
        FlushTotals(records[1..], pass, buf', pending', total + 1);
      }
    }
  }

  /** Within each partition, the records of a fetch come in increasing offset order. */
  ghost predicate OffsetsIncreasing(records: seq<Record>)
  {
    forall i, j :: 0 <= i < j < |records| && PartitionOf(records[i]) == PartitionOf(records[j])
                   ==> records[i].offset < records[j].offset
  }

  /** Every offset in bound lies below the offsets of its partition's records still to come. */
  ghost predicate Below(bound: OffsetMap, records: seq<Record>)
  {
    forall p, j :: p in bound && 0 <= j < |records| && PartitionOf(records[j]) == p
                   ==> bound[p] < records[j].offset
  }

  /** Across the flushes of a fetch, a partition's committed offset strictly increases. */
  ghost predicate CommitsIncreasing(fs: seq<Flush>)
  {
    forall a, b, p :: 0 <= a < b < |fs| && p in fs[a].commits && p in fs[b].commits
                      ==> fs[a].commits[p] < fs[b].commits[p]
  }

  /** Every offset committed by the flushes lies above the bound for its partition. */
  ghost predicate CommitsAbove(fs: seq<Flush>, bound: OffsetMap)
  {
    forall j, p :: 0 <= j < |fs| && p in fs[j].commits && p in bound ==> bound[p] < fs[j].commits[p]
  }

  /** Consuming the first record keeps the bound below the remaining records. */
  lemma BelowStep(records: seq<Record>, pass: Record -> bool, bound: OffsetMap)
    requires records != [] && OffsetsIncreasing(records) && Below(bound, records)
    ensures OffsetsIncreasing(records[1..])
    ensures Below(bound, records[1..])
    ensures var r := records[0];
            Below(if pass(r) then bound[PartitionOf(r) := r.offset] else bound, records[1..])
  {
    var r := records[0];
    var bound' := if pass(r) then bound[PartitionOf(r) := r.offset] else bound;
    forall p, j | p in bound' && 0 <= j < |records[1..]| && PartitionOf(records[1..][j]) == p
      ensures bound'[p] < records[1..][j].offset
    {
      assert records[1..][j] == records[j + 1];
    }
    forall p, j | p in bound && 0 <= j < |records[1..]| && PartitionOf(records[1..][j]) == p
      ensures bound[p] < records[1..][j].offset
    {
      assert records[1..][j] == records[j + 1];
    }
  }

  /**
   * Offsets committed by the flushes of a fetch lie above any bound that the
   * batcher's pending offsets and the fetch's records all lie above.
   */
  lemma {:induction false} FlushCommitsAbove(records: seq<Record>, pass: Record -> bool, buf: seq<Record>,
                                        pending: OffsetMap, total: int, bound: OffsetMap)
    requires OffsetsIncreasing(records) && Below(bound, records)
    requires forall p :: p in pending && p in bound ==> bound[p] < pending[p]
    ensures CommitsAbove(Flushes(records, pass, buf, pending, total), bound)
    decreases |records|
  {
    var fs := Flushes(records, pass, buf, pending, total);
    if records != [] {
      var r := records[0];
      var buf' := if pass(r) then buf + [r] else buf;
      var pending' := if pass(r) then pending[PartitionOf(r) := r.offset] else pending;
      BelowStep(records, pass, bound);
      assert PartitionOf(r) in bound ==> bound[PartitionOf(r)] < r.offset;
      if |buf'| >= BATCH_SIZE {
        var tail := Flushes(records[1..], pass, [], map[], total + 1);
        FlushCommitsAbove(records[1..], pass, [], map[], total + 1, bound);
        assert fs == [Flush(buf', pending', total + 1)] + tail;
        forall j, p | 0 <= j < |fs| && p in fs[j].commits && p in bound ensures bound[p] < fs[j].commits[p] {
          if j > 0 {
            assert fs[j] == tail[j - 1];
          }
        }
      } else {
        FlushCommitsAbove(records[1..], pass, buf', pending', total + 1, bound);
      }
    }
  }

  /**
   * When each partition's records arrive in increasing offset order, the
   * offsets committed for a partition strictly increase from one flush of a
   * fetch to the next.
   */
  lemma {:induction false} FlushCommitsIncrease(records: seq<Record>, pass: Record -> bool, buf: seq<Record>,
                                                pending: OffsetMap, total: int)
    requires OffsetsIncreasing(records) && Below(pending, records)
    ensures CommitsIncreasing(Flushes(records, pass, buf, pending, total))
    decreases |records|
  {
    var fs := Flushes(records, pass, buf, pending, total);
    if records != [] {
      var r := records[0];
      var buf' := if pass(r) then buf + [r] else buf;
      var pending' := if pass(r) then pending[PartitionOf(r) := r.offset] else pending;
      BelowStep(records, pass, pending);
      if |buf'| >= BATCH_SIZE {
        var tail := Flushes(records[1..], pass, [], map[], total + 1);
        FlushCommitsIncrease(records[1..], pass, [], map[], total + 1);
        FlushCommitsAbove(records[1..], pass, [], map[], total + 1, pending');
        assert fs[0].commits == pending';
        assert fs == [Flush(buf', pending', total + 1)] + tail;
        forall a, b, p | 0 <= a < b < |fs| && p in fs[a].commits && p in fs[b].commits
          ensures fs[a].commits[p] < fs[b].commits[p]
        {
          assert fs[b] == tail[b - 1];
          if a > 0 {
            assert fs[a] == tail[a - 1];
          }
        }
      } else {
        FlushCommitsIncrease(records[1..], pass, buf', pending', total + 1);
      }
    }
  }

  /** Every record's partition has a bound, and its offset is at most that bound. */
  ghost predicate AtMost(bound: OffsetMap, records: seq<Record>)
  {
    forall j :: 0 <= j < |records| ==>
      PartitionOf(records[j]) in bound && records[j].offset <= bound[PartitionOf(records[j])]
  }

  /** Every offset committed by the flushes has a bound for its partition and is at most that bound. */
  ghost predicate CommitsAtMost(fs: seq<Flush>, bound: OffsetMap)
  {
    forall j, p :: 0 <= j < |fs| && p in fs[j].commits ==> p in bound && fs[j].commits[p] <= bound[p]
  }

  /**
   * Offsets committed by the flushes of a fetch lie at or below any bound
   * that the batcher's pending offsets and the fetch's records lie at or below.
   */
  lemma {:induction false} FlushCommitsAtMost(records: seq<Record>, pass: Record -> bool, buf: seq<Record>,
                                              pending: OffsetMap, total: int, bound: OffsetMap)
    requires AtMost(bound, records)
    requires forall p :: p in pending ==> p in bound && pending[p] <= bound[p]
    ensures CommitsAtMost(Flushes(records, pass, buf, pending, total), bound)
    decreases |records|
  {
    var fs := Flushes(records, pass, buf, pending, total);
    if records != [] {
      var r := records[0];
      var buf' := if pass(r) then buf + [r] else buf;
      var pending' := if pass(r) then pending[PartitionOf(r) := r.offset] else pending;
      assert AtMost(bound, records[1..]) by {
        forall j | 0 <= j < |records[1..]|
          ensures PartitionOf(records[1..][j]) in bound && records[1..][j].offset <= bound[PartitionOf(records[1..][j])]
        {
          assert records[1..][j] == records[j + 1];
        }
      }
      if |buf'| >= BATCH_SIZE {
        var tail := Flushes(records[1..], pass, [], map[], total + 1);
        FlushCommitsAtMost(records[1..], pass, [], map[], total + 1, bound);
        assert fs == [Flush(buf', pending', total + 1)] + tail;
        forall j, p | 0 <= j < |fs| && p in fs[j].commits ensures p in bound && fs[j].commits[p] <= bound[p] {
          if j > 0 {
            assert fs[j] == tail[j - 1];
          }
        }
      } else {
        FlushCommitsAtMost(records[1..], pass, buf', pending', total + 1, bound);
      }
    } else {
      assert fs == [Flush(buf, pending, total)];
    }
  }

  /**
   * With each partition's records in increasing offset order over two
   * fetches, the first fetch's last offsets bound all its own offsets from
   * above and lie below every offset of the same partition in the second.
   */
  lemma LastOffsetsSeparate(first: seq<Record>, second: seq<Record>)
    requires OffsetsIncreasing(first + second)
    ensures AtMost(LastOffsets(first), first)
    ensures Below(LastOffsets(first), second)
  {
    var m := LastOffsets(first);
    LastOffsetsAreLast(first);
    forall j | 0 <= j < |first|
      ensures PartitionOf(first[j]) in m && first[j].offset <= m[PartitionOf(first[j])]
    {
      var p := PartitionOf(first[j]);
      var k :| IsLastOf(first, k, p) && first[k].offset == m[p];
      if j != k {
        assert (first + second)[j] == first[j] && (first + second)[k] == first[k];
      }
    }
    forall p, j | p in m && 0 <= j < |second| && PartitionOf(second[j]) == p
      ensures m[p] < second[j].offset
    {
      var k :| IsLastOf(first, k, p) && first[k].offset == m[p];
      assert (first + second)[k] == first[k] && (first + second)[|first| + j] == second[j];
    }
  }

  /**
   * When the broker delivers each partition's records in increasing offset
   * order across two consecutive fetches, the offsets committed for a
   * partition strictly increase over the flushes of both fetches together:
   * the batcher restarts empty, and every commit of the second fetch lies
   * above every commit of the first.
   */
  lemma CommitsIncreaseAcrossFetches(first: seq<Record>, pass1: Record -> bool,
                                     second: seq<Record>, pass2: Record -> bool, total: int)
    requires OffsetsIncreasing(first + second)
    ensures CommitsIncreasing(Flushes(first, pass1, [], map[], total)
                              + Flushes(second, pass2, [], map[], total + |first|))
  {
    var fs1 := Flushes(first, pass1, [], map[], total);
    var fs2 := Flushes(second, pass2, [], map[], total + |first|);
    var bound := LastOffsets(first);
    assert OffsetsIncreasing(first) by {
      forall i, j | 0 <= i < j < |first| && PartitionOf(first[i]) == PartitionOf(first[j])
        ensures first[i].offset < first[j].offset
      {
        assert (first + second)[i] == first[i] && (first + second)[j] == first[j];
      }
    }
    assert OffsetsIncreasing(second) by {
      forall i, j | 0 <= i < j < |second| && PartitionOf(second[i]) == PartitionOf(second[j])
        ensures second[i].offset < second[j].offset
      {
        assert (first + second)[|first| + i] == second[i] && (first + second)[|first| + j] == second[j];
      }
    }
    FlushCommitsIncrease(first, pass1, [], map[], total);
    FlushCommitsIncrease(second, pass2, [], map[], total + |first|);
    LastOffsetsSeparate(first, second);
    FlushCommitsAtMost(first, pass1, [], map[], total, bound);
    FlushCommitsAbove(second, pass2, [], map[], total + |first|, bound);
    var fs := fs1 + fs2;
    forall a, b, p | 0 <= a < b < |fs| && p in fs[a].commits && p in fs[b].commits
      ensures fs[a].commits[p] < fs[b].commits[p]
    {
      if b < |fs1| {
        assert fs[a] == fs1[a] && fs[b] == fs1[b];
      } else if a >= |fs1| {
        assert fs[a] == fs2[a - |fs1|] && fs[b] == fs2[b - |fs1|];
      } else {
        var c1, c2 := fs1[a].commits, fs2[b - |fs1|].commits;
        assert fs[a] == fs1[a] && fs[b] == fs2[b - |fs1|];
        assert p in bound && c1[p] <= bound[p];
        assert bound[p] < c2[p];
      }
    }
  }
}
