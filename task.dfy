/**
 * The continuous consume task: its lifecycle flags, the adaptive poll loop,
 * the per-record batching loop and the forward-and-commit step. What the
 * broker supplies (poll results, live positions, the offsets captured at
 * subscription) arrives as input; what the consumer sends out (polls, batches
 * handed to the sink, offset commits, keep-alives) is recorded in a ghost
 * event log.
 */
module ConsumeTask {
  import opened Positions
  import opened Batching
  import opened PollBackoff

  /** What the consumer does to the outside world, in order. */
  datatype Event =
    | Polled(timeoutMs: int)
    | Forwarded(messages: seq<Record>, position: ConsumerPosition)
    | Committed(offsets: OffsetMap)
    | KeptAlive

  /** A call another thread makes on the consumer while an iteration runs. */
  datatype Control<F> = NoCall | Close | Pause | Update(filters: seq<F>)

  /**
   * One outer-loop iteration's worth of environment: what the poll returns
   * (if a poll is issued), the live positions the resource reports after
   * it, where a close from another thread lands inside the record loop,
   * and the call another thread makes after the iteration.
   *
   * closeAt is the number of fetched records the record loop has taken
   * when the close lands: it lands just before the loop's check for record
   * closeAt, or, with closeAt == |fetch|, just before the final flush.
   * Beyond the fetch, no close lands during it. A pause or a filter update
   * inside a fetch changes nothing before the next iteration, since the
   * flag is read and the filters compiled once per iteration, so those
   * arrive through control.
   */
  datatype Round<F> = Round(fetch: seq<Record>, current: OffsetMap, closeAt: nat, control: Control<F>)

  /**
   * The consumer's output so far is well formed: no forwarded batch holds more
   * than BATCH_SIZE messages, and every commit directly follows the batch
   * it belongs to and commits exactly that batch's last offsets.
   */
  ghost predicate WellFormedLog(log: seq<Event>)
    decreases |log|
  {
    if log == [] then true
    else
      var init, e := log[..|log| - 1], log[|log| - 1];
      WellFormedLog(init) &&
      (e.Forwarded? ==> |e.messages| <= BATCH_SIZE) &&
      (e.Committed? ==>
         init != [] && init[|init| - 1].Forwarded? && e.offsets == LastOffsets(init[|init| - 1].messages))
  }

  /** Appending an event that is neither a batch nor a commit keeps the log well formed. */
  lemma WellFormedQuiet(log: seq<Event>, e: Event)
    requires WellFormedLog(log) && (e.Polled? || e.KeptAlive?)
    ensures WellFormedLog(log + [e])
  {
    assert (log + [e])[..|log|] == log;
  }

  /** Appending a batch of at most BATCH_SIZE messages with its exact commits keeps the log well formed. */
  lemma WellFormedFlush(log: seq<Event>, msgs: seq<Record>, commits: OffsetMap, position: ConsumerPosition)
    requires WellFormedLog(log) && |msgs| <= BATCH_SIZE && commits == LastOffsets(msgs)
    ensures WellFormedLog(log + [Forwarded(msgs, position), Committed(commits)])
  {
    var log1 := log + [Forwarded(msgs, position)];
    var log2 := log1 + [Committed(commits)];
    assert log1[..|log|] == log;
    assert log2[..|log1|] == log1;
    assert log + [Forwarded(msgs, position), Committed(commits)] == log2;
  }

  /**
   * In a well-formed log every batch holds at most BATCH_SIZE messages, and
   * every commit directly follows a batch and commits, for each partition of
   * that batch, the offset of its last message there.
   */
  lemma {:induction false} WellFormedLogMeans(log: seq<Event>)
    requires WellFormedLog(log)
    ensures forall j :: 0 <= j < |log| && log[j].Forwarded? ==> |log[j].messages| <= BATCH_SIZE
    ensures forall j :: 0 <= j < |log| && log[j].Committed? ==>
              0 < j && log[j - 1].Forwarded? && CommitsLastOffsets(log[j - 1].messages, log[j].offsets)
    decreases |log|
  {
    if log != [] {
      var init := log[..|log| - 1];
      WellFormedLogMeans(init);
      forall j | 0 <= j < |log| && log[j].Committed?
        ensures 0 < j && log[j - 1].Forwarded? && CommitsLastOffsets(log[j - 1].messages, log[j].offsets)
      {
        LastOffsetsAreLast(log[j - 1].messages);
        if j < |init| {
          assert log[j] == init[j] && log[j - 1] == init[j - 1];
        }
      }
      forall j | 0 <= j < |log| && log[j].Forwarded? ensures |log[j].messages| <= BATCH_SIZE {
        if j < |init| {
          assert log[j] == init[j];
        }
      }
    }
  }

  /**
   * The events one flush produces: the batch with the position snapshot at
   * (restamped with the flush's record count), its commit, a keep-alive.
   * With at taken by Track, the restamped snapshot is Track at the flush's
   * count (Positions.StampedTrack), as the source builds it before each flush.
   */
  ghost function FlushEvent(f: Flush, at: ConsumerPosition): seq<Event>
  {
    [Forwarded(f.messages, at.(totalRecords := f.totalRecords)), Committed(f.commits), KeptAlive]
  }

  /** The events of a sequence of flushes, in order. */
  ghost function FlushEvents(fs: seq<Flush>, at: ConsumerPosition): seq<Event>
  {
    if fs == [] then []
    else FlushEvents(fs[..|fs| - 1], at) + FlushEvent(fs[|fs| - 1], at)
  }

  lemma FlushEventsSnoc(fs: seq<Flush>, f: Flush, at: ConsumerPosition)
    ensures FlushEvents(fs + [f], at) == FlushEvents(fs, at) + FlushEvent(f, at)
  {
    assert (fs + [f])[..|fs|] == fs;
  }

  /**
   * The log a sequence of flushes writes: three events per flush, in order
   * of the flushes; the batch with the snapshot restamped with the flush's
   * record count, its commit, a keep-alive.
   */
  lemma {:induction false} FlushEventsAt(fs: seq<Flush>, at: ConsumerPosition)
    ensures |FlushEvents(fs, at)| == 3 * |fs|
    ensures forall j :: 0 <= j < |fs| ==>
              FlushEvents(fs, at)[3 * j] == Forwarded(fs[j].messages, at.(totalRecords := fs[j].totalRecords)) &&
              FlushEvents(fs, at)[3 * j + 1] == Committed(fs[j].commits) &&
              FlushEvents(fs, at)[3 * j + 2] == KeptAlive
    decreases |fs|
  {
    if fs != [] {
      var init := fs[..|fs| - 1];
      FlushEventsAt(init, at);
      forall j | 0 <= j < |fs|
        ensures FlushEvents(fs, at)[3 * j] == Forwarded(fs[j].messages, at.(totalRecords := fs[j].totalRecords))
        ensures FlushEvents(fs, at)[3 * j + 1] == Committed(fs[j].commits)
        ensures FlushEvents(fs, at)[3 * j + 2] == KeptAlive
      {
        if j < |init| {
          assert fs[j] == init[j];
        }
      }
    }
  }

  /** The records of a fetch the record loop takes before a close at closeAt lands. */
  function TakenBeforeClose(records: seq<Record>, closeAt: nat): seq<Record>
  {
    if closeAt <= |records| then records[..closeAt] else records
  }

  /**
   * The flushes a fetch logs: without a close, all the flushes of the
   * fetch; with one, only those done before it.
   */
  ghost function FetchFlushes(records: seq<Record>, pass: Record -> bool, total: int, closeAt: nat): seq<Flush>
  {
    if closeAt <= |records| then FeedAll(Batcher([], map[], total, []), records[..closeAt], pass).flushed
    else Flushes(records, pass, [], map[], total)
  }

  /**
   * What a close in the middle of a fetch does to its flushes: those logged
   * are a prefix of the uninterrupted fetch's, a proper one with a close
   * (nothing after the close, never the final flush). The passing records
   * taken before the close are the forwarded batches followed by a batch of
   * fewer than BATCH_SIZE that is never forwarded.
   */
  lemma CloseMidFetch(records: seq<Record>, pass: Record -> bool, total: int, closeAt: nat)
    ensures FetchFlushes(records, pass, total, closeAt) <= Flushes(records, pass, [], map[], total)
    ensures closeAt <= |records| ==> FetchFlushes(records, pass, total, closeAt) < Flushes(records, pass, [], map[], total)
    ensures closeAt <= |records| ==>
              var b := FeedAll(Batcher([], map[], total, []), records[..closeAt], pass);
              JoinedMessages(b.flushed) + b.buf == Filter(records[..closeAt], pass) && |b.buf| < BATCH_SIZE
  {
    if closeAt <= |records| {
      FeedFetch(records, pass, total);
      FeedAllFlushedGrows(Batcher([], map[], total, []), records, closeAt, pass);
      Undrained(records[..closeAt], pass, total);
    }
  }

  lemma LogAppend(a: seq<Event>, b: seq<Event>, c: seq<Event>)
    ensures (a + b) + c == a + (b + c)
  {
  }

  /**
   * Counts one fetched record and batches it: when it passes the filter it
   * is appended to the batch and overwrites its partition's pending offset
   * with its own; otherwise neither changes. The pending offsets stay
   * exactly the last offsets of the batch.
   */
  method Accept(r: Record, pass: Record -> bool, messages: seq<Record>, toCommit: OffsetMap, total: nat)
    returns (messages': seq<Record>, toCommit': OffsetMap, total': nat)
    requires toCommit == LastOffsets(messages)
    ensures toCommit' == LastOffsets(messages') && |messages'| <= |messages| + 1
    ensures total' == total + 1
    ensures pass(r) ==> |messages'| > 0 && messages'[|messages'| - 1] == r && toCommit'[PartitionOf(r)] == r.offset
    ensures !pass(r) ==> messages' == messages && toCommit' == toCommit
    ensures Batcher(messages', toCommit', total', []) == Admit(Batcher(messages, toCommit, total, []), r, pass)
  {
    messages', toCommit', total' := messages, toCommit, total + 1;
    if pass(r) {
      LastOffsetsAppend(messages, r);
      messages' := messages + [r];
      toCommit' := toCommit[PartitionOf(r) := r.offset];
    }
  }

  class ContinuousConsumeMessages<F> {
    /** The filter compiler: a list of filter specifications to a predicate on records. */
    const compile: seq<F> -> Record -> bool

    var closed: bool
    var paused: bool
    var filters: seq<F>

    /** Everything the consumer has done to the outside world. */
    ghost var log: seq<Event>

    ghost predicate Valid()
      reads this
    {
      WellFormedLog(log)
    }

    constructor (compile: seq<F> -> Record -> bool)
      ensures Valid()
      ensures this.compile == compile
      ensures !closed && !paused && filters == [] && log == []
    {
      this.compile := compile;
      closed, paused, filters := false, false, [];
      log := [];
    }

    /** Requests the consumer to stop; nothing ever clears the flag again. */
    method Close()
      requires Valid()
      modifies this`closed
      ensures Valid() && closed
    {
      closed := true;
    }

    /** Pauses polling; no operation of the consumer clears the flag. */
    method Pause()
      requires Valid()
      modifies this`paused
      ensures Valid() && paused
    {
      paused := true;
    }

    /** Replaces the filter list; the next non-empty poll compiles the new list. */
    method Update(filters: seq<F>)
      requires Valid()
      modifies this`filters
      ensures Valid() && this.filters == filters
    {
      this.filters := filters;
    }

    method IsClosed() returns (c: bool)
      ensures c == closed
    {
      c := closed;
    }

    /**
     * Hands the batch and position to the sink, commits the batch's pending
     * offsets, clears both (returned as the emptied batch and commits) and
     * keeps the subscription alive; when the consumer is closed, does nothing
     * at all and the batch is returned as it was.
     */
    method ForwardAndCommit(messages: seq<Record>, toCommit: OffsetMap, ghost position: ConsumerPosition)
      returns (messages': seq<Record>, toCommit': OffsetMap)
      requires Valid() && |messages| <= BATCH_SIZE && toCommit == LastOffsets(messages)
      modifies this`log
      ensures Valid()
      ensures closed ==> messages' == messages && toCommit' == toCommit && log == old(log)
      ensures !closed ==> messages' == [] && toCommit' == map[]
      ensures !closed ==> log == old(log) + [Forwarded(messages, position), Committed(toCommit), KeptAlive]
    {
      messages', toCommit' := messages, toCommit;
      if !closed {
        WellFormedFlush(log, messages, toCommit, position);
        log := log + [Forwarded(messages, position), Committed(toCommit)];
        messages', toCommit' := [], map[];
        WellFormedQuiet(log, KeptAlive);
        log := log + [KeptAlive];
      }
    }

    /**
     * The record loop of one non-empty fetch, with total records counted
     * before it: counts every record, batches the ones that pass and
     * flushes whenever the batch reaches BATCH_SIZE, each flush reporting
     * the snapshot at restamped with the record count at that moment. A
     * close from another thread lands before the check for record closeAt
     * (if the fetch has one) and ends the loop there. Returns what is left
     * in the batch, its pending commits, the record count and, as a ghost,
     * the flushes done: the batcher over the records taken before the close.
     */
    method BatchFetch(records: seq<Record>, pass: Record -> bool, ghost at: ConsumerPosition, total: nat,
                      closeAt: nat)
      returns (messages: seq<Record>, toCommit: OffsetMap, total': nat, ghost emitted: seq<Flush>)
      requires Valid()
      modifies this`log, this`closed
      ensures Valid() && |messages| < BATCH_SIZE && toCommit == LastOffsets(messages)
      ensures closed == (old(closed) || closeAt <= |records|)
      ensures old(closed) ==> log == old(log) && total' == total && messages == [] && toCommit == map[]
      ensures !old(closed) ==>
                Batcher(messages, toCommit, total', emitted)
                == FeedAll(Batcher([], map[], total, []), TakenBeforeClose(records, closeAt), pass)
      ensures !old(closed) ==> log == old(log) + FlushEvents(emitted, at)
    {
      messages, toCommit := [], map[];
      total' := total;
      ghost var log0 := log;
      ghost var start := Batcher([], map[], total, []);
      emitted := [];
      var i := 0;
      if closeAt == 0 {
        Close();
      }
      while i < |records| && !closed
        invariant 0 <= i <= |records|
        invariant Valid() && |messages| < BATCH_SIZE && toCommit == LastOffsets(messages)
        invariant closed == (old(closed) || i == closeAt)
        invariant old(closed) ==> i == 0 && log == log0 && total' == total && messages == [] && toCommit == map[]
        invariant old(closed) || i <= closeAt
        invariant Batcher(messages, toCommit, total', emitted) == FeedAll(start, records[..i], pass)
        invariant log == log0 + FlushEvents(emitted, at)
      {
        FeedAllSnoc(start, records, i, pass);
        messages, toCommit, total' := Accept(records[i], pass, messages, toCommit, total');
        messages, toCommit, emitted := FlushIfFull(at, messages, toCommit, total', emitted, log0);
        i := i + 1;
        if i == closeAt {
          Close();
        }
      }
      assert !old(closed) ==> records[..i] == TakenBeforeClose(records, closeAt);
    }

    /**
     * Flushes the batch once it holds BATCH_SIZE messages: forwarded with the
     * snapshot at restamped with the record count, committed and cleared.
     * The flushes done so far, emitted, grow by that flush.
     */
    method FlushIfFull(ghost at: ConsumerPosition, messages: seq<Record>, toCommit: OffsetMap, total: nat,
                       ghost emitted: seq<Flush>, ghost log0: seq<Event>)
      returns (messages': seq<Record>, toCommit': OffsetMap, ghost emitted': seq<Flush>)
      requires Valid() && !closed && |messages| <= BATCH_SIZE && toCommit == LastOffsets(messages)
      requires log == log0 + FlushEvents(emitted, at)
      modifies this`log
      ensures Valid() && |messages'| < BATCH_SIZE && toCommit' == LastOffsets(messages')
      ensures Batcher(messages', toCommit', total, emitted') == FlushFull(Batcher(messages, toCommit, total, emitted))
      ensures log == log0 + FlushEvents(emitted', at)
    {
      messages', toCommit', emitted' := messages, toCommit, emitted;
      if |messages| >= BATCH_SIZE {
        var f := Flush(messages, toCommit, total);
        FlushEventsSnoc(emitted, f, at);
        messages', toCommit' := ForwardAndCommit(messages, toCommit, at.(totalRecords := total));
        emitted' := emitted + [f];
      }
    }

    /**
     * Consumes one non-empty fetch: the record loop, then the flush of
     * whatever the loop left in the batch (possibly nothing), which the
     * close suppresses when one has landed.
     */
    method ConsumeFetch(records: seq<Record>, pass: Record -> bool, ghost at: ConsumerPosition, total: nat,
                        closeAt: nat)
      returns (total': nat)
      requires Valid()
      modifies this`log, this`closed
      ensures Valid()
      ensures closed == (old(closed) || closeAt <= |records|)
      ensures old(closed) ==> log == old(log) && total' == total
      ensures !old(closed) ==> total' == total + |TakenBeforeClose(records, closeAt)|
      ensures !old(closed) ==> log == old(log) + FlushEvents(FetchFlushes(records, pass, total, closeAt), at)
    {
      ghost var log0 := log;
      var messages, toCommit, count, emitted := BatchFetch(records, pass, at, total, closeAt);
      total' := count;
      ghost var f := Flush(messages, toCommit, total');
      FeedFetch(records, pass, total);
      messages, toCommit := ForwardAndCommit(messages, toCommit, at.(totalRecords := total'));
      if !closed {
        FlushEventsSnoc(emitted, f, at);
        LogAppend(log0, FlushEvents(emitted, at), FlushEvent(f, at));
      }
    }

    /**
     * One iteration of the outer loop, entered only while the consumer is open,
     * with the idle count and record count so far. Paused: only a
     * keep-alive. Otherwise a poll with the idle-count timeout; an empty
     * result counts as idle and keeps the subscription alive, a non-empty
     * one resets the idle count, compiles the current filters and consumes
     * the fetch, which a close landing at closeAt cuts short.
     */
    method Iterate(fetch: seq<Record>, startOffsets: OffsetMap, endOffsets: OffsetMap, current: OffsetMap,
                   closeAt: nat, idleCount: nat, totalRecords: nat)
      returns (idleCount': nat, totalRecords': nat)
      requires Valid() && !closed
      modifies this`log, this`closed
      ensures Valid()
      ensures closed == (!paused && fetch != [] && closeAt <= |fetch|)
      ensures paused ==> log == old(log) + [KeptAlive]
      ensures paused ==> idleCount' == idleCount && totalRecords' == totalRecords
      ensures !paused && fetch == [] ==>
                log == old(log) + [Polled(PollTimeout(idleCount)), KeptAlive] &&
                idleCount' == idleCount + 1 && totalRecords' == totalRecords
      ensures !paused && fetch != [] ==>
                idleCount' == 0 && totalRecords' == totalRecords + |TakenBeforeClose(fetch, closeAt)| &&
                log == old(log) + [Polled(PollTimeout(idleCount))]
                       + FlushEvents(FetchFlushes(fetch, compile(filters), totalRecords, closeAt),
                                     Track(startOffsets, endOffsets, current, 0))
    {
      idleCount', totalRecords' := idleCount, totalRecords;
      if paused {
        WellFormedQuiet(log, KeptAlive);
        log := log + [KeptAlive];
      } else {
        WellFormedQuiet(log, Polled(PollTimeout(idleCount)));
        log := log + [Polled(PollTimeout(idleCount))];
        if fetch == [] {
          idleCount' := idleCount + 1;
          WellFormedQuiet(log, KeptAlive);
          log := log + [KeptAlive];
        } else {
          idleCount' := 0;
          var pass := compile(filters);
          totalRecords' := ConsumeFetch(fetch, pass, Track(startOffsets, endOffsets, current, 0), totalRecords,
                                        closeAt);
        }
      }
    }

    /** Applies the call another thread made during an iteration. */
    method Apply(control: Control<F>)
      requires Valid()
      modifies this`closed, this`paused, this`filters
      ensures Valid()
      ensures closed == (old(closed) || control.Close?)
      ensures paused == (old(paused) || control.Pause?)
      ensures filters == if control.Update? then control.filters else old(filters)
    {
      match control {
        case NoCall =>
        case Close => Close();
        case Pause => Pause();
        case Update(fs) => Update(fs);
      }
    }

    /**
     * The body of delegateExecuteSync: installs the request's filters, then runs the poll
     * loop until the consumer is closed (or the given rounds run out), starting
     * with both counters at 0.
     */
    method Execute(requestFilters: seq<F>, endOffsets: OffsetMap, startOffsets: OffsetMap,
                   rounds: seq<Round<F>>) returns (iterations: nat)
      requires Valid()
      modifies this
      ensures Valid()
      ensures iterations <= |rounds|
      ensures closed || iterations == |rounds|
      ensures old(closed) ==> closed && iterations == 0 && log == old(log)
      ensures old(paused) ==> paused
      ensures |log| >= |old(log)| && log[..|old(log)|] == old(log)
      ensures old(paused) ==> forall j :: |old(log)| <= j < |log| ==> log[j] == KeptAlive
    {
      filters := requestFilters;
      var totalRecords: nat, idleCount: nat := 0, 0;
      iterations := 0;
      while iterations < |rounds| && !closed
        invariant Valid()
        invariant iterations <= |rounds|
        invariant old(closed) ==> closed && iterations == 0 && log == old(log)
        invariant old(paused) ==> paused
        invariant |log| >= |old(log)| && log[..|old(log)|] == old(log)
        invariant old(paused) ==> forall j :: |old(log)| <= j < |log| ==> log[j] == KeptAlive
      {
        var round := rounds[iterations];
        idleCount, totalRecords := Iterate(round.fetch, startOffsets, endOffsets, round.current,
                                           round.closeAt, idleCount, totalRecords);
        Apply(round.control);
        iterations := iterations + 1;
      }
    }
  }
}
