/**
 * BatchProcessor of performance_manager.py: the items are cut into consecutive
 * slices of batch_size, each slice is handed to a processing function, and the
 * results are collected. The processing function is a parameter; what it
 * returns is one of three shapes: a list, a single value, or an exception.
 */
module Batches {

  /** What process_func does with one batch. */
  datatype BatchOutput<T> = Many(values: seq<T>) | One(value: T) | Raised

  /** The slices items[i:i + size] for i = start, start + size, ... up to the end of the items. */
  function SlicesFrom<T>(items: seq<T>, size: nat, start: nat): (bs: seq<seq<T>>)
    requires size > 0
    ensures forall k :: 0 <= k < |bs| ==> 0 < |bs[k]| <= size
    ensures forall k :: 0 <= k < |bs| - 1 ==> |bs[k]| == size
    decreases |items| - start
  {
    if start >= |items| then []
    else
      var end := if start + size < |items| then start + size else |items|;
      [items[start..end]] + SlicesFrom(items, size, end)
  }

  /** The batches process_in_batches visits: range(0, len(items), batch_size). */
  function Slices<T>(items: seq<T>, size: nat): (bs: seq<seq<T>>)
    requires size > 0
  {
    SlicesFrom(items, size, 0)
  }

  function Concat<T>(bs: seq<seq<T>>): seq<T> {
    if bs == [] then [] else bs[0] + Concat(bs[1..])
  }

  lemma {:induction false} SlicesFromCover<T>(items: seq<T>, size: nat, start: nat)
    requires size > 0 && start <= |items|
    ensures Concat(SlicesFrom(items, size, start)) == items[start..]
    decreases |items| - start
  {
    if start < |items| {
      var end := if start + size < |items| then start + size else |items|;
      var rest := SlicesFrom(items, size, end);
      SlicesFromCover(items, size, end);
      assert ([items[start..end]] + rest)[1..] == rest;
      assert items[start..] == items[start..end] + items[end..];
    }
  }

  /** The slices cover the items exactly once, in order. */
  lemma SlicesCoverItems<T>(items: seq<T>, size: nat)
    requires size > 0
    ensures Concat(Slices(items, size)) == items
  {
    SlicesFromCover(items, size, 0);
  }

  /** What one batch adds to the results: the list's elements, the single value, or the batch itself after an exception. */
  function Contribution<T>(batch: seq<T>, out: BatchOutput<T>): seq<T> {
    match out
    case Many(values) => values
    case One(value) => [value]
    case Raised => batch
  }

  function ResultsOf<T>(bs: seq<seq<T>>, process: seq<T> -> BatchOutput<T>): seq<T> {
    if bs == [] then [] else Contribution(bs[0], process(bs[0])) + ResultsOf(bs[1..], process)
  }

  /** The items of the batches that did not raise. */
  function SucceededOf<T>(bs: seq<seq<T>>, process: seq<T> -> BatchOutput<T>): nat
  {
    if bs == [] then 0
    else (if process(bs[0]).Raised? then 0 else |bs[0]|) + SucceededOf(bs[1..], process)
  }

  /** The progress_callback calls: (processed so far, total) after every batch that did not raise. */
  function ProgressOf<T>(bs: seq<seq<T>>, process: seq<T> -> BatchOutput<T>, before: nat, total: nat): seq<(nat, nat)> {
    if bs == [] then []
    else if process(bs[0]).Raised? then ProgressOf(bs[1..], process, before, total)
    else [(before + |bs[0]|, total)] + ProgressOf(bs[1..], process, before + |bs[0]|, total)
  }

  /**
   * When every list the function returns is as long as its batch, there is one
   * result per item (a batch that raises contributes its own items).
   */
  lemma {:induction false} SameLengthResults<T>(bs: seq<seq<T>>, process: seq<T> -> BatchOutput<T>)
    requires forall k :: 0 <= k < |bs| ==> !process(bs[k]).One?
    requires forall k :: 0 <= k < |bs| && process(bs[k]).Many? ==> |process(bs[k]).values| == |bs[k]|
    ensures |ResultsOf(bs, process)| == |Concat(bs)|
    decreases |bs|
  {
    if bs != [] {
      SameLengthResults(bs[1..], process);
    }
  }

  /**
   * One call per batch that did not raise (so one per batch when none raises),
   * with a count that grows strictly from call to call and ends at the number of
   * items in successful batches; the second component is always the total.
   */
  lemma {:induction false} ProgressCalls<T>(bs: seq<seq<T>>, process: seq<T> -> BatchOutput<T>, before: nat, total: nat)
    requires forall k :: 0 <= k < |bs| ==> |bs[k]| > 0
    ensures var p := ProgressOf(bs, process, before, total);
      |p| <= |bs|
      && ((forall k :: 0 <= k < |bs| ==> !process(bs[k]).Raised?) ==> |p| == |bs|)
      && (forall k :: 0 <= k < |p| ==> before < p[k].0 <= before + SucceededOf(bs, process) && p[k].1 == total)
      && (forall a, b :: 0 <= a < b < |p| ==> p[a].0 < p[b].0)
      && (p != [] ==> p[|p| - 1].0 == before + SucceededOf(bs, process))
      && (p == [] ==> SucceededOf(bs, process) == 0)
    decreases |bs|
  {
    if bs != [] {
      var next := if process(bs[0]).Raised? then before else before + |bs[0]|;
      ProgressCalls(bs[1..], process, next, total);
      if !process(bs[0]).Raised? {
        var p := ProgressOf(bs, process, before, total);
        var q := ProgressOf(bs[1..], process, next, total);
        assert p == [(next, total)] + q;
        assert forall k :: 1 <= k < |p| ==> p[k] == q[k - 1];
      }
    }
  }

  /** The first batch from start, and the batches after it. */
  lemma SlicesFromFirst<T>(items: seq<T>, size: nat, start: nat, end: nat)
    requires size > 0 && start < |items|
    requires end == if start + size < |items| then start + size else |items|
    ensures SlicesFrom(items, size, start) == [items[start..end]] + SlicesFrom(items, size, end)
  {
  }

  /** The count after one batch: it grows by the batch's size unless the batch raised. */
  function CountAfter<T>(count: nat, b: seq<T>, out: BatchOutput<T>): nat {
    if out.Raised? then count else count + |b|
  }

  /** The callback calls after one batch: one more, with the new count, unless the batch raised. */
  function ProgressAfter<T>(progress: seq<(nat, nat)>, count: nat, b: seq<T>, out: BatchOutput<T>, total: nat): seq<(nat, nat)> {
    if out.Raised? then progress else progress + [(count + |b|, total)]
  }

  /** One round of the loop moves the batch's contribution from what is left to the results. */
  lemma ResultsStep<T>(bs: seq<seq<T>>, b: seq<T>, later: seq<seq<T>>, process: seq<T> -> BatchOutput<T>, all: seq<seq<T>>, results: seq<T>)
    requires bs == [b] + later
    requires results + ResultsOf(bs, process) == ResultsOf(all, process)
    ensures (results + Contribution(b, process(b))) + ResultsOf(later, process) == ResultsOf(all, process)
  {
    assert bs[0] == b && bs[1..] == later;
    assert ResultsOf(bs, process) == Contribution(b, process(b)) + ResultsOf(later, process);
  }

  /** One round of the loop moves the batch's size, unless it raised, from what is left to the count. */
  lemma CountStep<T>(bs: seq<seq<T>>, b: seq<T>, later: seq<seq<T>>, process: seq<T> -> BatchOutput<T>, all: seq<seq<T>>, start: nat, count: nat)
    requires bs == [b] + later
    requires count + SucceededOf(bs, process) == start + SucceededOf(all, process)
    ensures CountAfter(count, b, process(b)) + SucceededOf(later, process) == start + SucceededOf(all, process)
  {
    assert bs[0] == b && bs[1..] == later;
    assert SucceededOf(bs, process) == (if process(b).Raised? then 0 else |b|) + SucceededOf(later, process);
  }

  /** One round of the loop moves the batch's callback call, unless it raised, from what is left to the calls made. */
  lemma ProgressStep<T>(bs: seq<seq<T>>, b: seq<T>, later: seq<seq<T>>, process: seq<T> -> BatchOutput<T>, all: seq<seq<T>>,
                        start: nat, count: nat, progress: seq<(nat, nat)>, total: nat)
    requires bs == [b] + later
    requires progress + ProgressOf(bs, process, count, total) == ProgressOf(all, process, start, total)
    ensures ProgressAfter(progress, count, b, process(b), total) + ProgressOf(later, process, CountAfter(count, b, process(b)), total)
            == ProgressOf(all, process, start, total)
  {
    assert bs[0] == b && bs[1..] == later;
    if process(b).Raised? {
      assert ProgressOf(bs, process, count, total) == ProgressOf(later, process, count, total);
    } else {
      var rest := ProgressOf(later, process, count + |b|, total);
      assert ProgressOf(bs, process, count, total) == [(count + |b|, total)] + rest;
      assert progress + ([(count + |b|, total)] + rest) == (progress + [(count + |b|, total)]) + rest;
    }
  }

  class BatchProcessor {
    var batchSize: nat
    var processedCount: nat

    constructor(batchSize: nat)
      ensures this.batchSize == batchSize && processedCount == 0
    {
      this.batchSize := batchSize;
      processedCount := 0;
    }

    /**
     * process_in_batches. processed_count keeps growing across calls; progress
     * lists the callback's (count, total) pairs.
     */
    method ProcessInBatches<T>(items: seq<T>, process: seq<T> -> BatchOutput<T>) returns (results: seq<T>, progress: seq<(nat, nat)>)
      requires batchSize > 0
      modifies this
      ensures batchSize == old(batchSize)
      ensures results == ResultsOf(Slices(items, batchSize), process)
      ensures processedCount == old(processedCount) + SucceededOf(Slices(items, batchSize), process)
      ensures progress == ProgressOf(Slices(items, batchSize), process, old(processedCount), |items|)
    {
      results, progress := [], [];
      ghost var all := Slices(items, batchSize);
      ghost var rest := all;
      ghost var start := processedCount;
      var total: nat := |items|;
      var i := 0;
      while i < |items|
        invariant batchSize == old(batchSize) && batchSize > 0
        invariant i <= |items| && rest == SlicesFrom(items, batchSize, i)
        invariant results + ResultsOf(rest, process) == ResultsOf(all, process)
        invariant processedCount + SucceededOf(rest, process) == start + SucceededOf(all, process)
        invariant progress + ProgressOf(rest, process, processedCount, total) == ProgressOf(all, process, start, total)
        decreases |items| - i
      {
        var end := if i + batchSize < |items| then i + batchSize else |items|;
        var batch := items[i..end];
        ghost var later := SlicesFrom(items, batchSize, end);
        SlicesFromFirst(items, batchSize, i, end);
        ResultsStep(rest, batch, later, process, all, results);
        CountStep(rest, batch, later, process, all, start, processedCount);
        ProgressStep(rest, batch, later, process, all, start, processedCount, progress, total);
        results, progress := RunBatch(batch, process, total, results, progress);
        rest := later;
        i := end;
      }
    }

    /** One round of process_in_batches: process the batch, collect what it gives, report progress unless it raised. */
    method RunBatch<T>(batch: seq<T>, process: seq<T> -> BatchOutput<T>, total: nat, results: seq<T>, progress: seq<(nat, nat)>)
      returns (results': seq<T>, progress': seq<(nat, nat)>)
      modifies this
      ensures batchSize == old(batchSize)
      ensures results' == results + Contribution(batch, process(batch))
      ensures processedCount == CountAfter(old(processedCount), batch, process(batch))
      ensures progress' == ProgressAfter(progress, old(processedCount), batch, process(batch), total)
    {
      var out := process(batch);
      results', progress' := results + Contribution(batch, out), progress;
      if !out.Raised? {
        processedCount := processedCount + |batch|;
        progress' := progress' + [(processedCount, total)];
      }
    }
  }
}
