/**
  The scenario loop of the loss simulation. Per scenario, every obligor's
  asset value X is tested against every rating's threshold, the default counts
  become loss ratios, the counters are reset, and the scenario's record joins
  the current batch; batches are put on the queue as they fill up, then the
  remainder and the end-of-stream sentinel.

  The random draws are inputs: each `Draw` holds the systemic factor Y of one
  scenario and the asset values X of its obligors.
*/
module Simulation {
  import opened Wrappers
  import opened Thresholds
  import opened Channel

  /** One scenario's draws: Y and the asset value X of every obligor. */
  datatype Draw = Draw(y: real, xs: seq<real>)

  // ---------------------------------------------------------------- counting

  /** How many asset values lie strictly below the threshold. */
  function CountBelow(xs: seq<real>, threshold: real): (n: nat)
    ensures n <= |xs|
  {
    if xs == [] then 0
    else CountBelow(xs[..|xs| - 1], threshold) + (if xs[|xs| - 1] < threshold then 1 else 0)
  }

  /** The count equals the number of obligors whose asset value is below the threshold. */
  lemma {:induction false} CountBelowIsCardinality(xs: seq<real>, threshold: real)
    ensures CountBelow(xs, threshold) == |set i | 0 <= i < |xs| && xs[i] < threshold|
  {
    if xs != [] {
      var n := |xs| - 1;
      CountBelowIsCardinality(xs[..n], threshold);
      var before := set i | 0 <= i < n && xs[..n][i] < threshold;
      var all := set i | 0 <= i < |xs| && xs[i] < threshold;
      if xs[n] < threshold {
        assert all == before + {n};
      } else {
        assert all == before;
      }
    }
  }

  /**
    Because every rating is tested against the same asset values, a rating
    with a higher threshold never counts fewer defaults in a scenario.
  */
  lemma {:induction false} CountBelowMonotone(xs: seq<real>, lo: real, hi: real)
    requires lo <= hi
    ensures CountBelow(xs, lo) <= CountBelow(xs, hi)
  {
    if xs != [] {
      CountBelowMonotone(xs[..|xs| - 1], lo, hi);
    }
  }

  predicate ZeroCounts(t: RatingTable)
  {
    forall k :: k in t.entries ==> t.entries[k].defaultCount == 0
  }

  predicate CountsWithin(t: RatingTable, size: nat)
  {
    forall k :: k in t.entries ==> 0 <= t.entries[k].defaultCount <= size
  }

  /** The table after adding, to every rating, the obligors of `xs` below its threshold. */
  function Counted(t: RatingTable, xs: seq<real>): RatingTable
  {
    t.(entries := map k | k in t.entries ::
                    t.entries[k].(defaultCount := t.entries[k].defaultCount + CountBelow(xs, t.entries[k].ppf)))
  }

  /** The table with every counter back at zero. */
  function Reset(t: RatingTable): RatingTable
  {
    t.(entries := map k | k in t.entries :: t.entries[k].(defaultCount := 0))
  }

  lemma CountedSnoc(t: RatingTable, xs: seq<real>, x: real)
    ensures Counted(Counted(t, xs), [x]) == Counted(t, xs + [x])
  {
    assert (xs + [x])[..|xs|] == xs;
    assert [x][..0] == [];
  }

  /** The table after testing `x` against the thresholds of the ratings `done` only. */
  function TestedOf(t: RatingTable, done: seq<string>, x: real): RatingTable
  {
    t.(entries := map k | k in t.entries ::
                    if k in done && x < t.entries[k].ppf
                    then t.entries[k].(defaultCount := t.entries[k].defaultCount + 1)
                    else t.entries[k])
  }

  lemma TestUpdate(t: RatingTable, done: seq<string>, rate: string, x: real, u: RatingTable, u': RatingTable)
    requires rate in t.entries && rate !in done && u == TestedOf(t, done, x)
    requires var e := u.entries[rate];
             u' == if x < e.ppf then u.(entries := u.entries[rate := e.(defaultCount := e.defaultCount + 1)]) else u
    ensures u' == TestedOf(t, done + [rate], x)
  {
  }

  /** Testing against the threshold of the next rating in table order. */
  lemma TestStep(t: RatingTable, j: nat, x: real, u: RatingTable, u': RatingTable)
    requires t.Valid() && j < |t.order| && u == TestedOf(t, t.order[..j], x)
    requires var e := u.entries[t.order[j]];
             u' == if x < e.ppf then u.(entries := u.entries[t.order[j] := e.(defaultCount := e.defaultCount + 1)]) else u
    ensures u' == TestedOf(t, t.order[..j + 1], x)
  {
    PrefixSnoc(t.order, j);
    NotBefore(t.order, j);
    TestUpdate(t, t.order[..j], t.order[j], x, u, u');
  }

  lemma TestDone(t: RatingTable, x: real)
    requires t.Valid()
    ensures TestedOf(t, [], x) == t
    ensures TestedOf(t, t.order, x) == Counted(t, [x])
  {
    assert [x][..0] == [];
  }

  /** Tests one asset value against every rating's threshold, in table order. */
  method TestAgainstAll(t: RatingTable, x: real) returns (u: RatingTable)
    requires t.Valid()
    ensures u == Counted(t, [x])
  {
    TestDone(t, x);
    u := t;
    var j := 0;
    while j < |t.order|
      invariant 0 <= j <= |t.order|
      invariant u == TestedOf(t, t.order[..j], x)
    {
      var rate := t.order[j];
      ghost var before := u;
      var values := u.entries[rate];
      if x < values.ppf {
        u := u.(entries := u.entries[rate := values.(defaultCount := values.defaultCount + 1)]);
      }
      TestStep(t, j, x, before, u);
      j := j + 1;
    }
    assert t.order[..j] == t.order;
  }

  /** The obligor loop of one scenario: every asset value against every rating. */
  method CountDefaults(t: RatingTable, xs: seq<real>) returns (u: RatingTable)
    requires t.Valid()
    ensures u == Counted(t, xs)
  {
    u := t;
    assert u.entries == Counted(t, xs[..0]).entries;
    var i := 0;
    while i < |xs|
      invariant 0 <= i <= |xs|
      invariant u == Counted(t, xs[..i])
    {
      u := TestAgainstAll(u, xs[i]);
      CountedSnoc(t, xs[..i], xs[i]);
      assert xs[..i + 1] == xs[..i] + [xs[i]];
      i := i + 1;
    }
    assert xs[..i] == xs;
  }

  // ---------------------------------------------------------------- loss ratios

  /**
    A rating's loss ratio: 0 without defaults (the explicit branch), otherwise
    the defaulted fraction of the portfolio.
  */
  function LossRatio(count: int, size: int): (r: real)
    requires 0 <= count <= size
    ensures 0.0 <= r <= 1.0
  {
    if count == 0 then 0.0 else count as real / size as real
  }

  /** The loss ratio of every rating in the table. */
  function Ratios(t: RatingTable, size: nat): map<string, real>
    requires CountsWithin(t, size)
  {
    map k | k in t.entries :: LossRatio(t.entries[k].defaultCount, size)
  }

  /** The ratios of the ratings `done`, by rating, as the record loop has them so far. */
  function RatiosOf(t: RatingTable, done: seq<string>, size: nat): map<string, real>
    requires CountsWithin(t, size)
    requires forall k :: k in done ==> k in t.entries
  {
    map k | k in done :: LossRatio(t.entries[k].defaultCount, size)
  }

  /** The table with the counters of the ratings `done` reset. */
  function ResetOf(t: RatingTable, done: seq<string>): RatingTable
  {
    t.(entries := map k | k in t.entries :: if k in done then t.entries[k].(defaultCount := 0) else t.entries[k])
  }

  lemma RecordStep(t: RatingTable, done: seq<string>, rate: string, size: nat)
    requires CountsWithin(t, size) && rate in t.entries
    requires forall k :: k in done ==> k in t.entries
    ensures RatiosOf(t, done + [rate], size) == RatiosOf(t, done, size)[rate := LossRatio(t.entries[rate].defaultCount, size)]
    ensures var r := ResetOf(t, done);
            ResetOf(t, done + [rate]) == r.(entries := r.entries[rate := t.entries[rate].(defaultCount := 0)])
  {
  }

  lemma RecordDone(t: RatingTable, size: nat)
    requires t.Valid() && CountsWithin(t, size)
    ensures RatiosOf(t, t.order, size) == Ratios(t, size)
    ensures ResetOf(t, t.order) == Reset(t)
  {
  }

  /**
    Builds a scenario's record from the counters and resets each counter right
    after reading it, rating by rating in table order.
  */
  method BuildRecord(t: RatingTable, simId: int, y: real, size: nat) returns (rec: Record, u: RatingTable)
    requires t.Valid() && CountsWithin(t, size)
    ensures rec == Record(simId, y, Ratios(t, size))
    ensures u == Reset(t)
  {
    var ratios: map<string, real> := map[];
    u := t;
    assert u == ResetOf(t, t.order[..0]);
    assert ratios == RatiosOf(t, t.order[..0], size);
    var j := 0;
    while j < |t.order|
      invariant 0 <= j <= |t.order|
      invariant u == ResetOf(t, t.order[..j])
      invariant ratios == RatiosOf(t, t.order[..j], size)
    {
      var rate := t.order[j];
      assert rate !in t.order[..j];
      var values := u.entries[rate];
      assert values == t.entries[rate];
      var ratio := LossRatio(values.defaultCount, size);
      RecordStep(t, t.order[..j], rate, size);
      ratios := ratios[rate := ratio];
      u := u.(entries := u.entries[rate := values.(defaultCount := 0)]);
      assert t.order[..j + 1] == t.order[..j] + [rate];
      j := j + 1;
    }
    assert t.order[..j] == t.order;
    RecordDone(t, size);
    rec := Record(simId, y, ratios);
  }

  // ---------------------------------------------------------------- scenario records

  /**
    The record of one scenario, defined directly from the draws: each rating's
    loss ratio is the fraction of obligors whose asset value is below its
    threshold.
  */
  function ScenarioRecord(t: RatingTable, simId: int, d: Draw, size: nat): Record
    requires |d.xs| == size
  {
    Record(simId, d.y, map k | k in t.entries :: LossRatio(CountBelow(d.xs, t.entries[k].ppf), size))
  }

  /** The records of all scenarios, with `S_ID` 1, 2, ... in draw order. */
  function Records(t: RatingTable, draws: seq<Draw>, size: nat): seq<Record>
    requires forall j :: 0 <= j < |draws| ==> |draws[j].xs| == size
  {
    seq(|draws|, j requires 0 <= j < |draws| => ScenarioRecord(t, j + 1, draws[j], size))
  }

  /**
    Counting a scenario from a zeroed table and then building its record yields
    the scenario's record, and leaves the table exactly as it was: same
    ratings, same thresholds, every counter zero again, so nothing carries into
    the next scenario.
  */
  lemma ScenarioRoundTrip(t: RatingTable, simId: int, d: Draw, size: nat)
    requires t.Valid() && ZeroCounts(t) && |d.xs| == size
    ensures Counted(t, d.xs).Valid() && CountsWithin(Counted(t, d.xs), size)
    ensures Record(simId, d.y, Ratios(Counted(t, d.xs), size)) == ScenarioRecord(t, simId, d, size)
    ensures Reset(Counted(t, d.xs)) == t
  {
    var c := Counted(t, d.xs);
    assert forall k :: k in c.entries ==> c.entries[k].defaultCount == CountBelow(d.xs, t.entries[k].ppf);
    assert Ratios(c, size) == ScenarioRecord(t, simId, d, size).lossRatios;
    assert Reset(c).entries == t.entries;
  }

  /**
    One pass of the scenario loop of `simulate_losses_monte_carlo`: count
    the defaults from a zeroed table, build the record, and leave the table
    zeroed again for the next scenario.
  */
  method RunScenario(t: RatingTable, simId: int, d: Draw, size: nat) returns (rec: Record, u: RatingTable)
    requires t.Valid() && ZeroCounts(t) && |d.xs| == size
    ensures rec == ScenarioRecord(t, simId, d, size)
    ensures u == t
  {
    ScenarioRoundTrip(t, simId, d, size);
    u := CountDefaults(t, d.xs);
    rec, u := BuildRecord(u, simId, d.y, size);
  }

  /**
    A loss ratio is a whole number of obligors out of the portfolio size:
    times the size it gives back the count, and it is 0 exactly when nothing
    defaulted or the portfolio is empty.
  */
  lemma LossRatioScaled(count: nat, size: nat)
    requires count <= size
    ensures LossRatio(count, size) * size as real == count as real
    ensures LossRatio(count, size) == 0.0 <==> count == 0
  {
  }

  /** More defaults never give a smaller loss ratio. */
  lemma LossRatioMonotone(lo: nat, hi: nat, size: nat)
    requires lo <= hi <= size
    ensures LossRatio(lo, size) <= LossRatio(hi, size)
  {
    if lo > 0 {
      assert lo as real / size as real <= hi as real / size as real;
    }
  }

  /**
    A rating's loss ratio in a scenario record is the loss ratio of the number
    of obligors whose asset value is below that rating's threshold.
  */
  lemma ScenarioRatio(t: RatingTable, simId: int, d: Draw, size: nat, k: string)
    requires |d.xs| == size && k in t.entries
    ensures k in ScenarioRecord(t, simId, d, size).lossRatios
    ensures ScenarioRecord(t, simId, d, size).lossRatios[k] == LossRatio(CountBelow(d.xs, t.entries[k].ppf), size)
  {
  }

  /**
    In one scenario, a rating whose threshold is at least another's has a loss
    ratio at least as large: the same asset values are tested against both.
  */
  lemma HigherThresholdNoLowerLoss(t: RatingTable, simId: int, d: Draw, size: nat, a: string, b: string)
    requires |d.xs| == size && a in t.entries && b in t.entries
    requires t.entries[a].ppf <= t.entries[b].ppf
    ensures a in ScenarioRecord(t, simId, d, size).lossRatios && b in ScenarioRecord(t, simId, d, size).lossRatios
    ensures ScenarioRecord(t, simId, d, size).lossRatios[a] <= ScenarioRecord(t, simId, d, size).lossRatios[b]
  {
    CountBelowMonotone(d.xs, t.entries[a].ppf, t.entries[b].ppf);
    ScenarioRatio(t, simId, d, size, a);
    ScenarioRatio(t, simId, d, size, b);
    LossRatioMonotone(CountBelow(d.xs, t.entries[a].ppf), CountBelow(d.xs, t.entries[b].ppf), size);
  }

  // ---------------------------------------------------------------- batching

  /**
    How many records batch i holds when full. The flush test compares the
    already incremented `sim_id` with `batchSize * (flushes + 1)`, so the first
    batch fills one record early; a batch size of 1 or less flushes after
    every scenario.
  */
  function Cap(batchSize: int, i: nat): nat
  {
    if batchSize <= 1 then 1 else if i == 0 then batchSize - 1 else batchSize
  }

  /** How many records the first f full batches hold together. */
  function SumCaps(batchSize: int, f: nat): nat
  {
    if f == 0 then 0 else SumCaps(batchSize, f - 1) + Cap(batchSize, f - 1)
  }

  /** For a batch size of at least 2, the first f > 0 full batches hold `batchSize * f - 1` records. */
  lemma {:induction false} SumCapsClosed(batchSize: int, f: nat)
    ensures batchSize <= 1 ==> SumCaps(batchSize, f) == f
    ensures batchSize > 1 && f > 0 ==> SumCaps(batchSize, f) == batchSize * f - 1
  {
    if f > 0 {
      SumCapsClosed(batchSize, f - 1);
      if batchSize > 1 && f > 1 {
        assert batchSize * f == batchSize * (f - 1) + batchSize;
      }
    }
  }

  /**
    The flush test `sim_id >= batchSize * (flushes + 1)` passes exactly when
    the current batch holds Cap(batchSize, flushes) records, given that `sim_id - 1`
    records have been built so far.
  */
  lemma FlushExactlyWhenFull(batchSize: int, flushes: nat, simId: int, n: nat)
    requires n == simId - 1 - SumCaps(batchSize, flushes)
    requires 1 <= n <= Cap(batchSize, flushes)
    ensures simId >= batchSize * (flushes + 1) <==> n == Cap(batchSize, flushes)
  {
    SumCapsClosed(batchSize, flushes);
    if batchSize <= 1 {
      assert batchSize * (flushes + 1) <= flushes + 1 by {
        assert (1 - batchSize) * (flushes + 1) >= 0;
      }
    } else if flushes > 0 {
      assert batchSize * (flushes + 1) == batchSize * flushes + batchSize;
    }
  }

  /**
    Batch sizes as the scenario loop produces them: every batch but the last is
    full, the last holds between one record and a full batch.
  */
  predicate BatchSizes(bs: seq<Batch>, batchSize: int)
  {
    (forall i :: 0 <= i < |bs| - 1 ==> |bs[i]| == Cap(batchSize, i)) &&
    (|bs| > 0 ==> 1 <= |bs[|bs| - 1]| <= Cap(batchSize, |bs| - 1))
  }

  /**
    The batching state after the records `done`: full batches `bs` of the
    expected sizes, then the open batch `data`, not yet full.
  */
  predicate Batched(bs: seq<Batch>, data: Batch, batchSize: int, done: seq<Record>)
  {
    && (forall i :: 0 <= i < |bs| ==> |bs[i]| == Cap(batchSize, i))
    && |Flatten(bs)| == SumCaps(batchSize, |bs|)
    && |data| < Cap(batchSize, |bs|)
    && Flatten(bs) + data == done
  }

  /**
    Adding the next record to the open batch either fills it, exactly when the
    flush test on the incremented `sim_id` passes, or leaves it open.
  */
  lemma AddRecord(bs: seq<Batch>, data: Batch, batchSize: int, done: seq<Record>, rec: Record, simId: int)
    requires Batched(bs, data, batchSize, done) && simId == |done| + 2
    ensures simId >= batchSize * (|bs| + 1) ==> Batched(bs + [data + [rec]], [], batchSize, done + [rec])
    ensures simId < batchSize * (|bs| + 1) ==> Batched(bs, data + [rec], batchSize, done + [rec])
  {
    FlushExactlyWhenFull(batchSize, |bs|, simId, |data| + 1);
    FlattenSnoc(bs, data + [rec]);
  }

  /** The batches once the open one, if non-empty, is flushed as the tail. */
  function Closed(bs: seq<Batch>, data: Batch): seq<Batch>
  {
    if |data| > 0 then bs + [data] else bs
  }

  /** Flushing the non-empty tail completes a batching with every record, in order, and the expected sizes. */
  lemma CloseBatches(bs: seq<Batch>, data: Batch, batchSize: int, all: seq<Record>)
    requires Batched(bs, data, batchSize, all)
    ensures Flatten(Closed(bs, data)) == all
    ensures BatchSizes(Closed(bs, data), batchSize)
    ensures forall i :: 0 <= i < |Closed(bs, data)| ==> Closed(bs, data)[i] != []
  {
    if |data| > 0 {
      FlattenSnoc(bs, data);
    } else {
      assert Flatten(bs) == all;
    }
  }

  /**
    The end of one pass of the scenario loop: the record joins the open batch,
    `sim_id` is incremented, and the batch is put on the queue when the flush
    test passes.
  */
  method AppendRecord(data: Batch, rec: Record, simId: int, batchSize: int, flushes: nat,
                      queue: seq<Item>, ghost bs: seq<Batch>, ghost done: seq<Record>)
    returns (data': Batch, simId': int, flushes': nat, queue': seq<Item>, ghost bs': seq<Batch>)
    requires Batched(bs, data, batchSize, done) && simId == |done| + 1
    requires flushes == |bs| && queue == Wrap(bs)
    ensures Batched(bs', data', batchSize, done + [rec]) && simId' == simId + 1
    ensures flushes' == |bs'| && queue' == Wrap(bs')
  {
    AddRecord(bs, data, batchSize, done, rec, simId + 1);
    data', simId', flushes', queue', bs' := data + [rec], simId + 1, flushes, queue, bs;
    if simId' >= batchSize * (flushes' + 1) {
      WrapSnoc(bs', data');
      queue' := queue' + [Some(data')];
      bs' := bs' + [data'];
      data' := [];
      flushes' := flushes' + 1;
    }
  }

  /**
    The scenario loop of `simulate_losses_monte_carlo`: counts, records, batches and the
    sentinel. The table must come zeroed, as threshold selection leaves it.
  */
  method Simulate(t: RatingTable, draws: seq<Draw>, size: nat, batchSize: int) returns (queue: seq<Item>)
    requires t.Valid() && ZeroCounts(t)
    requires forall j :: 0 <= j < |draws| ==> |draws[j].xs| == size
    ensures Terminated(queue)
    ensures Flatten(Batches(queue)) == Records(t, draws, size)
    ensures BatchSizes(Batches(queue), batchSize)
  {
    var table := t;
    var data: Batch := [];
    var flushes: nat := 0;
    var simId := 1;
    queue := [];
    ghost var bs: seq<Batch> := [];
    ghost var all := Records(t, draws, size);
    var j := 0;
    while j < |draws|
      invariant 0 <= j <= |draws|
      invariant simId == j + 1 && table == t
      invariant flushes == |bs| && queue == Wrap(bs)
      invariant Batched(bs, data, batchSize, all[..j])
    {
      var rec;
      rec, table := RunScenario(table, simId, draws[j], size);
      PrefixSnoc(all, j);
      data, simId, flushes, queue, bs := AppendRecord(data, rec, simId, batchSize, flushes, queue, bs, all[..j]);
      j := j + 1;
    }
    assert all[..j] == all;
    CloseBatches(bs, data, batchSize, all);
    if |data| > 0 {
      WrapSnoc(bs, data);
      queue := queue + [Some(data)];
      bs := bs + [data];
      data := [];
    }
    queue := queue + [None];
    SentinelAfter(bs);
  }

  /** Position of a record inside the concatenation of batches. */
  lemma {:induction false} FlattenAt(bs: seq<Batch>, i: nat, k: nat)
    requires i < |bs| && k < |bs[i]|
    ensures |Flatten(bs[..i])| + k < |Flatten(bs)|
    ensures Flatten(bs)[|Flatten(bs[..i])| + k] == bs[i][k]
  {
    var n := |bs| - 1;
    var init := bs[..n];
    assert Flatten(bs) == Flatten(init) + bs[n];
    if i == n {
      assert bs[..i] == init;
    } else {
      FlattenAt(init, i, k);
      assert init[..i] == bs[..i];
    }
  }

  /** Full batches before batch i hold SumCaps(batchSize, i) records together. */
  lemma {:induction false} FullBatchesLength(bs: seq<Batch>, batchSize: int, i: nat)
    requires i <= |bs|
    requires forall j :: 0 <= j < i ==> |bs[j]| == Cap(batchSize, j)
    ensures |Flatten(bs[..i])| == SumCaps(batchSize, i)
  {
    if i > 0 {
      FullBatchesLength(bs, batchSize, i - 1);
      assert bs[..i] == bs[..i - 1] + [bs[i - 1]];
      FlattenSnoc(bs[..i - 1], bs[i - 1]);
    }
  }

  /**
    Where each scenario lands on the queue. With a batch size of at least 2,
    the first batch holds `S_ID` 1 .. batchSize - 1 and batch i > 0 holds
    `S_ID` batchSize * i onwards; with a batch size of 1 or less, batch i holds
    the single record with `S_ID` i + 1.
  */
  lemma BatchIds(t: RatingTable, draws: seq<Draw>, size: nat, batchSize: int, q: seq<Item>, i: nat, k: nat)
    requires forall j :: 0 <= j < |draws| ==> |draws[j].xs| == size
    requires Terminated(q) && Flatten(Batches(q)) == Records(t, draws, size)
    requires BatchSizes(Batches(q), batchSize)
    requires i < |q| - 1 && k < |q[i].value|
    ensures batchSize <= 1 ==> q[i].value[k].sId == i + 1
    ensures batchSize > 1 && i == 0 ==> q[i].value[k].sId == k + 1
    ensures batchSize > 1 && i > 0 ==> q[i].value[k].sId == batchSize * i + k
  {
    var bs := Batches(q);
    assert bs[i] == q[i].value;
    FlattenAt(bs, i, k);
    FullBatchesLength(bs, batchSize, i);
    SumCapsClosed(batchSize, i);
  }

  /** The records carry `S_ID` 1 .. N, each once, in order. */
  lemma RecordIds(t: RatingTable, draws: seq<Draw>, size: nat)
    requires forall j :: 0 <= j < |draws| ==> |draws[j].xs| == size
    ensures forall j :: 0 <= j < |draws| ==> Records(t, draws, size)[j].sId == j + 1
    ensures UniqueIds(Records(t, draws, size))
    ensures forall s :: s in Ids(Records(t, draws, size)) <==> 1 <= s <= |draws|
  {
    var recs := Records(t, draws, size);
    forall s | 1 <= s <= |draws| ensures s in Ids(recs) {
      assert recs[s - 1] in recs;
    }
  }

  /** The table threshold selection yields is ready for the scenario loop. */
  lemma SelectedIsZeroed(source: seq<YearRecord>, year: int, rates: seq<string>, ppf: real -> real)
    requires Selected(source, year, rates, ppf).Ok?
    ensures Selected(source, year, rates, ppf).value.Valid()
    ensures ZeroCounts(Selected(source, year, rates, ppf).value)
  {
    match FirstOfYear(source, year)
    case None =>
    case Some(i) => TableForEntries(source[i].rates, rates, ppf);
  }

  /**
    The whole producing process: threshold selection, then the scenario loop.
    A rating missing from the year's record aborts it before anything is put
    on the queue, not even the sentinel.
  */
  method SimulateLossesMonteCarlo(source: seq<YearRecord>, year: int, rates: seq<string>, ppf: real -> real,
                                  draws: seq<Draw>, size: nat, batchSize: int)
    returns (queue: seq<Item>)
    requires forall j :: 0 <= j < |draws| ==> |draws[j].xs| == size
    ensures Selected(source, year, rates, ppf).Err? ==> queue == []
    ensures Selected(source, year, rates, ppf).Ok? ==>
              Terminated(queue) &&
              Flatten(Batches(queue)) == Records(Selected(source, year, rates, ppf).value, draws, size) &&
              BatchSizes(Batches(queue), batchSize)
  {
    var table := SelectThresholds(source, year, rates, ppf);
    if table.Err? {
      return [];
    }
    SelectedIsZeroed(source, year, rates, ppf);
    queue := Simulate(table.value, draws, size, batchSize);
  }
}
