/**
  One year of the run: the table is created, the simulating process fills the
  queue and the storing process drains it into the table. The two processes
  are sequentialised: the producer's complete stream is handed to the consumer.
*/
module Pipeline {
  import opened Wrappers
  import opened Channel
  import opened Thresholds
  import opened Simulation
  import opened Persistence

  /** In a complete stream the only sentinel is the last item. */
  lemma SentinelIsLast(queue: seq<Item>, k: int)
    requires Terminated(queue) && 0 <= k < |queue| && queue[k].None?
    ensures k == |queue| - 1
  {
  }

  /** Reading only batches, the consumer has not reached the end of a complete stream. */
  lemma SentinelNotRead(queue: seq<Item>, taken: nat)
    requires Terminated(queue) && taken <= |queue| && NoSentinel(queue[..taken])
    ensures taken < |queue|
  {
    if taken > 0 {
      assert queue[..taken][taken - 1] == queue[taken - 1];
    }
  }

  /** The batches read before the sentinel of a complete stream are all of its batches. */
  lemma PayloadsBeforeSentinel(queue: seq<Item>)
    requires Terminated(queue)
    ensures NoSentinel(queue[..|queue| - 1])
    ensures Payloads(queue[..|queue| - 1]) == Batches(queue)
  {
    var bs := Batches(queue);
    assert forall i :: 0 <= i < |bs| ==> queue[i] == Wrap(bs)[i];
  }

  /** The rows of the first `m` batches of a complete stream are a prefix of all its rows. */
  lemma RowsOfFirstBatches(queue: seq<Item>, m: nat)
    requires Terminated(queue) && m < |queue|
    ensures NoSentinel(queue[..m])
    ensures Payloads(queue[..m]) == Batches(queue)[..m]
    ensures |Flatten(Payloads(queue[..m]))| <= |Flatten(Batches(queue))|
    ensures Flatten(Batches(queue))[..|Flatten(Payloads(queue[..m]))|] == Flatten(Payloads(queue[..m]))
  {
    var bs := Batches(queue);
    PayloadsBeforeSentinel(queue);
    assert queue[..m] == queue[..|queue| - 1][..m];
    assert bs == bs[..m] + bs[m..];
    FlattenAppend(bs[..m], bs[m..]);
  }

  /**
    In a stream whose rows have distinct `S_ID`s and bind every column, each
    batch is accepted whole on top of the batches before it.
  */
  lemma EveryBatchAccepted(queue: seq<Item>, rates: seq<string>, k: nat)
    requires Terminated(queue) && k < |queue| - 1
    requires UniqueIds(Flatten(Batches(queue)))
    requires forall i :: 0 <= i < |Flatten(Batches(queue))| ==> Binds(rates, Flatten(Batches(queue))[i])
    ensures NoSentinel(queue[..k])
    ensures Accepted(rates, Flatten(Payloads(queue[..k])), queue[k].value) == |queue[k].value|
  {
    var bs := Batches(queue);
    RowsOfFirstBatches(queue, k + 1);
    RowsOfFirstBatches(queue, k);
    assert bs[..k + 1] == bs[..k] + [bs[k]];
    FlattenSnoc(bs[..k], bs[k]);
    var front := Flatten(bs[..k]) + bs[k];
    assert UniqueIds(front) by {
      assert front == Flatten(bs)[..|front|];
    }
    forall i | 0 <= i < |bs[k]| ensures Binds(rates, bs[k][i]) {
      assert bs[k][i] == front[|Flatten(bs[..k])| + i] == Flatten(bs)[|Flatten(bs[..k])| + i];
    }
    assert queue[k].value == bs[k] by {
      assert Wrap(bs)[k] == queue[k];
    }
    AcceptedWhole(rates, Flatten(bs[..k]), bs[k]);
  }

  /** Draining a complete stream whose rows fit the table ends at the sentinel with every row committed. */
  lemma CleanStreamIsStored(queue: seq<Item>, rates: seq<string>, outcome: Outcome, taken: nat, committed: seq<Record>)
    requires Terminated(queue)
    requires UniqueIds(Flatten(Batches(queue)))
    requires forall i :: 0 <= i < |Flatten(Batches(queue))| ==> Binds(rates, Flatten(Batches(queue))[i])
    requires taken <= |queue|
    requires outcome == Finished ==>
               taken >= 1 && queue[taken - 1].None? && NoSentinel(queue[..taken - 1]) &&
               committed == Flatten(Payloads(queue[..taken - 1]))
    requires outcome == Failed ==>
               taken >= 1 && NoSentinel(queue[..taken]) &&
               committed == Flatten(Payloads(queue[..taken - 1])) &&
               Accepted(rates, committed, queue[taken - 1].value) < |queue[taken - 1].value|
    requires outcome == Starved ==> taken == |queue| && NoSentinel(queue)
    ensures outcome == Finished && committed == Flatten(Batches(queue))
  {
    if outcome == Finished {
      SentinelIsLast(queue, taken - 1);
      PayloadsBeforeSentinel(queue);
    } else if outcome == Failed {
      SentinelNotRead(queue, taken);
      assert queue[..taken - 1] == queue[..taken][..taken - 1];
      EveryBatchAccepted(queue, rates, taken - 1);
    }
  }

  /** The scenario records bind the loss-ratio column of every rating the table holds. */
  lemma RecordsBind(t: RatingTable, draws: seq<Draw>, size: nat, rates: seq<string>)
    requires forall j :: 0 <= j < |draws| ==> |draws[j].xs| == size
    requires forall r :: r in rates ==> r in t.entries
    ensures forall i :: 0 <= i < |draws| ==> Binds(rates, Records(t, draws, size)[i])
  {
    forall i, r | 0 <= i < |draws| && r in rates ensures r in Records(t, draws, size)[i].lossRatios {
      ScenarioRatio(t, i + 1, draws[i], size, r);
    }
  }

  /** With no thresholds, no scenario record binds a loss-ratio column. */
  lemma RecordsDoNotBind(t: RatingTable, draws: seq<Draw>, size: nat, rates: seq<string>)
    requires forall j :: 0 <= j < |draws| ==> |draws[j].xs| == size
    requires t.entries == map[] && rates != []
    ensures forall i :: 0 <= i < |draws| ==> !Binds(rates, Records(t, draws, size)[i])
  {
    forall i | 0 <= i < |draws| ensures rates[0] !in Records(t, draws, size)[i].lossRatios {
    }
  }

  /** A non-empty prefix of rows none of which binds the columns starts with a row that does not bind them. */
  lemma NothingBindingStored(rates: seq<string>, rows: seq<Record>, prefix: seq<Record>)
    requires forall i :: 0 <= i < |rows| ==> !Binds(rates, rows[i])
    requires |prefix| <= |rows| && rows[..|prefix|] == prefix
    ensures prefix != [] ==> !Binds(rates, prefix[0])
  {
    if prefix != [] {
      assert prefix[0] == rows[0];
    }
  }

  /**
    Draining a complete stream none of whose rows binds the columns stops at
    the first batch with nothing committed, since the table holds only rows
    that bind.
  */
  lemma NoRowStored(queue: seq<Item>, rates: seq<string>, outcome: Outcome, taken: nat, committed: seq<Record>)
    requires Terminated(queue) && |Flatten(Batches(queue))| > 0
    requires forall i :: 0 <= i < |Flatten(Batches(queue))| ==> !Binds(rates, Flatten(Batches(queue))[i])
    requires forall i :: 0 <= i < |committed| ==> Binds(rates, committed[i])
    requires taken <= |queue|
    requires outcome == Finished ==>
               taken >= 1 && queue[taken - 1].None? && NoSentinel(queue[..taken - 1]) &&
               committed == Flatten(Payloads(queue[..taken - 1]))
    requires outcome == Failed ==>
               taken >= 1 && NoSentinel(queue[..taken]) &&
               committed == Flatten(Payloads(queue[..taken - 1]))
    requires outcome == Starved ==> taken == |queue| && NoSentinel(queue)
    ensures outcome == Failed && committed == []
  {
    if outcome == Finished {
      SentinelIsLast(queue, taken - 1);
      RowsOfFirstBatches(queue, taken - 1);
      NothingBindingStored(rates, Flatten(Batches(queue)), committed);
    } else if outcome == Failed {
      SentinelNotRead(queue, taken);
      RowsOfFirstBatches(queue, taken - 1);
      NothingBindingStored(rates, Flatten(Batches(queue)), committed);
    }
  }

  /**
    The year's run. When the year has a record holding every rating, the run
    ends at the sentinel and the table holds the records of all scenarios,
    `S_ID` 1 to N in order. When no record has the year, the thresholds are
    empty, so no row binds the loss-ratio columns: the first batch is rolled
    back and the table stays empty. When the year's record lacks a rating,
    the simulating process stops before putting anything on the queue, so
    the storing process waits forever with the table empty.
  */
  method RunYear(source: seq<YearRecord>, year: int, rates: seq<string>, ppf: real -> real,
                 draws: seq<Draw>, size: nat, batchSize: int)
    returns (outcome: Outcome, store: Store)
    requires forall j :: 0 <= j < |draws| ==> |draws[j].xs| == size
    ensures fresh(store) && store.rates == rates && !store.open
    ensures Selected(source, year, rates, ppf).Err? ==> outcome == Starved && store.committed == []
    ensures FirstOfYear(source, year).Some? && Selected(source, year, rates, ppf).Ok? ==>
              outcome == Finished && store.committed == Records(Selected(source, year, rates, ppf).value, draws, size)
    ensures FirstOfYear(source, year).None? && rates != [] && draws != [] ==>
              outcome == Failed && store.committed == []
  {
    var queue := SimulateLossesMonteCarlo(source, year, rates, ppf, draws, size, batchSize);
    store := new Store(rates);
    var taken;
    outcome, taken := DataConsumer(queue, store);
    var selected := Selected(source, year, rates, ppf);
    forall i | 0 <= i < |store.committed| ensures Binds(rates, store.committed[i]) {
      assert store.committed[i] == (store.committed + store.pending)[i];
    }
    if selected.Ok? {
      RecordIds(selected.value, draws, size);
      if FirstOfYear(source, year).Some? {
        TableForEntries(source[FirstOfYear(source, year).value].rates, rates, ppf);
        RecordsBind(selected.value, draws, size, rates);
        CleanStreamIsStored(queue, rates, outcome, taken, store.committed);
      } else if rates != [] && draws != [] {
        NoMatchGivesEmptyTable(source, year, rates, ppf);
        RecordsDoNotBind(selected.value, draws, size, rates);
        NoRowStored(queue, rates, outcome, taken, store.committed);
      }
    }
  }
}
