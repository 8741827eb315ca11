/**
  The storing process: it takes items off the queue until the end-of-stream
  sentinel and writes every batch into the database in its own transaction.

  The database is abstracted as a `Store` object: the rows committed so far,
  the rows of the open transaction, and the statements issued on the
  connection. Row insertion follows the table's constraints: a row is refused
  when its `S_ID` is already present (the primary key) or when it lacks a
  value for one of the loss-ratio columns the INSERT statement binds.
*/
module Persistence {
  import opened Wrappers
  import opened Channel

  /** The statements the consumer issues on the connection. */
  datatype Statement = Begin | InsertMany(rows: Batch) | Commit | Rollback

  /** How the drain loop ended. `Starved` means the queue ran dry before the sentinel: the process would wait forever. */
  datatype Outcome = Finished | Failed | Starved

  /** The row supplies a value for the loss-ratio column of every rating the INSERT statement names. */
  predicate Binds(rates: seq<string>, row: Record)
  {
    forall r :: r in rates ==> r in row.lossRatios
  }

  /** Whether the table accepts the row next to the rows it already holds. */
  predicate Insertable(rates: seq<string>, existing: seq<Record>, row: Record)
  {
    row.sId !in Ids(existing) && Binds(rates, row)
  }

  /** How many rows of a bulk insert go in before the first refused one. */
  function Accepted(rates: seq<string>, existing: seq<Record>, rows: seq<Record>): (n: nat)
    ensures n <= |rows|
    decreases |rows|
  {
    if rows == [] then 0
    else if Insertable(rates, existing, rows[0]) then 1 + Accepted(rates, existing + [rows[0]], rows[1..])
    else 0
  }

  /** Every accepted row fits next to the rows before it. */
  lemma {:induction false} AcceptedRowsFit(rates: seq<string>, existing: seq<Record>, rows: seq<Record>)
    ensures forall j :: 0 <= j < Accepted(rates, existing, rows) ==> Insertable(rates, existing + rows[..j], rows[j])
    decreases |rows|
  {
    var n := Accepted(rates, existing, rows);
    if rows != [] && Insertable(rates, existing, rows[0]) {
      var rest := rows[1..];
      AcceptedRowsFit(rates, existing + [rows[0]], rest);
      forall j | 0 <= j < n ensures Insertable(rates, existing + rows[..j], rows[j]) {
        if j > 0 {
          assert existing + rows[..j] == (existing + [rows[0]]) + rest[..j - 1] by {
            assert rows[..j] == [rows[0]] + rest[..j - 1];
          }
          assert rows[j] == rest[j - 1];
        } else {
          assert existing + rows[..j] == existing;
        }
      }
    }
  }

  /** The row after the accepted ones, if there is one, does not fit: the bulk insert stops there. */
  lemma {:induction false} AcceptedStops(rates: seq<string>, existing: seq<Record>, rows: seq<Record>)
    ensures Accepted(rates, existing, rows) < |rows| ==>
              !Insertable(rates, existing + rows[..Accepted(rates, existing, rows)], rows[Accepted(rates, existing, rows)])
    decreases |rows|
  {
    var n := Accepted(rates, existing, rows);
    if rows != [] && Insertable(rates, existing, rows[0]) {
      var rest := rows[1..];
      AcceptedStops(rates, existing + [rows[0]], rest);
      if n < |rows| {
        assert existing + rows[..n] == (existing + [rows[0]]) + rest[..n - 1] by {
          assert rows[..n] == [rows[0]] + rest[..n - 1];
        }
        assert rows[n] == rest[n - 1];
      }
    } else {
      assert existing + rows[..n] == existing;
    }
  }

  /** Rows the table accepted one by one keep every `S_ID` unique and every column bound. */
  lemma {:induction false} AcceptedKeepsConstraints(rates: seq<string>, existing: seq<Record>, rows: seq<Record>, n: nat)
    requires UniqueIds(existing) && forall i :: 0 <= i < |existing| ==> Binds(rates, existing[i])
    requires n <= |rows|
    requires forall j :: 0 <= j < n ==> Insertable(rates, existing + rows[..j], rows[j])
    ensures UniqueIds(existing + rows[..n])
    ensures forall i :: 0 <= i < |existing + rows[..n]| ==> Binds(rates, (existing + rows[..n])[i])
  {
    if n > 0 {
      AcceptedKeepsConstraints(rates, existing, rows, n - 1);
      var before := existing + rows[..n - 1];
      assert existing + rows[..n] == before + [rows[n - 1]];
      assert rows[n - 1].sId !in Ids(before);
      forall i | 0 <= i < |before| ensures before[i].sId != rows[n - 1].sId {
        assert before[i] in before;
      }
    }
  }

  /** A batch whose rows satisfy the constraints against what the table holds is accepted whole. */
  lemma {:induction false} AcceptedWhole(rates: seq<string>, existing: seq<Record>, rows: seq<Record>)
    requires UniqueIds(existing + rows)
    requires forall i :: 0 <= i < |rows| ==> Binds(rates, rows[i])
    ensures Accepted(rates, existing, rows) == |rows|
    decreases |rows|
  {
    if rows != [] {
      var all := existing + rows;
      assert Insertable(rates, existing, rows[0]) by {
        forall e | e in existing ensures e.sId != rows[0].sId {
          var i :| 0 <= i < |existing| && existing[i] == e;
          assert all[i] == e && all[|existing|] == rows[0];
        }
        assert Binds(rates, rows[0]);
      }
      assert all == (existing + [rows[0]]) + rows[1..];
      AcceptedWhole(rates, existing + [rows[0]], rows[1..]);
    }
  }

  class Store {
    /** The ratings whose loss-ratio columns the INSERT statement binds. */
    const rates: seq<string>
    /** Rows made durable by a commit, in insertion order. */
    var committed: seq<Record>
    /** Rows written inside the open transaction. */
    var pending: seq<Record>
    /** Whether a transaction is open. */
    var open: bool
    /** The statements issued on the connection, in order. */
    var log: seq<Statement>

    /** The table's constraints hold of every row it holds, and outside a transaction nothing is pending. */
    ghost predicate Valid()
      reads this
    {
      && (!open ==> pending == [])
      && UniqueIds(committed + pending)
      && (forall i :: 0 <= i < |committed + pending| ==> Binds(rates, (committed + pending)[i]))
    }

    /** A freshly created, empty table. */
    constructor (rates: seq<string>)
      ensures Valid() && this.rates == rates
      ensures committed == [] && pending == [] && !open && log == []
    {
      this.rates := rates;
      committed, pending, open, log := [], [], false, [];
    }

    method BeginTransaction()
      requires Valid() && !open
      modifies this
      ensures Valid() && open
      ensures committed == old(committed) && pending == [] && log == old(log) + [Begin]
    {
      open := true;
      log := log + [Begin];
    }

    /**
      Inserts the rows one after the other; the first refused row raises the
      error, and the rows before it stay in the open transaction.
    */
    method InsertRows(rows: Batch) returns (ok: bool)
      requires Valid()
      modifies this
      ensures Valid() && open && committed == old(committed)
      ensures pending == old(pending) + rows[..Accepted(rates, old(committed) + old(pending), rows)]
      ensures ok <==> Accepted(rates, old(committed) + old(pending), rows) == |rows|
      ensures log == old(log) + [InsertMany(rows)]
    {
      var n := Accepted(rates, committed + pending, rows);
      AcceptedRowsFit(rates, committed + pending, rows);
      AcceptedKeepsConstraints(rates, committed + pending, rows, n);
      assert committed + (pending + rows[..n]) == committed + pending + rows[..n];
      pending := pending + rows[..n];
      open := true;
      ok := n == |rows|;
      log := log + [InsertMany(rows)];
    }

    /** Makes the open transaction durable; without one it does nothing. */
    method CommitTransaction()
      requires Valid()
      modifies this
      ensures Valid() && !open && pending == []
      ensures committed == old(committed) + old(pending)
      ensures log == if old(open) then old(log) + [Commit] else old(log)
    {
      if open {
        committed := committed + pending;
        pending := [];
        open := false;
        log := log + [Commit];
      }
    }

    /** Discards the open transaction. */
    method RollbackTransaction()
      requires Valid() && open
      modifies this
      ensures Valid() && !open && pending == [] && committed == old(committed)
      ensures log == old(log) + [Rollback]
    {
      assert committed + pending == committed + pending[..|pending|];
      assert committed == (committed + pending)[..|committed|];
      pending := [];
      open := false;
      log := log + [Rollback];
    }
  }

  /** Items that are all batches. */
  predicate NoSentinel(items: seq<Item>)
  {
    forall i :: 0 <= i < |items| ==> items[i].Some?
  }

  function Payloads(items: seq<Item>): (bs: seq<Batch>)
    requires NoSentinel(items)
    ensures |bs| == |items|
    ensures forall i :: 0 <= i < |items| ==> bs[i] == items[i].value
  {
    seq(|items|, i requires 0 <= i < |items| => items[i].value)
  }

  /** One transaction per batch: begin, bulk insert, commit. */
  function Protocol(bs: seq<Batch>): seq<Statement>
  {
    if bs == [] then [] else Protocol(bs[..|bs| - 1]) + [Begin, InsertMany(bs[|bs| - 1]), Commit]
  }

  /** The first `taken` items are all batches, and `done` are their payloads. */
  ghost predicate Consumed(queue: seq<Item>, taken: nat, done: seq<Batch>)
  {
    taken <= |queue| && NoSentinel(queue[..taken]) && done == Payloads(queue[..taken])
  }

  /** Taking one more batch off the queue extends the payloads, the committed rows and the statement log by that batch. */
  lemma ConsumeStep(queue: seq<Item>, taken: nat, done: seq<Batch>)
    requires taken < |queue| && queue[taken].Some? && Consumed(queue, taken, done)
    ensures Consumed(queue, taken + 1, done + [queue[taken].value])
    ensures Flatten(done + [queue[taken].value]) == Flatten(done) + queue[taken].value
    ensures Protocol(done + [queue[taken].value]) == Protocol(done) + [Begin, InsertMany(queue[taken].value), Commit]
  {
    assert queue[..taken + 1] == queue[..taken] + [queue[taken]];
    FlattenSnoc(done, queue[taken].value);
    assert (done + [queue[taken].value])[..|done|] == done;
  }

  /**
    One pass of the loop body for a batch: a transaction is begun unless one
    is already open, the rows are bulk-inserted, and the transaction is
    committed. When a row is refused the error skips the commit and the
    transaction stays open with the rows inserted before it.
  */
  method WriteBatch(store: Store, rows: Batch, inTransaction: bool) returns (ok: bool, stillInTransaction: bool)
    requires store.Valid() && store.open == inTransaction && store.pending == []
    modifies store
    ensures store.Valid() && stillInTransaction == store.open && stillInTransaction == !ok
    ensures ok <==> Accepted(store.rates, old(store.committed), rows) == |rows|
    ensures ok ==> store.pending == [] && store.committed == old(store.committed) + rows &&
                   store.log == old(store.log) + (if inTransaction then [] else [Begin]) + [InsertMany(rows), Commit]
    ensures !ok ==> store.committed == old(store.committed) &&
                    store.pending == rows[..Accepted(store.rates, old(store.committed), rows)] &&
                    store.log == old(store.log) + (if inTransaction then [] else [Begin]) + [InsertMany(rows)]
  {
    stillInTransaction := inTransaction;
    if !stillInTransaction {
      store.BeginTransaction();
      stillInTransaction := true;
    }
    assert store.committed + store.pending == store.committed;
    ok := store.InsertRows(rows);
    if ok {
      assert store.pending == rows by {
        assert rows[..|rows|] == rows;
      }
      store.CommitTransaction();
      stillInTransaction := false;
    }
  }

  /** Starting from `c0` and `l0`, the store has committed the rows of the batches `done`, and its log holds their transactions. */
  ghost predicate Wrote(store: Store, c0: seq<Record>, l0: seq<Statement>, done: seq<Batch>)
    reads store
  {
    store.committed == c0 + Flatten(done) && store.log == l0 + Protocol(done)
  }

  /**
    After the batches `done`, the transaction for batch `b` was begun and its
    bulk insert refused a row: nothing of `b` is committed, and the open
    transaction holds the rows of `b` inserted before the refused one.
  */
  ghost predicate Refused(store: Store, c0: seq<Record>, l0: seq<Statement>, done: seq<Batch>, b: Batch)
    reads store
  {
    && store.committed == c0 + Flatten(done)
    && Accepted(store.rates, store.committed, b) < |b|
    && store.pending == b[..Accepted(store.rates, store.committed, b)]
    && store.log == l0 + Protocol(done) + [Begin, InsertMany(b)]
  }

  /**
    The `try` block of the storing process: it reads items until the first
    sentinel and reads nothing after it, writing each batch in its own
    transaction; after every commit no transaction is open. A refused row
    ends the loop with that batch's transaction still open. `done` are the
    batches written in full.
  */
  method DrainQueue(queue: seq<Item>, store: Store) returns (outcome: Outcome, taken: nat, inTransaction: bool, ghost done: seq<Batch>)
    requires store.Valid() && !store.open
    modifies store
    ensures store.Valid() && taken <= |queue|
    ensures inTransaction <==> outcome == Failed
    ensures inTransaction == store.open && (!inTransaction ==> store.pending == [])
    ensures outcome != Starved ==> 1 <= taken && Consumed(queue, taken - 1, done)
    ensures outcome == Finished ==> queue[taken - 1].None? && Wrote(store, old(store.committed), old(store.log), done)
    ensures outcome == Failed ==>
              queue[taken - 1].Some? && Refused(store, old(store.committed), old(store.log), done, queue[taken - 1].value)
    ensures outcome == Starved ==>
              taken == |queue| && Consumed(queue, taken, done) &&
              Wrote(store, old(store.committed), old(store.log), done)
  {
    inTransaction := false;
    taken := 0;
    outcome := Starved;
    done := [];
    ghost var c0, l0 := store.committed, store.log;
    while taken < |queue|
      invariant 0 <= taken <= |queue|
      invariant store.Valid() && !inTransaction && !store.open && store.pending == []
      invariant Consumed(queue, taken, done)
      invariant Wrote(store, c0, l0, done)
    {
      var data := queue[taken];
      if data.None? {
        outcome := Finished;
        taken := taken + 1;
        return;
      }
      ConsumeStep(queue, taken, done);
      var ok;
      ok, inTransaction := WriteBatch(store, data.value, inTransaction);
      taken := taken + 1;
      if !ok {
        // the database error leaves the loop with the transaction still open
        outcome := Failed;
        return;
      }
      done := done + [data.value];
    }
  }

  /**
    The storing process. After a refused row the error handler rolls the
    open transaction back, so none of that batch's rows remain; the final
    commit of the clean-up then finds no transaction open and does nothing.
    Batches committed before the failure stay.
  */
  method DataConsumer(queue: seq<Item>, store: Store) returns (outcome: Outcome, taken: nat)
    requires store.Valid() && !store.open
    modifies store
    ensures store.Valid() && !store.open && store.pending == []
    ensures taken <= |queue|
    ensures outcome == Finished ==>
              taken >= 1 && queue[taken - 1].None? && NoSentinel(queue[..taken - 1]) &&
              store.committed == old(store.committed) + Flatten(Payloads(queue[..taken - 1])) &&
              store.log == old(store.log) + Protocol(Payloads(queue[..taken - 1]))
    ensures outcome == Failed ==>
              taken >= 1 && NoSentinel(queue[..taken]) &&
              store.committed == old(store.committed) + Flatten(Payloads(queue[..taken - 1])) &&
              Accepted(store.rates, store.committed, queue[taken - 1].value) < |queue[taken - 1].value| &&
              store.log == old(store.log) + Protocol(Payloads(queue[..taken - 1])) +
                           [Begin, InsertMany(queue[taken - 1].value), Rollback]
    ensures outcome == Starved ==>
              taken == |queue| && NoSentinel(queue) &&
              store.committed == old(store.committed) + Flatten(Payloads(queue)) &&
              store.log == old(store.log) + Protocol(Payloads(queue))
  {
    var inTransaction;
    ghost var done;
    outcome, taken, inTransaction, done := DrainQueue(queue, store);
    if outcome == Failed {
      assert queue[..taken] == queue[..taken - 1] + [queue[taken - 1]];
    } else if outcome == Starved {
      assert queue[..taken] == queue;
    }
    // the error handler
    if outcome == Failed && inTransaction {
      store.RollbackTransaction();
    }
    // the clean-up
    if inTransaction {
      store.CommitTransaction();
    }
  }
}
