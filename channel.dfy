/**
  What travels from the simulating process to the storing process: scenario
  records, grouped in batches, followed by the end-of-stream sentinel `None`.
  The bounded multiprocessing queue is modelled as the sequence of items put
  on it, in order.
*/
module Channel {
  import opened Wrappers

  /**
    One scenario's row: `S_ID`, the systemic factor `Y`, and the loss ratio of
    every rating, by rating; rating r's ratio is stored in column
    `SqlSchema.LossColumn(r)`.
  */
  datatype Record = Record(sId: int, y: real, lossRatios: map<string, real>)

  type Batch = seq<Record>

  /** A batch, or the sentinel `None`. */
  type Item = Option<Batch>

  /** All records of a sequence of batches, in order. */
  function Flatten(bs: seq<Batch>): seq<Record>
  {
    if bs == [] then [] else Flatten(bs[..|bs| - 1]) + bs[|bs| - 1]
  }

  lemma FlattenSnoc(bs: seq<Batch>, b: Batch)
    ensures Flatten(bs + [b]) == Flatten(bs) + b
  {
    assert (bs + [b])[..|bs|] == bs;
  }

  /** Flattening distributes over concatenation. */
  lemma {:induction false} FlattenAppend(a: seq<Batch>, b: seq<Batch>)
    ensures Flatten(a + b) == Flatten(a) + Flatten(b)
    decreases |b|
  {
    if b == [] {
      assert a + b == a;
    } else {
      var init := b[..|b| - 1];
      assert (a + b)[..|a + b| - 1] == a + init;
      FlattenAppend(a, init);
    }
  }

  /** The batches as they are put on the queue. */
  function Wrap(bs: seq<Batch>): seq<Item>
  {
    seq(|bs|, i requires 0 <= i < |bs| => Some(bs[i]))
  }

  lemma WrapSnoc(bs: seq<Batch>, b: Batch)
    ensures Wrap(bs + [b]) == Wrap(bs) + [Some(b)]
  {
  }

  /** A complete stream: non-empty batches, then the sentinel as the last item. */
  predicate Terminated(q: seq<Item>)
  {
    |q| >= 1 && q[|q| - 1].None? &&
    forall i :: 0 <= i < |q| - 1 ==> q[i].Some? && q[i].value != []
  }

  /** The batches of a complete stream. */
  function Batches(q: seq<Item>): (bs: seq<Batch>)
    requires Terminated(q)
    ensures |bs| == |q| - 1
    ensures Wrap(bs) + [None] == q
  {
    var bs := seq(|q| - 1, i requires 0 <= i < |q| - 1 => q[i].value);
    assert Wrap(bs) + [None] == q;
    bs
  }

  /** Non-empty batches followed by the sentinel make a complete stream of exactly those batches. */
  lemma SentinelAfter(bs: seq<Batch>)
    requires forall i :: 0 <= i < |bs| ==> bs[i] != []
    ensures Terminated(Wrap(bs) + [None])
    ensures Batches(Wrap(bs) + [None]) == bs
  {
    var q := Wrap(bs) + [None];
    assert Wrap(Batches(q)) + [None] == Wrap(bs) + [None];
    assert Wrap(Batches(q)) == Wrap(bs);
    assert forall i :: 0 <= i < |bs| ==> Wrap(bs)[i].value == bs[i];
  }

  /** The `S_ID`s of some records. */
  function Ids(rows: seq<Record>): set<int>
  {
    set r | r in rows :: r.sId
  }

  /** No `S_ID` occurs twice. */
  predicate UniqueIds(rows: seq<Record>)
  {
    forall i, j :: 0 <= i < j < |rows| ==> rows[i].sId != rows[j].sId
  }
}
