/**
  Threshold selection: from the per-year default-rate records, take the first
  record of the requested year and turn each rating of interest into an entry
  holding its cumulative default probability, its default threshold (the
  inverse normal CDF of that probability, here the parameter `ppf`) and a
  default counter starting at zero.
*/
module Thresholds {
  import opened Wrappers

  /** One record of the rating file: a horizon year and rating -> default rate in percent. */
  datatype YearRecord = YearRecord(year: int, rates: map<string, real>)

  /** The value the program stores per rating: `{pct, ppf, default_count}`. */
  datatype RatingEntry = RatingEntry(pct: real, ppf: real, defaultCount: int)

  /**
    The program's dictionary of ratings. `order` is the dictionary's
    iteration order (the order keys were first inserted), `entries` its contents.
  */
  datatype RatingTable = RatingTable(order: seq<string>, entries: map<string, RatingEntry>)
  {
    predicate Valid()
    {
      Distinct(order) && (forall k :: k in order ==> k in entries) && (forall k :: k in entries ==> k in order)
    }
  }

  const EmptyTable := RatingTable([], map[])

  predicate Distinct<T(==)>(s: seq<T>)
  {
    forall i, j :: 0 <= i < j < |s| ==> s[i] != s[j]
  }

  lemma PrefixSnoc<T>(s: seq<T>, j: nat)
    requires j < |s|
    ensures s[..j + 1] == s[..j] + [s[j]]
  {
  }

  /** In a sequence without repetitions, no element occurs before its own position. */
  lemma {:induction false} NotBefore<T>(s: seq<T>, j: nat)
    requires Distinct(s) && j < |s|
    ensures s[j] !in s[..j]
  {
    forall i | 0 <= i < j ensures s[..j][i] != s[j] {
      assert s[..j][i] == s[i];
    }
  }

  /** Keeps the first occurrence of every element: the key order of a dictionary filled from `s`. */
  function Dedup(s: seq<string>): seq<string>
  {
    if s == [] then []
    else
      var init := s[..|s| - 1];
      var p := Dedup(init);
      if s[|s| - 1] in init then p else p + [s[|s| - 1]]
  }

  /** Deduplication keeps each element exactly once. */
  lemma {:induction false} DedupElements(s: seq<string>)
    ensures Distinct(Dedup(s))
    ensures forall x :: x in Dedup(s) <==> x in s
  {
    if s != [] {
      var init := s[..|s| - 1];
      DedupElements(init);
      assert s == init + [s[|s| - 1]];
    }
  }

  /** Where `x` first occurs in `s`. */
  function FirstIndex(s: seq<string>, x: string): (i: nat)
    requires x in s
    ensures i < |s| && s[i] == x
    ensures forall j :: 0 <= j < i ==> s[j] != x
  {
    if s[0] == x then 0 else 1 + FirstIndex(s[1..], x)
  }

  /** Appending never moves a first occurrence. */
  lemma FirstIndexSnoc(s: seq<string>, y: string, x: string)
    requires x in s
    ensures FirstIndex(s + [y], x) == FirstIndex(s, x)
  {
    assert (s + [y])[FirstIndex(s, x)] == x;
    assert forall j :: 0 <= j < |s| ==> (s + [y])[j] == s[j];
  }

  /**
    Deduplication lists the elements in the order of their first occurrence,
    as a dictionary iterates keys in the order they were first inserted.
  */
  lemma {:induction false} DedupOrder(s: seq<string>)
    ensures forall x :: x in Dedup(s) ==> x in s
    ensures forall i, j :: 0 <= i < j < |Dedup(s)| ==> FirstIndex(s, Dedup(s)[i]) < FirstIndex(s, Dedup(s)[j])
  {
    DedupElements(s);
    if s != [] {
      var init, last := s[..|s| - 1], s[|s| - 1];
      DedupOrder(init);
      DedupElements(init);
      assert s == init + [last];
      var d := Dedup(s);
      forall x | x in Dedup(init) ensures FirstIndex(s, x) == FirstIndex(init, x) {
        FirstIndexSnoc(init, last, x);
      }
      if last !in init {
        assert FirstIndex(s, last) == |init|;
      }
      forall i, j | 0 <= i < j < |d| ensures FirstIndex(s, d[i]) < FirstIndex(s, d[j]) {
        assert d[i] in Dedup(init);
        if j < |Dedup(init)| {
          assert d[j] in Dedup(init);
        }
      }
    }
  }

  /** The index of the first record whose year matches, if any. */
  function FirstOfYear(source: seq<YearRecord>, year: int): (r: Option<nat>)
    ensures r.Some? ==> r.value < |source| && source[r.value].year == year &&
                        forall j :: 0 <= j < r.value ==> source[j].year != year
    ensures r.None? ==> forall j :: 0 <= j < |source| ==> source[j].year != year
  {
    if source == [] then None
    else if source[0].year == year then Some(0)
    else match FirstOfYear(source[1..], year)
      case None => None
      case Some(i) => Some(i + 1)
  }

  /** The index of the first rating of interest that the record lacks, if any. */
  function FirstMissing(rec: map<string, real>, rates: seq<string>): (r: Option<nat>)
    ensures r.Some? ==> r.value < |rates| && rates[r.value] !in rec &&
                        forall j :: 0 <= j < r.value ==> rates[j] in rec
    ensures r.None? ==> forall j :: 0 <= j < |rates| ==> rates[j] in rec
  {
    if rates == [] then None
    else if rates[0] !in rec then Some(0)
    else match FirstMissing(rec, rates[1..])
      case None => None
      case Some(i) => Some(i + 1)
  }

  /** The entry of one rating: its rate as a fraction, the threshold of that fraction, no defaults yet. */
  function EntryFor(percent: real, ppf: real -> real): RatingEntry
  {
    RatingEntry(percent / 100.0, ppf(percent / 100.0), 0)
  }

  /**
    The table built from one year record: every rating of interest, in the
    order of first mention, or the first rating the record lacks (the
    program's KeyError).
  */
  function TableFor(rec: map<string, real>, rates: seq<string>, ppf: real -> real): Result<RatingTable, string>
  {
    match FirstMissing(rec, rates)
    case Some(i) => Err(rates[i])
    case None => Ok(RatingTable(Dedup(rates), map k | k in rates && k in rec :: EntryFor(rec[k], ppf)))
  }

  /** What threshold selection yields: the first matching record's table, or an empty table. */
  function Selected(source: seq<YearRecord>, year: int, rates: seq<string>, ppf: real -> real): Result<RatingTable, string>
  {
    match FirstOfYear(source, year)
    case None => Ok(EmptyTable)
    case Some(i) => TableFor(source[i].rates, rates, ppf)
  }

  /**
    Filling the table from the matching record, rating by rating; a rating
    the record lacks stops the fill with that rating as the error.
  */
  method FillTable(rec: map<string, real>, rates: seq<string>, ppf: real -> real)
    returns (r: Result<RatingTable, string>)
    ensures r == TableFor(rec, rates, ppf)
  {
    var order: seq<string> := [];
    var entries: map<string, RatingEntry> := map[];
    var n := 0;
    while n < |rates|
      invariant 0 <= n <= |rates|
      invariant Filled(rec, rates[..n], ppf, order, entries)
    {
      var k := rates[n];
      if k !in rec {
        FirstMissingIs(rec, rates, n);
        return Err(k);
      }
      var pct := rec[k] / 100.0;
      ghost var done, order0, entries0 := rates[..n], order, entries;
      if k !in entries {
        order := order + [k];
      }
      entries := entries[k := RatingEntry(pct, ppf(pct), 0)];
      FillStep(rec, done, ppf, order0, entries0, k, order, entries);
      PrefixSnoc(rates, n);
      n := n + 1;
    }
    assert rates[..n] == rates;
    FilledIsTable(rec, rates, ppf, order, entries);
    r := Ok(RatingTable(order, entries));
  }

  /** What the fill loop has built after the ratings `done`. */
  ghost predicate Filled(rec: map<string, real>, done: seq<string>, ppf: real -> real,
                         order: seq<string>, entries: map<string, RatingEntry>)
  {
    && (forall j :: 0 <= j < |done| ==> done[j] in rec)
    && order == Dedup(done)
    && (forall k :: k in entries <==> k in done)
    && (forall k :: k in entries ==> k in rec && entries[k] == EntryFor(rec[k], ppf))
  }

  lemma FillStep(rec: map<string, real>, done: seq<string>, ppf: real -> real,
                 order: seq<string>, entries: map<string, RatingEntry>, k: string,
                 order': seq<string>, entries': map<string, RatingEntry>)
    requires Filled(rec, done, ppf, order, entries) && k in rec
    requires order' == if k in entries then order else order + [k]
    requires entries' == entries[k := EntryFor(rec[k], ppf)]
    ensures Filled(rec, done + [k], ppf, order', entries')
  {
    DedupSnoc(done, k);
  }

  lemma FilledIsTable(rec: map<string, real>, rates: seq<string>, ppf: real -> real,
                      order: seq<string>, entries: map<string, RatingEntry>)
    requires Filled(rec, rates, ppf, order, entries)
    ensures TableFor(rec, rates, ppf) == Ok(RatingTable(order, entries))
  {
    assert FirstMissing(rec, rates).None?;
    assert entries == map k | k in rates && k in rec :: EntryFor(rec[k], ppf);
  }

  /** The first missing rating is determined by the ratings present before it. */
  lemma FirstMissingIs(rec: map<string, real>, rates: seq<string>, n: nat)
    requires n < |rates| && rates[n] !in rec
    requires forall j :: 0 <= j < n ==> rates[j] in rec
    ensures FirstMissing(rec, rates) == Some(n)
  {
  }

  lemma DedupSnoc(s: seq<string>, x: string)
    ensures Dedup(s + [x]) == if x in s then Dedup(s) else Dedup(s) + [x]
  {
    assert (s + [x])[..|s|] == s;
  }

  /**
    Threshold selection as the program runs it: scan the records, and at the
    first one of the requested year fill the table and stop scanning.
  */
  method SelectThresholds(source: seq<YearRecord>, year: int, rates: seq<string>, ppf: real -> real)
    returns (r: Result<RatingTable, string>)
    ensures r == Selected(source, year, rates, ppf)
  {
    var i := 0;
    while i < |source|
      invariant 0 <= i <= |source|
      invariant forall j :: 0 <= j < i ==> source[j].year != year
    {
      if source[i].year == year {
        r := FillTable(source[i].rates, rates, ppf);
        return;
      }
      i := i + 1;
    }
    r := Ok(EmptyTable);
  }

  /**
    A successful table has exactly the ratings of interest as keys, each once
    in iteration order, each with probability rate / 100, threshold
    ppf(probability) and a zero counter.
  */
  lemma TableForEntries(rec: map<string, real>, rates: seq<string>, ppf: real -> real)
    ensures TableFor(rec, rates, ppf).Ok? <==> forall k :: k in rates ==> k in rec
    ensures TableFor(rec, rates, ppf).Err? ==>
              var k := TableFor(rec, rates, ppf).error; k in rates && k !in rec
    ensures TableFor(rec, rates, ppf).Ok? ==>
              var t := TableFor(rec, rates, ppf).value;
              t.Valid() && t.order == Dedup(rates) && t.entries.Keys == set k | k in rates &&
              forall k :: k in t.entries ==>
                t.entries[k].pct == rec[k] / 100.0 &&
                t.entries[k].ppf == ppf(rec[k] / 100.0) &&
                t.entries[k].defaultCount == 0
  {
    match FirstMissing(rec, rates)
    case Some(i) =>
    case None =>
      DedupElements(rates);
      forall k | k in rates ensures k in rec {
        var j :| 0 <= j < |rates| && rates[j] == k;
      }
  }

  /** Records after the first one of the requested year never matter. */
  lemma OnlyFirstMatchCounts(source: seq<YearRecord>, later: seq<YearRecord>, year: int, rates: seq<string>, ppf: real -> real)
    requires exists j :: 0 <= j < |source| && source[j].year == year
    ensures Selected(source + later, year, rates, ppf) == Selected(source, year, rates, ppf)
  {
    var j :| 0 <= j < |source| && source[j].year == year;
    assert (source + later)[j] == source[j];
    var i := FirstOfYear(source, year).value;
    var i' := FirstOfYear(source + later, year).value;
    assert (source + later)[i] == source[i];
    assert i' == i;
  }

  /** Without a record of the requested year the table is empty, not an error. */
  lemma NoMatchGivesEmptyTable(source: seq<YearRecord>, year: int, rates: seq<string>, ppf: real -> real)
    requires forall j :: 0 <= j < |source| ==> source[j].year != year
    ensures Selected(source, year, rates, ppf) == Ok(EmptyTable)
  {
  }

  /**
    With a `ppf` increasing on (0, 1), as the inverse normal distribution
    is, a rating with a higher default rate gets a strictly higher
    threshold, both rates lying strictly between 0 % and 100 %.
  */
  lemma ThresholdMonotone(rec: map<string, real>, rates: seq<string>, ppf: real -> real, a: string, b: string)
    requires forall x, y :: 0.0 < x < y < 1.0 ==> ppf(x) < ppf(y)
    requires TableFor(rec, rates, ppf).Ok?
    requires a in rates && b in rates && 0.0 < rec[a] < rec[b] < 100.0
    ensures var t := TableFor(rec, rates, ppf).value;
            a in t.entries && b in t.entries && t.entries[a].ppf < t.entries[b].ppf
  {
    TableForEntries(rec, rates, ppf);
  }
}
