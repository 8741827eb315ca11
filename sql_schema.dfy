/**
  The column lists of the `simulation` table and the two SQL statements built
  from them: one CREATE TABLE and one INSERT with named placeholders.
  The list of ratings in use is a parameter here; the program fixes it at
  start-up in a module-level constant.
*/
module SqlSchema {
  import opened Wrappers

  /** Suffix that turns a rating name into the name of its loss-ratio column. */
  const RatioSuffix: string := "_L_RATIO"
  /** SQL type written after every loss-ratio column in CREATE TABLE. */
  const RatioType: string := " DECIMAL(6)"
  const BaseCreateColumns: seq<string> := ["S_ID INTEGER PRIMARY KEY", "Y DECIMAL(8)"]
  const BaseInsertColumns: seq<string> := ["S_ID", "Y"]
  /** What `",\n    ".join` puts between two columns. */
  const Separator: string := ",\n    "

  const CreateHead: string := "\n            CREATE TABLE IF NOT EXISTS simulation (\n                "
  const CreateTail: string := "\n            )\n        "
  const InsertHead: string := "\n            INSERT INTO simulation (\n                "
  const InsertMiddle: string := "\n            ) VALUES (\n                "
  const InsertTail: string := "\n            )\n        "

  /** The loss-ratio column of a rating. */
  function LossColumn(rate: string): (c: string)
    ensures |c| == |rate| + |RatioSuffix|
    ensures c[..|rate|] == rate && c[|rate|..] == RatioSuffix
  {
    rate + RatioSuffix
  }

  /** Distinct ratings never share a loss-ratio column. */
  lemma LossColumnInjective(a: string, b: string)
    ensures LossColumn(a) == LossColumn(b) ==> a == b
  {
    if LossColumn(a) == LossColumn(b) {
      calc {
        a;
        LossColumn(a)[..|a|];
        LossColumn(b)[..|b|];
        b;
      }
    }
  }

  /** The loss-ratio column names, one per rating, in order. */
  function LossColumns(rates: seq<string>): (names: seq<string>)
    ensures |names| == |rates|
    ensures forall i :: 0 <= i < |rates| ==> names[i] == LossColumn(rates[i])
  {
    seq(|rates|, i requires 0 <= i < |rates| => LossColumn(rates[i]))
  }

  /** Each column name followed by the loss-ratio column type. */
  function Typed(names: seq<string>): (defs: seq<string>)
    ensures |defs| == |names|
    ensures forall i :: 0 <= i < |names| ==> defs[i] == names[i] + RatioType
  {
    seq(|names|, i requires 0 <= i < |names| => names[i] + RatioType)
  }

  /** Column definitions of CREATE TABLE, in order. */
  function CreateColumns(rates: seq<string>): seq<string>
  {
    BaseCreateColumns + Typed(LossColumns(rates))
  }

  /** Column names of INSERT, in order. */
  function InsertColumns(rates: seq<string>): seq<string>
  {
    BaseInsertColumns + LossColumns(rates)
  }

  /** The named placeholder `:col` of every column, in order. */
  function Placeholders(cols: seq<string>): (phs: seq<string>)
    ensures |phs| == |cols|
    ensures forall i :: 0 <= i < |cols| ==> phs[i] == ":" + cols[i]
  {
    seq(|cols|, i requires 0 <= i < |cols| => ":" + cols[i])
  }

  /**
    Builds the two column lists the way the program does at start-up: first the
    loss-ratio column names, then one pass appending their definitions to the
    CREATE list and one pass appending the names to the INSERT list.
  */
  method BuildColumnLists(rates: seq<string>) returns (createCols: seq<string>, insertCols: seq<string>)
    ensures createCols == CreateColumns(rates)
    ensures insertCols == InsertColumns(rates)
  {
    createCols := BaseCreateColumns;
    insertCols := BaseInsertColumns;
    var temp: seq<string> := [];
    var i := 0;
    while i < |rates|
      invariant 0 <= i <= |rates|
      invariant temp == LossColumns(rates[..i])
    {
      assert LossColumns(rates[..i + 1]) == temp + [LossColumn(rates[i])];
      temp := temp + [LossColumn(rates[i])];
      i := i + 1;
    }
    assert rates[..i] == rates;
    i := 0;
    while i < |temp|
      invariant 0 <= i <= |temp|
      invariant createCols == BaseCreateColumns + Typed(temp[..i])
    {
      assert Typed(temp[..i + 1]) == Typed(temp[..i]) + [temp[i] + RatioType];
      createCols := createCols + [temp[i] + RatioType];
      i := i + 1;
    }
    assert temp[..i] == temp;
    i := 0;
    while i < |temp|
      invariant 0 <= i <= |temp|
      invariant insertCols == BaseInsertColumns + temp[..i]
    {
      assert temp[..i + 1] == temp[..i] + [temp[i]];
      insertCols := insertCols + [temp[i]];
      i := i + 1;
    }
    assert temp[..i] == temp;
  }

  /** The fixed first two columns run in parallel: each definition is the name, a space and the SQL type. */
  lemma BaseColumnsParallel(i: nat)
    requires i < 2
    ensures |BaseInsertColumns[i]| < |BaseCreateColumns[i]|
    ensures BaseCreateColumns[i][..|BaseInsertColumns[i]| + 1] == BaseInsertColumns[i] + " "
  {
  }

  /**
    The two lists run in parallel: column i of CREATE TABLE is column i of
    INSERT followed by a space and its SQL type.
  */
  lemma ColumnListsParallel(rates: seq<string>, i: nat)
    requires i < |InsertColumns(rates)|
    ensures |CreateColumns(rates)| == |InsertColumns(rates)| == 2 + |rates|
    ensures |InsertColumns(rates)[i]| < |CreateColumns(rates)[i]|
    ensures CreateColumns(rates)[i][..|InsertColumns(rates)[i]| + 1] == InsertColumns(rates)[i] + " "
  {
    if i < 2 {
      BaseColumnsParallel(i);
    } else {
      var name := LossColumns(rates)[i - 2];
      assert InsertColumns(rates)[i] == name;
      assert CreateColumns(rates)[i] == name + RatioType;
      assert (name + RatioType)[..|name| + 1] == name + " ";
    }
  }

  /** Python's `sep.join(parts)`. */
  function Join(sep: string, parts: seq<string>): string
  {
    if |parts| == 0 then ""
    else if |parts| == 1 then parts[0]
    else parts[0] + sep + Join(sep, parts[1..])
  }

  /** Where part i starts inside `Join(sep, parts)`. */
  function Offset(sep: string, parts: seq<string>, i: nat): nat
    requires i < |parts|
  {
    if i == 0 then 0 else |parts[0]| + |sep| + Offset(sep, parts[1..], i - 1)
  }

  /** Part i of a join occurs whole at its offset. */
  lemma {:induction false} JoinPlacesPart(sep: string, parts: seq<string>, i: nat)
    requires i < |parts|
    ensures Offset(sep, parts, i) + |parts[i]| <= |Join(sep, parts)|
    ensures Join(sep, parts)[Offset(sep, parts, i)..Offset(sep, parts, i) + |parts[i]|] == parts[i]
  {
    if |parts| == 1 {
      assert Join(sep, parts)[0..|parts[0]|] == parts[0];
    } else {
      var rest := Join(sep, parts[1..]);
      if i == 0 {
        SliceOfPrefix(parts[0], sep + rest, 0, |parts[0]|);
        assert parts[0] + sep + rest == parts[0] + (sep + rest);
        assert parts[0][0..|parts[0]|] == parts[0];
      } else {
        JoinPlacesPart(sep, parts[1..], i - 1);
        var o := Offset(sep, parts[1..], i - 1);
        assert parts[1..][i - 1] == parts[i];
        SliceOfSuffix(parts[0] + sep, rest, o, o + |parts[i]|);
      }
    }
  }

  /** Every part of a join but the last is followed by the separator. */
  lemma {:induction false} JoinPlacesSeparator(sep: string, parts: seq<string>, i: nat)
    requires i + 1 < |parts|
    ensures Offset(sep, parts, i) + |parts[i]| + |sep| <= |Join(sep, parts)|
    ensures Join(sep, parts)[Offset(sep, parts, i) + |parts[i]|..Offset(sep, parts, i) + |parts[i]| + |sep|] == sep
  {
    if i == 0 {
      FirstSeparator(sep, parts);
    } else {
      var rest := Join(sep, parts[1..]);
      JoinPlacesSeparator(sep, parts[1..], i - 1);
      var o := Offset(sep, parts[1..], i - 1);
      assert parts[1..][i - 1] == parts[i];
      assert Join(sep, parts) == (parts[0] + sep) + rest;
      assert Offset(sep, parts, i) == |parts[0] + sep| + o;
      SliceOfSuffix(parts[0] + sep, rest, o + |parts[i]|, o + |parts[i]| + |sep|);
    }
  }

  /** The separator right after the first of several parts. */
  lemma FirstSeparator(sep: string, parts: seq<string>)
    requires 1 < |parts|
    ensures |parts[0]| + |sep| <= |Join(sep, parts)|
    ensures Join(sep, parts)[|parts[0]|..|parts[0]| + |sep|] == sep
  {
    var rest := Join(sep, parts[1..]);
    assert Join(sep, parts) == parts[0] + sep + rest;
    SliceOfMiddle(parts[0], sep, rest, 0, |sep|);
    assert sep[0..|sep|] == sep;
  }

  /** A slice taken inside the second piece of a concatenation. */
  lemma SliceOfSuffix(a: string, b: string, lo: nat, hi: nat)
    requires lo <= hi <= |b|
    ensures (a + b)[|a| + lo..|a| + hi] == b[lo..hi]
  {
    assert forall k :: lo <= k < hi ==> (a + b)[|a| + k] == b[k];
  }

  /** The CREATE TABLE statement: the column definitions, comma-separated, inside the fixed text. */
  function CreateStatement(rates: seq<string>): string
  {
    CreateHead + Join(Separator, CreateColumns(rates)) + CreateTail
  }

  /** The INSERT statement: the column names, then their named placeholders, inside the fixed text. */
  function InsertStatement(rates: seq<string>): string
  {
    var cols := InsertColumns(rates);
    InsertHead + Join(Separator, cols) + InsertMiddle + Join(Separator, Placeholders(cols)) + InsertTail
  }

  /**
    The SQL text for mode "create" or "insert"; any other mode leaves the
    statement unbound in the program, which the model reports as None.
  */
  function CreateSqlCommand(mode: string, rates: seq<string>): (sql: Option<string>)
    ensures sql.Some? <==> mode == "create" || mode == "insert"
    ensures mode == "create" ==> sql == Some(CreateStatement(rates))
    ensures mode == "insert" ==> sql == Some(InsertStatement(rates))
  {
    if mode == "create" then Some(CreateStatement(rates))
    else if mode == "insert" then Some(InsertStatement(rates))
    else None
  }

  /** A slice taken inside the middle piece of a concatenation. */
  lemma SliceOfMiddle(a: string, b: string, c: string, lo: nat, hi: nat)
    requires lo <= hi <= |b|
    ensures |a| + hi <= |a + b + c|
    ensures (a + b + c)[|a| + lo..|a| + hi] == b[lo..hi]
  {
    var s := a + b + c;
    assert forall k :: lo <= k < hi ==> s[|a| + k] == b[k];
  }

  /** A slice taken inside the first piece of a concatenation. */
  lemma SliceOfPrefix(a: string, b: string, lo: nat, hi: nat)
    requires lo <= hi <= |a|
    ensures (a + b)[lo..hi] == a[lo..hi]
  {
    assert forall k :: lo <= k < hi ==> (a + b)[k] == a[k];
  }

  /** A slice taken inside the second of five concatenated pieces. */
  lemma SliceOfSecond(p: string, q: string, r: string, s: string, t: string, lo: nat, hi: nat)
    requires lo <= hi <= |q|
    ensures |p| + hi <= |p + q + r + s + t|
    ensures (p + q + r + s + t)[|p| + lo..|p| + hi] == q[lo..hi]
  {
    var all := p + q + r + s + t;
    assert forall k :: lo <= k < hi ==> all[|p| + k] == q[k];
  }

  /** A slice taken inside the fourth of five concatenated pieces. */
  lemma SliceOfFourth(p: string, q: string, r: string, s: string, t: string, lo: nat, hi: nat)
    requires lo <= hi <= |s|
    ensures |p| + |q| + |r| + hi <= |p + q + r + s + t|
    ensures (p + q + r + s + t)[|p| + |q| + |r| + lo..|p| + |q| + |r| + hi] == s[lo..hi]
  {
    var all := p + q + r + s + t;
    assert forall k :: lo <= k < hi ==> all[|p| + |q| + |r| + k] == s[k];
  }

  /** Part i of a list joined into the second of three pieces sits at its offset past the first piece. */
  lemma JoinedPartInSecond(p: string, sep: string, parts: seq<string>, r: string, i: nat)
    requires i < |parts|
    ensures var all := p + Join(sep, parts) + r;
            var at := |p| + Offset(sep, parts, i);
            at + |parts[i]| <= |all| && all[at..at + |parts[i]|] == parts[i]
  {
    JoinPlacesPart(sep, parts, i);
    var o := Offset(sep, parts, i);
    SliceOfMiddle(p, Join(sep, parts), r, o, o + |parts[i]|);
  }

  /** The same for a list joined into the second of five pieces. */
  lemma JoinedPartInSecondOfFive(p: string, sep: string, parts: seq<string>, r: string, s: string, t: string, i: nat)
    requires i < |parts|
    ensures var all := p + Join(sep, parts) + r + s + t;
            var at := |p| + Offset(sep, parts, i);
            at + |parts[i]| <= |all| && all[at..at + |parts[i]|] == parts[i]
  {
    JoinPlacesPart(sep, parts, i);
    var o := Offset(sep, parts, i);
    SliceOfSecond(p, Join(sep, parts), r, s, t, o, o + |parts[i]|);
  }

  /** The same for a list joined into the fourth of five pieces. */
  lemma JoinedPartInFourthOfFive(p: string, q: string, r: string, sep: string, parts: seq<string>, t: string, i: nat)
    requires i < |parts|
    ensures var all := p + q + r + Join(sep, parts) + t;
            var at := |p| + |q| + |r| + Offset(sep, parts, i);
            at + |parts[i]| <= |all| && all[at..at + |parts[i]|] == parts[i]
  {
    JoinPlacesPart(sep, parts, i);
    var o := Offset(sep, parts, i);
    SliceOfFourth(p, q, r, Join(sep, parts), t, o, o + |parts[i]|);
  }

  /**
    The CREATE TABLE statement lists column definition i, whole, at its place
    in the comma-separated list.
  */
  lemma CreateStatementColumn(rates: seq<string>, i: nat)
    requires i < |CreateColumns(rates)|
    ensures var sql := CreateStatement(rates);
            var at := |CreateHead| + Offset(Separator, CreateColumns(rates), i);
            at + |CreateColumns(rates)[i]| <= |sql| &&
            sql[at..at + |CreateColumns(rates)[i]|] == CreateColumns(rates)[i]
  {
    JoinedPartInSecond(CreateHead, Separator, CreateColumns(rates), CreateTail, i);
  }

  /** The INSERT statement lists column i, whole, at its place in the column list. */
  lemma InsertStatementColumn(rates: seq<string>, i: nat)
    requires i < |InsertColumns(rates)|
    ensures var cols := InsertColumns(rates);
            var sql := InsertStatement(rates);
            var at := |InsertHead| + Offset(Separator, cols, i);
            at + |cols[i]| <= |sql| && sql[at..at + |cols[i]|] == cols[i]
  {
    var cols := InsertColumns(rates);
    JoinedPartInSecondOfFive(InsertHead, Separator, cols, InsertMiddle, Join(Separator, Placeholders(cols)), InsertTail, i);
  }

  /**
    In the INSERT statement, placeholder i stands at the same position of the
    VALUES list as column i does in the column list, and it is `:` followed by
    that very column's name; so every value binds to the column it is named after.
  */
  lemma InsertStatementPlaceholder(rates: seq<string>, i: nat)
    requires i < |InsertColumns(rates)|
    ensures var cols := InsertColumns(rates);
            var sql := InsertStatement(rates);
            var phs := Placeholders(cols);
            var at := |InsertHead| + |Join(Separator, cols)| + |InsertMiddle| + Offset(Separator, phs, i);
            phs[i] == ":" + cols[i] &&
            at + |phs[i]| <= |sql| && sql[at..at + |phs[i]|] == phs[i]
  {
    var cols := InsertColumns(rates);
    JoinedPartInFourthOfFive(InsertHead, Join(Separator, cols), InsertMiddle, Separator, Placeholders(cols), InsertTail, i);
  }
}
