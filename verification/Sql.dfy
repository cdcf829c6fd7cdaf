/**
  The storage layer that the generated builders talk to, reduced to what they
  rely on: a table is a sequence of rows in storage order, a selector denotes a
  sequence of rows, and nothing else about SQL is visible.
 */
module Sql {

  type Uuid = int

  /** The value of an unset `uuid.UUID` variable. */
  const NIL_UUID: Uuid := 0

  datatype Option<+T> = None | Some(value: T)

  datatype Error =
    | InvalidField(name: string)
    | UnexpectedForeignKey(key: Uuid)
    | NilForeignKey(id: Uuid)
    | NotFound
    | NotSingular
    | NotLoaded
    | ScanColumns(columns: nat)

  datatype Result<+T> = Success(value: T) | Failure(error: Error) {
    predicate IsFailure() { Failure? }

    function PropagateFailure<U>(): Result<U>
      requires Failure?
    {
      Failure(error)
    }

    function Extract(): T
      requires Success?
    {
      value
    }
  }

  /** A cell. Only identifiers are interpreted by the joins; `Scalar` stands for every other column type. */
  datatype Value = Null | Id(id: Uuid) | Scalar(rank: int)

  type Row = map<string, Value>

  // ---------------------------------------------------------------------
  // Predicates
  // ---------------------------------------------------------------------

  /**
    A predicate handed to `Where`: either an arbitrary condition of the caller,
    or the membership test that eager loading adds to a sub-query.
   */
  datatype Pred = Given(f: Row -> bool) | ColumnIn(column: string, ids: seq<Uuid>)

  predicate Holds(p: Pred, r: Row) {
    match p
    case Given(f) => f(r)
    case ColumnIn(column, ids) => column in r && r[column].Id? && r[column].id in ids
  }

  predicate AllHold(ps: seq<Pred>, r: Row) {
    forall i | 0 <= i < |ps| :: Holds(ps[i], r)
  }

  function Filter(ps: seq<Pred>, rows: seq<Row>): (kept: seq<Row>)
    ensures forall r :: r in kept <==> r in rows && AllHold(ps, r)
  {
    if rows == [] then []
    else if AllHold(ps, rows[0]) then [rows[0]] + Filter(ps, rows[1..])
    else Filter(ps, rows[1..])
  }

  // ---------------------------------------------------------------------
  // ORDER BY
  // ---------------------------------------------------------------------

  /** One ordering term; `key` is the rank of a row in the collation order of the chosen column. */
  datatype OrderTerm = OrderTerm(key: Row -> int, desc: bool) {
    function Rank(r: Row): int {
      if desc then -key(r) else key(r)
    }
  }

  predicate AtMost(terms: seq<OrderTerm>, a: Row, b: Row) {
    terms == [] ||
    (var ra, rb := terms[0].Rank(a), terms[0].Rank(b);
     ra < rb || (ra == rb && AtMost(terms[1..], a, b)))
  }

  predicate Sorted(terms: seq<OrderTerm>, rows: seq<Row>) {
    forall i, j | 0 <= i < j < |rows| :: AtMost(terms, rows[i], rows[j])
  }

  function Insert(terms: seq<OrderTerm>, r: Row, rows: seq<Row>): (s: seq<Row>)
    ensures |s| == |rows| + 1
    ensures forall x :: x in s <==> x == r || x in rows
  {
    if rows == [] then [r]
    else if AtMost(terms, r, rows[0]) then [r] + rows
    else [rows[0]] + Insert(terms, r, rows[1..])
  }

  /** Stable sort: rows that no term separates keep their storage order. */
  function Sort(terms: seq<OrderTerm>, rows: seq<Row>): (s: seq<Row>)
    ensures |s| == |rows|
    ensures forall x :: x in s <==> x in rows
  {
    if rows == [] then [] else Insert(terms, rows[0], Sort(terms, rows[1..]))
  }

  // ---------------------------------------------------------------------
  // SELECT [DISTINCT] columns ... LIMIT ... OFFSET
  // ---------------------------------------------------------------------

  function Project(columns: seq<string>, r: Row): (p: Row)
    ensures forall c :: c in p <==> c in columns && c in r
    ensures forall c :: c in p ==> p[c] == r[c]
  {
    map c | c in columns && c in r :: r[c]
  }

  /** DISTINCT over the selected columns; the first of several equal tuples survives. */
  function Distinct(columns: seq<string>, rows: seq<Row>): (d: seq<Row>)
    ensures |d| <= |rows|
    ensures forall x :: x in d ==> x in rows
    decreases |rows|
  {
    if rows == [] then []
    else
      var init, last := Distinct(columns, rows[..|rows| - 1]), rows[|rows| - 1];
      if exists x :: x in init && Project(columns, x) == Project(columns, last) then init else init + [last]
  }

  function Window(offset: Option<nat>, limit: Option<nat>, rows: seq<Row>): (w: seq<Row>)
    ensures |w| <= |rows|
    ensures forall x :: x in w ==> x in rows
  {
    var o := if offset.None? then 0 else if offset.value <= |rows| then offset.value else |rows|;
    var rest := rows[o..];
    if limit.None? || |rest| <= limit.value then rest else rest[..limit.value]
  }

  datatype Selector = Selector(
    columns: seq<string>,
    distinct: bool,
    preds: seq<Pred>,
    order: seq<OrderTerm>,
    offset: Option<nat>,
    limit: Option<nat>
  )

  function Unwindowed(s: Selector, from: seq<Row>): (rows: seq<Row>)
    ensures |rows| <= |from|
    ensures forall x :: x in rows ==> x in from && AllHold(s.preds, x)
  {
    var kept := Filter(s.preds, from);
    FilterShrinks(s.preds, from);
    Sort(s.order, if s.distinct then Distinct(s.columns, kept) else kept)
  }

  /** The rows a selector yields, before they are cut down to its columns. */
  function Execute(s: Selector, from: seq<Row>): (rows: seq<Row>)
    ensures |rows| <= |from|
    ensures forall x :: x in rows ==> x in from && AllHold(s.preds, x)
  {
    Window(s.offset, s.limit, Unwindowed(s, from))
  }

  // ---------------------------------------------------------------------
  // Identifiers
  // ---------------------------------------------------------------------

  predicate HasId(r: Row) {
    "id" in r && r["id"].Id?
  }

  /** The `ID` field of a node whose cells are `r`; an unselected id keeps the zero value. */
  function IdOf(r: Row): Uuid {
    if HasId(r) then r["id"].id else NIL_UUID
  }

  function IdsOf(rows: seq<Row>): (ids: seq<Uuid>)
    ensures |ids| == |rows|
    ensures forall i :: 0 <= i < |ids| ==> ids[i] == IdOf(rows[i])
  {
    seq(|rows|, i requires 0 <= i < |rows| => IdOf(rows[i]))
  }

  ghost predicate DistinctIds(rows: seq<Row>) {
    (forall r | r in rows :: HasId(r)) &&
    forall i, j | 0 <= i < j < |rows| :: IdOf(rows[i]) != IdOf(rows[j])
  }

  /** `from` holds rows of `table` only, possibly several times each. */
  ghost predicate DrawnFrom(from: seq<Row>, table: seq<Row>) {
    forall r | r in from :: r in table
  }

  // ---------------------------------------------------------------------
  // Laws
  // ---------------------------------------------------------------------

  lemma {:induction false} FilterShrinks(ps: seq<Pred>, rows: seq<Row>)
    ensures |Filter(ps, rows)| <= |rows|
  {
    if rows != [] {
      FilterShrinks(ps, rows[1..]);
    }
  }

  lemma {:induction false} AtMostTotal(terms: seq<OrderTerm>, a: Row, b: Row)
    ensures AtMost(terms, a, b) || AtMost(terms, b, a)
  {
    if terms != [] {
      AtMostTotal(terms[1..], a, b);
    }
  }

  lemma {:induction false} AtMostTransitive(terms: seq<OrderTerm>, a: Row, b: Row, c: Row)
    requires AtMost(terms, a, b) && AtMost(terms, b, c)
    ensures AtMost(terms, a, c)
  {
    if terms != [] && AtMost(terms[1..], a, b) && AtMost(terms[1..], b, c) {
      AtMostTransitive(terms[1..], a, b, c);
    }
  }

  lemma InsertSorted(terms: seq<OrderTerm>, r: Row, rows: seq<Row>)
    requires Sorted(terms, rows)
    ensures Sorted(terms, Insert(terms, r, rows))
  {
    if rows == [] {
    } else if AtMost(terms, r, rows[0]) {
      forall j | 0 <= j < |rows|
        ensures AtMost(terms, r, rows[j])
      {
        if j > 0 {
          AtMostTransitive(terms, r, rows[0], rows[j]);
        }
      }
    } else {
      AtMostTotal(terms, r, rows[0]);
      var rest := Insert(terms, r, rows[1..]);
      InsertSorted(terms, r, rows[1..]);
      forall x | x in rest
        ensures AtMost(terms, rows[0], x)
      {
      }
    }
  }

  /** ORDER BY returns its input as a permutation in which every pair is in order. */
  lemma {:induction false} SortIsSorted(terms: seq<OrderTerm>, rows: seq<Row>)
    ensures Sorted(terms, Sort(terms, rows))
    ensures multiset(Sort(terms, rows)) == multiset(rows)
  {
    if rows != [] {
      SortIsSorted(terms, rows[1..]);
      InsertSorted(terms, rows[0], Sort(terms, rows[1..]));
      InsertMultiset(terms, rows[0], Sort(terms, rows[1..]));
      assert rows == [rows[0]] + rows[1..];
    }
  }

  /** Two rows are in the order that one term asks for. */
  predicate InOrder(term: OrderTerm, a: Row, b: Row) {
    if term.desc then term.key(a) >= term.key(b) else term.key(a) <= term.key(b)
  }

  /** No term before `t` tells the rows apart. */
  predicate TiedBefore(terms: seq<OrderTerm>, t: nat, a: Row, b: Row)
    requires t <= |terms|
  {
    forall s | 0 <= s < t :: terms[s].key(a) == terms[s].key(b)
  }

  /** The order of several terms is lexicographic, and each term is ascending or descending by itself. */
  lemma {:induction false} AtMostIsLexicographic(terms: seq<OrderTerm>, a: Row, b: Row)
    ensures AtMost(terms, a, b) <==>
            forall t | 0 <= t < |terms| && TiedBefore(terms, t, a, b) :: InOrder(terms[t], a, b)
  {
    if terms != [] {
      var rest := terms[1..];
      AtMostIsLexicographic(rest, a, b);
      forall t | 0 <= t < |rest|
        ensures TiedBefore(terms, t + 1, a, b) <==>
                terms[0].key(a) == terms[0].key(b) && TiedBefore(rest, t, a, b)
      {
        assert forall s | 0 <= s < t :: rest[s] == terms[s + 1];
        assert forall s | 0 < s <= t :: terms[s] == rest[s - 1];
      }
      assert TiedBefore(terms, 0, a, b);
      if AtMost(terms, a, b) {
        forall t | 0 <= t < |terms| && TiedBefore(terms, t, a, b)
          ensures InOrder(terms[t], a, b)
        {
          if t > 0 {
            assert TiedBefore(rest, t - 1, a, b) && terms[t] == rest[t - 1];
          }
        }
      } else if terms[0].key(a) == terms[0].key(b) {
        var t :| 0 <= t < |rest| && TiedBefore(rest, t, a, b) && !InOrder(rest[t], a, b);
        assert TiedBefore(terms, t + 1, a, b) && !InOrder(terms[t + 1], a, b);
      }
    }
  }

  /** No term tells the rows apart. */
  predicate Tied(terms: seq<OrderTerm>, a: Row, b: Row) {
    forall t | 0 <= t < |terms| :: terms[t].key(a) == terms[t].key(b)
  }

  lemma {:induction false} TiedIsAtMost(terms: seq<OrderTerm>, a: Row, b: Row)
    requires Tied(terms, a, b)
    ensures AtMost(terms, a, b)
  {
    if terms != [] {
      TiedIsAtMost(terms[1..], a, b);
    }
  }

  lemma {:induction false} SortOfTied(terms: seq<OrderTerm>, rows: seq<Row>)
    requires forall a, b | a in rows && b in rows :: Tied(terms, a, b)
    ensures Sort(terms, rows) == rows
  {
    if rows != [] {
      SortOfTied(terms, rows[1..]);
      if |rows| > 1 {
        assert rows[1..][0] == rows[1] && rows[1] in rows;
        TiedIsAtMost(terms, rows[0], rows[1]);
      }
      assert rows == [rows[0]] + rows[1..];
    }
  }

  /** Rows that no term tells apart stay in the order in which they are stored. */
  lemma SortIsStable(terms: seq<OrderTerm>, rows: seq<Row>, r: Row)
    ensures var tied := Given(x => Tied(terms, x, r));
            Filter([tied], Sort(terms, rows)) == Filter([tied], rows)
  {
    var tied := Given(x => Tied(terms, x, r));
    FilterSort([tied], terms, rows);
    var kept := Filter([tied], rows);
    forall x | x in kept
      ensures Tied(terms, x, r)
    {
      assert Holds([tied][0], x);
    }
    SortOfTied(terms, kept);
  }

  lemma {:induction false} InsertMultiset(terms: seq<OrderTerm>, r: Row, rows: seq<Row>)
    ensures multiset(Insert(terms, r, rows)) == multiset(rows) + multiset{r}
  {
    if rows != [] && !AtMost(terms, r, rows[0]) {
      InsertMultiset(terms, r, rows[1..]);
      assert rows == [rows[0]] + rows[1..];
    }
  }

  lemma {:induction false} FilterInsert(ps: seq<Pred>, terms: seq<OrderTerm>, r: Row, rows: seq<Row>)
    requires Sorted(terms, rows)
    ensures Filter(ps, Insert(terms, r, rows)) ==
            if AllHold(ps, r) then Insert(terms, r, Filter(ps, rows)) else Filter(ps, rows)
  {
    if rows == [] {
    } else if AtMost(terms, r, rows[0]) {
      assert ([r] + rows)[1..] == rows;
      var kept := Filter(ps, rows);
      if kept != [] {
        assert kept[0] in rows;
        var j :| 0 <= j < |rows| && rows[j] == kept[0];
        if j > 0 {
          AtMostTransitive(terms, r, rows[0], rows[j]);
        }
      }
    } else {
      FilterInsert(ps, terms, r, rows[1..]);
      var rest := Insert(terms, r, rows[1..]);
      assert ([rows[0]] + rest)[1..] == rest;
      if AllHold(ps, rows[0]) {
        assert ([rows[0]] + Filter(ps, rows[1..]))[1..] == Filter(ps, rows[1..]);
      } else if AllHold(ps, r) {
        // The head is dropped on both sides.
      }
    }
  }

  /** Filtering commutes with the stable sort, whatever the ordering terms are. */
  lemma {:induction false} FilterSort(ps: seq<Pred>, terms: seq<OrderTerm>, rows: seq<Row>)
    ensures Filter(ps, Sort(terms, rows)) == Sort(terms, Filter(ps, rows))
  {
    if rows != [] {
      FilterSort(ps, terms, rows[1..]);
      SortIsSorted(terms, rows[1..]);
      FilterInsert(ps, terms, rows[0], Sort(terms, rows[1..]));
    }
  }

  lemma AllHoldConcat(ps: seq<Pred>, qs: seq<Pred>, r: Row)
    ensures AllHold(ps + qs, r) <==> AllHold(ps, r) && AllHold(qs, r)
  {
    if AllHold(ps + qs, r) {
      forall i | 0 <= i < |qs|
        ensures Holds(qs[i], r)
      {
        assert qs[i] == (ps + qs)[|ps| + i];
      }
      forall i | 0 <= i < |ps|
        ensures Holds(ps[i], r)
      {
        assert ps[i] == (ps + qs)[i];
      }
    }
  }

  lemma {:induction false} FilterTwice(ps: seq<Pred>, qs: seq<Pred>, rows: seq<Row>)
    ensures Filter(qs, Filter(ps, rows)) == Filter(ps + qs, rows)
  {
    if rows != [] {
      FilterTwice(ps, qs, rows[1..]);
      AllHoldConcat(ps, qs, rows[0]);
    }
  }

  lemma {:induction false} FilterAgree(ps: seq<Pred>, qs: seq<Pred>, rows: seq<Row>)
    requires forall r | r in rows :: AllHold(ps, r) <==> AllHold(qs, r)
    ensures Filter(ps, rows) == Filter(qs, rows)
  {
    if rows != [] {
      FilterAgree(ps, qs, rows[1..]);
    }
  }

  lemma {:induction false} FilterDistinctIds(ps: seq<Pred>, rows: seq<Row>)
    requires DistinctIds(rows)
    ensures DistinctIds(Filter(ps, rows))
  {
    if rows != [] {
      assert DistinctIds(rows[1..]);
      FilterDistinctIds(ps, rows[1..]);
      var rest := Filter(ps, rows[1..]);
      forall r | r in rest
        ensures IdOf(r) != IdOf(rows[0])
      {
        assert r in rows[1..];
      }
    }
  }

  lemma {:induction false} InsertDistinctIds(terms: seq<OrderTerm>, r: Row, rows: seq<Row>)
    requires DistinctIds(rows) && HasId(r)
    requires forall x | x in rows :: IdOf(x) != IdOf(r)
    ensures DistinctIds(Insert(terms, r, rows))
  {
    if rows != [] && !AtMost(terms, r, rows[0]) {
      assert DistinctIds(rows[1..]);
      InsertDistinctIds(terms, r, rows[1..]);
      var rest := Insert(terms, r, rows[1..]);
      forall x | x in rest
        ensures IdOf(x) != IdOf(rows[0])
      {
        assert x == r || x in rows[1..];
      }
    }
  }

  lemma {:induction false} SortDistinctIds(terms: seq<OrderTerm>, rows: seq<Row>)
    requires DistinctIds(rows)
    ensures DistinctIds(Sort(terms, rows))
  {
    if rows != [] {
      assert DistinctIds(rows[1..]);
      SortDistinctIds(terms, rows[1..]);
      InsertDistinctIds(terms, rows[0], Sort(terms, rows[1..]));
    }
  }

  lemma DistinctStep(columns: seq<string>, init: seq<Row>, last: Row)
    ensures Distinct(columns, init + [last]) ==
            Distinct(columns, init) + if ShowsTuple(columns, Distinct(columns, init), last) then [] else [last]
  {
    assert (init + [last])[..|init|] == init;
  }

  /** Some row shows the tuple of `r`. */
  predicate ShowsTuple(columns: seq<string>, rows: seq<Row>, r: Row) {
    exists x :: x in rows && Project(columns, x) == Project(columns, r)
  }

  /** When the id is selected and identifies the rows, DISTINCT has nothing to remove. */
  lemma {:induction false} DistinctKeepsAll(columns: seq<string>, rows: seq<Row>)
    requires "id" in columns && DistinctIds(rows)
    ensures Distinct(columns, rows) == rows
    decreases |rows|
  {
    if rows != [] {
      hide Distinct, Project;
      var init, last := rows[..|rows| - 1], rows[|rows| - 1];
      assert rows == init + [last];
      DistinctKeepsAll(columns, init);
      DistinctStep(columns, init, last);
      forall x | x in init
        ensures Project(columns, x) != Project(columns, last)
      {
        SameIdInProjection(columns, x, last);
      }
    }
  }

  /** All rows show different tuples. */
  predicate TuplesDiffer(columns: seq<string>, rows: seq<Row>) {
    forall i, j | 0 <= i < j < |rows| :: Project(columns, rows[i]) != Project(columns, rows[j])
  }

  predicate ShowsAll(columns: seq<string>, shown: seq<Row>, rows: seq<Row>) {
    forall r | r in rows :: ShowsTuple(columns, shown, r)
  }

  /**
    DISTINCT keeps one row of every tuple that occurs, in the order in which the
    tuples first occur: a longer input only adds rows at the end.
   */
  lemma {:induction false} DistinctIsExact(columns: seq<string>, rows: seq<Row>)
    ensures TuplesDiffer(columns, Distinct(columns, rows)) && ShowsAll(columns, Distinct(columns, rows), rows)
    ensures rows != [] ==> Distinct(columns, rows[..|rows| - 1]) <= Distinct(columns, rows)
    decreases |rows|
  {
    if rows != [] {
      hide *;
      var init, last := rows[..|rows| - 1], rows[|rows| - 1];
      assert rows == init + [last];
      DistinctIsExact(columns, init);
      DistinctStep(columns, init, last);
      TupleAdded(columns, Distinct(columns, init), init, last);
    }
  }

  lemma TupleAdded(columns: seq<string>, shown: seq<Row>, init: seq<Row>, last: Row)
    requires TuplesDiffer(columns, shown) && ShowsAll(columns, shown, init)
    ensures var longer := if ShowsTuple(columns, shown, last) then shown else shown + [last];
            TuplesDiffer(columns, longer) && ShowsAll(columns, longer, init + [last])
  {
    hide Project;
    if !ShowsTuple(columns, shown, last) {
      forall r | r in init + [last]
        ensures ShowsTuple(columns, shown + [last], r)
      {
        TupleStays(columns, shown, last, r);
      }
      TupleIsNew(columns, shown, last);
    }
  }

  lemma TupleStays(columns: seq<string>, rows: seq<Row>, last: Row, r: Row)
    ensures ShowsTuple(columns, rows, r) || r == last ==> ShowsTuple(columns, rows + [last], r)
  {
    hide Project;
    assert last in rows + [last];
    if ShowsTuple(columns, rows, r) {
      var x :| x in rows && Project(columns, x) == Project(columns, r);
      assert x in rows + [last];
    }
  }

  lemma TupleIsNew(columns: seq<string>, rows: seq<Row>, last: Row)
    requires TuplesDiffer(columns, rows) && !ShowsTuple(columns, rows, last)
    ensures TuplesDiffer(columns, rows + [last])
  {
    hide Project;
    assert forall i | 0 <= i < |rows| :: rows[i] in rows;
  }

  lemma SameIdInProjection(columns: seq<string>, a: Row, b: Row)
    requires "id" in columns && HasId(a) && HasId(b)
    ensures Project(columns, a) == Project(columns, b) ==> IdOf(a) == IdOf(b)
  {
    if Project(columns, a) == Project(columns, b) {
      assert Project(columns, a)["id"] == a["id"] && Project(columns, b)["id"] == b["id"];
    }
  }

  /**
    DISTINCT over any column list that holds the id removes the same rows: in a
    table the id determines the row, so equal tuples come from equal rows.
   */
  lemma {:induction false} DistinctIgnoresColumns(c1: seq<string>, c2: seq<string>, from: seq<Row>, table: seq<Row>)
    requires "id" in c1 && "id" in c2
    requires DistinctIds(table) && DrawnFrom(from, table)
    ensures Distinct(c1, from) == Distinct(c2, from)
    decreases |from|
  {
    if from != [] {
      var init, last := from[..|from| - 1], from[|from| - 1];
      DistinctIgnoresColumns(c1, c2, init, table);
      forall x | x in init
        ensures Project(c1, x) == Project(c1, last) <==> Project(c2, x) == Project(c2, last)
      {
        assert x in from && last in from;
        SameIdInProjection(c1, x, last);
        SameIdInProjection(c2, x, last);
        if IdOf(x) == IdOf(last) {
          SameIdSameRow(table, x, last);
        }
      }
    }
  }

  lemma SameIdSameRow(table: seq<Row>, a: Row, b: Row)
    requires DistinctIds(table) && a in table && b in table && IdOf(a) == IdOf(b)
    ensures a == b
  {
    var i :| 0 <= i < |table| && table[i] == a;
    var j :| 0 <= j < |table| && table[j] == b;
    assert i == j;
  }
}
