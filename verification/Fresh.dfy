/**
  Exactly when a builder executed again on a changed store loads what a fresh one
  would: the whole graph, with any limits and offsets on its sub-queries.
 */
module Fresh {
  import opened Sql
  import opened Schema
  import opened Plan
  import opened Join
  import opened Projection
  import opened Terminal
  import opened Edges
  import opened Traversal
  import opened Limits
  import opened NestedLoop
  import opened Rerun
  import opened Stale

  // ---------------------------------------------------------------------
  // What the stale filters take
  // ---------------------------------------------------------------------

  /** Filtering a sub-query once more leaves it the rows it reads. */
  ghost predicate FilterKeeps(c: Plan, pred: Pred, db: Db)
    requires WellFormed(c)
  {
    RawRows(AddPred(c, pred), db) == RawRows(c, db)
  }

  /**
    At every level that the first run reached, the filter it left takes none of the
    rows from the fresh sub-query. `first` is the request as the first run saw it,
    with the keys of `before`; `anew` the same request with the keys of `now`.
   */
  ghost predicate Covered(first: Plan, anew: Plan, before: Db, now: Db)
    requires WellFormed(first) && WellFormed(anew) && first.one == anew.one && first.many == anew.many
    requires first.sel.entity == anew.sel.entity
    decreases Depth(first)
  {
    var was, here := Cells(first, before), Cells(anew, now);
    && (ReachedOne(first, before) && OneKeys(anew, here) != [] ==>
          && FilterKeeps(OneChild(anew, here), ColumnIn("id", OneKeys(first, was)), now)
          && Covered(OneChild(first, was), OneChild(anew, here), before, now))
    && (ReachedMany(first, before) && here != [] ==>
          && FilterKeeps(
               ManyChild(anew, here), ColumnIn(first.many.value.sel.entity.one.value.column, IdsOf(was)), now)
          && Covered(ManyChild(first, was), ManyChild(anew, here), before, now))
  }

  /** Without a limit and an offset: every row that the fresh sub-query reads has a key that was asked for. */
  lemma KeepsIff(c: Plan, pred: Pred, db: Db)
    requires WellFormed(c) && c.sel.path.None? && ValidDb(db) && Unlimited(c.sel)
    ensures FilterKeeps(c, pred, db) <==> forall r :: r in RawRows(c, db) ==> Holds(pred, r)
  {
    hide RawRows, Cut, Sort;
    FilteredIsCut(c, pred, db);
    NoWindow(c);
    CutNothing(RawRows(Uncut(c), db));
    CutNothing(Filter([pred], RawRows(Uncut(c), db)));
    FilterOfOne(pred, RawRows(c, db));
  }

  lemma {:induction false} FilterOfOne(pred: Pred, rows: seq<Row>)
    ensures Filter([pred], rows) == rows <==> forall r :: r in rows ==> Holds(pred, r)
  {
    assert forall r :: AllHold([pred], r) <==> Holds([pred][0], r);
    if forall r :: r in rows ==> Holds(pred, r) {
      KeepsAll([pred], rows);
    }
  }

  lemma {:induction false} KeepsAll(ps: seq<Pred>, rows: seq<Row>)
    requires forall r | r in rows :: AllHold(ps, r)
    ensures Filter(ps, rows) == rows
  {
    if rows != [] {
      KeepsAll(ps, rows[1..]);
    }
  }

  /** Predicates that agree on the rows a query starts from let it read the same rows. */
  lemma AgreeingPreds(c: Plan, ps: seq<Pred>, db: Db)
    requires WellFormed(c) && forall r | r in From(c.sel, db) :: AllHold(ps, r) <==> AllHold(c.sel.preds, r)
    ensures RawRows(c.(sel := c.sel.(preds := ps)), db) == RawRows(c, db)
  {
    hide AllHold, Distinct, Sort, Window, Filter;
    FilterAgree(ps, c.sel.preds, From(c.sel, db));
  }

  /** With any window: it is enough that every key needed now was asked for before. */
  lemma AskedKeysKeep(c: Plan, column: string, keys: seq<Uuid>, asked: seq<Uuid>, db: Db)
    requires WellFormed(c) && forall k | k in keys :: k in asked
    ensures FilterKeeps(AddPred(c, ColumnIn(column, keys)), ColumnIn(column, asked), db)
  {
    hide RawRows;
    var a, b := ColumnIn(column, asked), ColumnIn(column, keys);
    forall r | r in From(c.sel, db)
      ensures AllHold(c.sel.preds + [b] + [a], r) <==> AllHold(c.sel.preds + [b], r)
    {
      AllHoldConcat(c.sel.preds, [b], r);
      AllHoldConcat(c.sel.preds + [b], [a], r);
      assert AllHold([a], r) <==> Holds([a][0], r);
      assert AllHold([b], r) <==> Holds([b][0], r);
    }
    AgreeingPreds(AddPred(c, b), c.sel.preds + [b] + [a], db);
  }

  lemma SameSelection(q: Plan, n: Plan, db: Db)
    requires WellFormed(q) && WellFormed(n) && q.sel == n.sel && q.one.Some? == n.one.Some?
    ensures RawRows(q, db) == RawRows(n, db) && Cells(q, db) == Cells(n, db)
  {
  }

  lemma SameRowsSameCells(q: Plan, n: Plan, db: Db)
    requires WellFormed(q) && WellFormed(n) && q.sel.fields == n.sel.fields && q.sel.entity == n.sel.entity
    requires q.one.Some? == n.one.Some? && RawRows(q, db) == RawRows(n, db)
    ensures Cells(q, db) == Cells(n, db)
  {
    hide RawRows;
  }

  /** The second run's sub-query reads what the fresh one would with the first run's filter added. */
  lemma StaleRows(q: Plan, n: Plan, ps: seq<Pred>, column: string, asked: seq<Uuid>, keys: seq<Uuid>, db: Db)
    requires WellFormed(q) && WellFormed(n) && q.one.Some? == n.one.Some?
    requires n.sel.preds == ps + [ColumnIn(column, keys)]
    requires q.sel == n.sel.(preds := ps + [ColumnIn(column, asked)] + [ColumnIn(column, keys)])
    ensures RawRows(q, db) == RawRows(AddPred(n, ColumnIn(column, asked)), db)
    ensures FilterKeeps(n, ColumnIn(column, asked), db) ==> Cells(q, db) == Cells(n, db)
  {
    hide RawRows, Cells;
    var a := ColumnIn(column, asked);
    forall r | r in From(n.sel, db)
      ensures AllHold(q.sel.preds, r) <==> AllHold(n.sel.preds + [a], r)
    {
      StaleHolds(ps, column, asked, keys, r);
      AllHoldConcat(n.sel.preds, [a], r);
      assert AllHold([a], r) <==> Holds([a][0], r);
    }
    var filtered := AddPred(n, a);
    AgreeingPreds(filtered, q.sel.preds, db);
    SameSelection(q, filtered.(sel := filtered.sel.(preds := q.sel.preds)), db);
    if FilterKeeps(n, a, db) {
      SameRowsSameCells(q, n, db);
    }
  }

  lemma OneStaleRows(first: Plan, anew: Plan, q: Plan, before: Db, now: Db)
    requires WellFormed(first) && WellFormed(anew) && WellFormed(q)
    requires first.one == anew.one && first.sel.entity == anew.sel.entity == q.sel.entity
    requires q.one == After(first, before).one && ReachedOne(first, before)
    ensures var was, here := Cells(first, before), Cells(anew, now);
            var n, child, asked := OneChild(anew, here), OneChild(q, here), ColumnIn("id", OneKeys(first, was));
            && RawRows(child, now) == RawRows(AddPred(n, asked), now)
            && (FilterKeeps(n, asked, now) ==> Cells(child, now) == Cells(n, now))
  {
    var was, here := Cells(first, before), Cells(anew, now);
    StaleRows(
      OneChild(q, here), OneChild(anew, here), first.one.value.sel.preds, "id", OneKeys(first, was),
      OneKeys(anew, here), now);
  }

  lemma ManyStaleRows(first: Plan, anew: Plan, q: Plan, before: Db, now: Db)
    requires WellFormed(first) && WellFormed(anew) && WellFormed(q)
    requires first.many == anew.many && first.sel.entity == anew.sel.entity == q.sel.entity
    requires q.many == After(first, before).many && ReachedMany(first, before)
    ensures var was, here := Cells(first, before), Cells(anew, now);
            var column := first.many.value.sel.entity.one.value.column;
            var n, child, asked := ManyChild(anew, here), ManyChild(q, here), ColumnIn(column, IdsOf(was));
            && RawRows(child, now) == RawRows(AddPred(n, asked), now)
            && (FilterKeeps(n, asked, now) ==> Cells(child, now) == Cells(n, now))
  {
    var was, here := Cells(first, before), Cells(anew, now);
    var c := ManyChild(first, was);
    assert SelectKey(After(c, before)) == After(c, before);
    StaleRows(
      ManyChild(q, here), ManyChild(anew, here), first.many.value.sel.preds, c.sel.entity.one.value.column,
      IdsOf(was), IdsOf(here), now);
  }

  // ---------------------------------------------------------------------
  // Covered means fresh
  // ---------------------------------------------------------------------

  lemma {:induction false} RunsCovered(first: Plan, anew: Plan, q: Plan, before: Db, now: Db)
    requires WellFormed(first) && WellFormed(anew) && WellFormed(q)
    requires first.one == anew.one && first.many == anew.many
    requires first.sel.entity == anew.sel.entity == q.sel.entity
    requires first.sel.fields == anew.sel.fields == q.sel.fields
    requires q.one == After(first, before).one && q.many == After(first, before).many
    requires Cells(q, now) == Cells(anew, now)
    requires Covered(first, anew, before, now)
    ensures Run(q, now) == Run(anew, now)
    decreases Depth(first), 1
  {
    var was, here := Cells(first, before), Cells(anew, now);
    if InvalidFields(q.sel) == [] && here != [] {
      OneCovered(first, anew, q, before, now);
      if RunOne(anew, here, now).Success? {
        ManyCovered(first, anew, q, before, now);
      }
      EqualParts(anew, q, now);
    }
  }

  lemma {:induction false} OneCovered(first: Plan, anew: Plan, q: Plan, before: Db, now: Db)
    requires WellFormed(first) && WellFormed(anew) && WellFormed(q)
    requires first.one == anew.one && first.many == anew.many
    requires first.sel.entity == anew.sel.entity == q.sel.entity
    requires q.one == After(first, before).one
    requires Covered(first, anew, before, now)
    ensures RunOne(q, Cells(anew, now), now) == RunOne(anew, Cells(anew, now), now)
    decreases Depth(first), 0
  {
    var was, here := Cells(first, before), Cells(anew, now);
    if first.one.Some? && OneKeys(anew, here) != [] {
      if ReachedOne(first, before) {
        OneStaleRows(first, anew, q, before, now);
        RunsCovered(OneChild(first, was), OneChild(anew, here), OneChild(q, here), before, now);
      } else {
        assert OneChild(q, here) == OneChild(anew, here);
      }
    }
  }

  lemma {:induction false} ManyCovered(first: Plan, anew: Plan, q: Plan, before: Db, now: Db)
    requires WellFormed(first) && WellFormed(anew) && WellFormed(q)
    requires first.one == anew.one && first.many == anew.many
    requires first.sel.entity == anew.sel.entity == q.sel.entity
    requires q.many == After(first, before).many
    requires Covered(first, anew, before, now) && Cells(anew, now) != []
    ensures RunMany(q, Cells(anew, now), now) == RunMany(anew, Cells(anew, now), now)
    decreases Depth(first), 0
  {
    var was, here := Cells(first, before), Cells(anew, now);
    if first.many.Some? {
      if ReachedMany(first, before) {
        ManyStaleRows(first, anew, q, before, now);
        var c := ManyChild(first, was);
        assert SelectKey(After(c, before)) == After(c, before);
        RunsCovered(c, ManyChild(anew, here), ManyChild(q, here), before, now);
      } else {
        assert ManyChild(q, here) == ManyChild(anew, here);
      }
    }
  }

  /**
    Executed again on a changed store, a builder loads what a fresh one would, or
    reports the same error, if the filters of the first run take no row from a level
    that it reached.
   */
  lemma SecondRunIsFresh(p: Plan, before: Db, now: Db)
    requires WellFormed(p) && Covered(p, p, before, now)
    ensures Run(After(p, before), now) == Run(p, now)
  {
    SameCellsAfter(p, before, now);
    RunsCovered(p, p, After(p, before), before, now);
  }

  // ---------------------------------------------------------------------
  // Fresh means covered
  // ---------------------------------------------------------------------

  lemma FilteredIsCut(c: Plan, pred: Pred, db: Db)
    requires WellFormed(c) && c.sel.path.None? && ValidDb(db)
    ensures var all := RawRows(Uncut(c), db);
            && DistinctIds(all)
            && RawRows(c, db) == Cut(all, OffsetOf(c), LimitOf(c))
            && RawRows(AddPred(c, pred), db) == Cut(Filter([pred], all), OffsetOf(c), LimitOf(c))
  {
    hide RawRows, Cut, Sort, Filter, DistinctIds;
    var filtered, table := AddPred(c, pred), db(c.sel.entity);
    TableQueryDistinct(Uncut(c), db);
    RowsAreCut(c, db);
    RowsAreCut(filtered, db);
    RawIsSortedFilter(Uncut(c), db);
    RawIsSortedFilter(Uncut(filtered), db);
    FilterSort([pred], c.sel.order, Filter(c.sel.preds, table));
    FilterTwice(c.sel.preds, [pred], table);
  }

  lemma {:induction false} FilterConcat(ps: seq<Pred>, a: seq<Row>, b: seq<Row>)
    ensures Filter(ps, a + b) == Filter(ps, a) + Filter(ps, b)
  {
    if a == [] {
      assert a + b == b;
    } else {
      assert (a + b)[1..] == a[1..] + b;
      FilterConcat(ps, a[1..], b);
    }
  }

  lemma FilterMiddle(ps: seq<Pred>, a: seq<Row>, b: seq<Row>, c: seq<Row>)
    requires forall r | r in a :: !AllHold(ps, r)
    requires forall r | r in b :: AllHold(ps, r)
    requires forall r | r in c :: !AllHold(ps, r)
    ensures Filter(ps, a + b + c) == b
  {
    hide Filter, AllHold;
    FilterConcat(ps, a + b, c);
    FilterConcat(ps, a, b);
    NothingPasses(ps, a);
    KeepsAll(ps, b);
    NothingPasses(ps, c);
  }

  lemma OwnIds(rows: seq<Row>, lo: nat, hi: nat)
    requires DistinctIds(rows) && lo <= hi <= |rows|
    ensures forall r | r in rows[lo..hi] :: AllHold([ColumnIn("id", IdsOf(rows[lo..hi]))], r)
  {
    var ids := IdsOf(rows[lo..hi]);
    forall i | lo <= i < hi
      ensures AllHold([ColumnIn("id", ids)], rows[i])
    {
      assert ids[i - lo] == IdOf(rows[i]) && rows[i] in rows;
    }
  }

  lemma Stretches(rows: seq<Row>, lo: nat, hi: nat)
    requires lo <= hi <= |rows|
    ensures rows == rows[0..lo] + rows[lo..hi] + rows[hi..|rows|]
  {
  }

  /** A stretch of rows with distinct ids is what its ids filter out of all. */
  lemma StretchIsFilter(rows: seq<Row>, lo: nat, hi: nat)
    requires DistinctIds(rows) && lo <= hi <= |rows|
    ensures Filter([ColumnIn("id", IdsOf(rows[lo..hi]))], rows) == rows[lo..hi]
  {
    hide Filter, AllHold, DistinctIds, IdsOf;
    var ps := [ColumnIn("id", IdsOf(rows[lo..hi]))];
    Stretches(rows, lo, hi);
    OwnIds(rows, lo, hi);
    OtherIds(rows, lo, hi, 0, lo);
    OtherIds(rows, lo, hi, hi, |rows|);
    FilterMiddle(ps, rows[0..lo], rows[lo..hi], rows[hi..|rows|]);
  }

  lemma OtherIds(rows: seq<Row>, lo: nat, hi: nat, from: nat, to: nat)
    requires DistinctIds(rows) && lo <= hi <= |rows| && from <= to <= |rows| && (to <= lo || hi <= from)
    ensures forall r | r in rows[from..to] :: !AllHold([ColumnIn("id", IdsOf(rows[lo..hi]))], r)
  {
    var ids := IdsOf(rows[lo..hi]);
    forall r | r in rows[from..to]
      ensures IdOf(r) !in ids
    {
      var i :| from <= i < to && rows[i] == r;
      assert forall j | 0 <= j < |ids| :: ids[j] == IdOf(rows[lo + j]);
    }
    forall r | r in rows[from..to]
      ensures !Holds([ColumnIn("id", ids)][0], r)
    {
      assert r in rows;
    }
  }

  lemma CutIsStretch(rows: seq<Row>, o: nat, l: nat) returns (lo: nat, hi: nat)
    ensures lo <= hi <= |rows| && Cut(rows, o, l) == rows[lo..hi]
  {
    lo := if |rows| <= o then |rows| else o;
    hi := if l == 0 || |rows| - lo <= l then |rows| else lo + l;
  }

  lemma CutIsFilter(rows: seq<Row>, o: nat, l: nat)
    requires DistinctIds(rows)
    ensures Filter([ColumnIn("id", IdsOf(Cut(rows, o, l)))], rows) == Cut(rows, o, l)
  {
    var lo, hi := CutIsStretch(rows, o, l);
    StretchIsFilter(rows, lo, hi);
  }

  /** Two windows of one table with the same ids show the same rows, even if one is over a filtered table. */
  lemma SameIdsSameRows(rows: seq<Row>, pred: Pred, o: nat, l: nat)
    requires DistinctIds(rows)
    requires forall id :: id in IdsOf(Cut(rows, o, l)) <==> id in IdsOf(Cut(Filter([pred], rows), o, l))
    ensures Cut(rows, o, l) == Cut(Filter([pred], rows), o, l)
  {
    hide Filter, Cut, AllHold, DistinctIds;
    var kept := Filter([pred], rows);
    var a, b := ColumnIn("id", IdsOf(Cut(rows, o, l))), ColumnIn("id", IdsOf(Cut(kept, o, l)));
    CutIsFilter(rows, o, l);
    FilterDistinctIds([pred], rows);
    CutIsFilter(kept, o, l);
    FilterTwice([pred], [b], rows);
    forall r | r in rows
      ensures AllHold([a], r) <==> AllHold([pred] + [b], r)
    {
      ShownRowPasses(rows, pred, Cut(kept, o, l), a, b, r);
    }
    FilterAgree([a], [pred] + [b], rows);
  }

  lemma ShownRowPasses(rows: seq<Row>, pred: Pred, shown: seq<Row>, a: Pred, b: Pred, r: Row)
    requires DistinctIds(rows) && r in rows && a.ColumnIn? && a.column == "id"
    requires b == ColumnIn("id", IdsOf(shown)) && shown == Filter([b], Filter([pred], rows))
    requires forall id :: id in a.ids <==> id in b.ids
    ensures AllHold([a], r) <==> AllHold([pred] + [b], r)
  {
    AllHoldConcat([pred], [b], r);
    assert AllHold([a], r) <==> Holds([a][0], r);
    assert AllHold([b], r) <==> Holds([b][0], r);
    if Holds(b, r) {
      var i :| 0 <= i < |shown| && IdsOf(shown)[i] == IdOf(r);
      assert shown[i] in shown && shown[i] in rows;
      SameIdSameRow(rows, shown[i], r);
    }
  }

  /** If the sub-queries' nodes have the same ids, the filter took nothing. */
  lemma KeepsByIds(n: Plan, pred: Pred, db: Db)
    requires WellFormed(n) && n.sel.path.None? && ValidDb(db)
    requires forall id :: id in IdsOf(RawRows(n, db)) <==> id in IdsOf(RawRows(AddPred(n, pred), db))
    ensures FilterKeeps(n, pred, db)
  {
    hide RawRows, Cut, Filter, DistinctIds;
    FilteredIsCut(n, pred, db);
    SameIdsSameRows(RawRows(Uncut(n), db), pred, OffsetOf(n), LimitOf(n));
  }

  lemma RunIds(c: Plan, db: Db)
    requires WellFormed(c) && c.sel.path.None? && ValidDb(db) && Run(c, db).Success?
    ensures ObjIds(Run(c, db).value) == IdsOf(RawRows(c, db))
    ensures AllDifferent(ObjIds(Run(c, db).value))
  {
    hide Run, Naive, NaiveRows;
    RunHasNaiveCells(c, db);
    TableQueryDistinct(c, db);
    assert Naive(c, db) == NaiveRows(c, RawRows(c, db), db) by {
      NaiveOfRows(c, db);
    }
    ObjIdsOfNaive(c, RawRows(c, db), db);
    assert ObjIds(Run(c, db).value) == ObjIds(Naive(c, db));
  }

  lemma NaiveOfRows(c: Plan, db: Db)
    requires WellFormed(c)
    ensures Naive(c, db) == NaiveRows(c, RawRows(c, db), db)
  {
  }

  /** Two runs with the same result attached the same to every node. */
  lemma SameRunSameParts(a: Plan, b: Plan, db: Db, i: nat)
    requires WellFormed(a) && WellFormed(b) && FieldsValid(a) && FieldsValid(b)
    requires EdgesOf(a) == EdgesOf(b) && Cells(a, db) == Cells(b, db) && Run(a, db) == Run(b, db)
    requires i < |Cells(a, db)|
    requires RunOne(a, Cells(a, db), db).Success? && RunOne(b, Cells(a, db), db).Success?
    requires RunMany(a, Cells(a, db), db).Success? && RunMany(b, Cells(a, db), db).Success?
    ensures var cells, e := Cells(a, db), a.sel.entity;
            a.one.Some? ==>
              AttachOne(e, cells, i, RunOne(a, cells, db).value) == AttachOne(e, cells, i, RunOne(b, cells, db).value)
    ensures var cells := Cells(a, db);
            a.many.Some? ==>
              var e := a.many.value.sel.entity;
              AttachMany(e, cells, i, RunMany(a, cells, db).value) ==
              AttachMany(e, cells, i, RunMany(b, cells, db).value)
  {
    hide Run, RunOne, RunMany, FieldsValid, Cells, AttachOne, AttachMany;
    RunAttaches(a, db, i);
    RunAttaches(b, db, i);
  }

  lemma OneBatch(p: Plan, cells: seq<Row>, db: Db)
    requires WellFormed(p) && p.one.Some? && OneKeys(p, cells) != []
    ensures RunOne(p, cells, db) == Run(OneChild(p, cells), db)
  {
    hide Run, OneKeys;
  }

  lemma SameKeys(a: Plan, b: Plan, cells: seq<Row>)
    requires WellFormed(a) && WellFormed(b) && a.sel.entity == b.sel.entity && a.one.Some? && b.one.Some?
    ensures OneKeys(a, cells) == OneKeys(b, cells)
  {
  }

  lemma SameNeighbours(a: Plan, b: Plan, db: Db)
    requires WellFormed(a) && WellFormed(b) && FieldsValid(a) && FieldsValid(b)
    requires EdgesOf(a) == EdgesOf(b) && Cells(a, db) == Cells(b, db) && Run(a, db) == Run(b, db)
    requires a.one.Some? && OneKeys(a, Cells(a, db)) != []
    ensures Run(OneChild(a, Cells(a, db)), db).Success? && Run(OneChild(b, Cells(a, db)), db).Success?
    ensures forall i | 0 <= i < |Cells(a, db)| ::
              AttachOne(a.sel.entity, Cells(a, db), i, Run(OneChild(a, Cells(a, db)), db).value) ==
              AttachOne(a.sel.entity, Cells(a, db), i, Run(OneChild(b, Cells(a, db)), db).value)
  {
    hide Run, RunOne, RunMany, FieldsValid, Cells, AttachOne, AttachMany, OneKeys, OneChild;
    PartsSucceed(a, db);
    PartsSucceed(b, db);
    SameKeys(a, b, Cells(a, db));
    OneBatch(a, Cells(a, db), db);
    OneBatch(b, Cells(a, db), db);
    forall i | 0 <= i < |Cells(a, db)| {
      SameRunSameParts(a, b, db, i);
    }
  }

  lemma SameLists(a: Plan, b: Plan, db: Db)
    requires WellFormed(a) && WellFormed(b) && FieldsValid(a) && FieldsValid(b)
    requires EdgesOf(a) == EdgesOf(b) && Cells(a, db) == Cells(b, db) && Run(a, db) == Run(b, db)
    requires a.many.Some?
    ensures Run(ManyChild(a, Cells(a, db)), db).Success? && Run(ManyChild(b, Cells(a, db)), db).Success?
    ensures forall i | 0 <= i < |Cells(a, db)| ::
              var e := a.many.value.sel.entity;
              AttachMany(e, Cells(a, db), i, Run(ManyChild(a, Cells(a, db)), db).value) ==
              AttachMany(e, Cells(a, db), i, Run(ManyChild(b, Cells(a, db)), db).value)
  {
    hide Run, RunOne, FieldsValid, Cells, AttachOne, AttachMany, ManyChild;
    PartsSucceed(a, db);
    PartsSucceed(b, db);
    forall i | 0 <= i < |Cells(a, db)| {
      SameRunSameParts(a, b, db, i);
    }
  }

  /** Equal neighbours of all nodes mean equal batches, if every neighbour was asked for. */
  lemma NeighboursTellIds(e: Entity, cells: seq<Row>, a: seq<Obj>, b: seq<Obj>)
    requires e.one.Some? && forall id | id in ObjIds(a) :: Some(id) in KeysOf(e, cells)
    requires forall i | 0 <= i < |cells| :: AttachOne(e, cells, i, a) == AttachOne(e, cells, i, b)
    ensures forall id | id in ObjIds(a) :: id in ObjIds(b)
  {
    hide AttachOne;
    forall id | id in ObjIds(a)
      ensures id in ObjIds(b)
    {
      var i :| 0 <= i < |cells| && KeysOf(e, cells)[i] == Some(id);
      AttachedHasKey(e, cells, i, a);
      AttachedHasKey(e, cells, i, b);
    }
  }

  lemma NeighboursTellBatch(e: Entity, cells: seq<Row>, a: seq<Obj>, b: seq<Obj>)
    requires e.one.Some? && forall id | id in ObjIds(a) :: Some(id) in KeysOf(e, cells)
    requires forall i | 0 <= i < |cells| :: AttachOne(e, cells, i, a) == AttachOne(e, cells, i, b)
    requires ObjIds(a) == ObjIds(b) && AllDifferent(ObjIds(a))
    ensures a == b
  {
    hide AttachOne, AllDifferent;
    assert |a| == |ObjIds(a)| == |ObjIds(b)| == |b|;
    forall j | 0 <= j < |a|
      ensures a[j] == b[j]
    {
      assert ObjIds(a)[j] in ObjIds(a);
      var i :| 0 <= i < |cells| && KeysOf(e, cells)[i] == Some(ObjIds(a)[j]);
      AttachedById(e, cells, i, a, j);
      AttachedById(e, cells, i, b, j);
    }
  }

  lemma {:induction false} SelectedIffKeyed<T>(keys: seq<Option<Uuid>>, xs: seq<T>, k: Uuid, x: T)
    requires |keys| == |xs|
    ensures x in Select(keys, xs, k) <==> exists i :: 0 <= i < |xs| && xs[i] == x && keys[i] == Some(k)
    decreases |keys|
  {
    if keys != [] {
      var n := |keys| - 1;
      SelectedIffKeyed(keys[..n], xs[..n], k, x);
      if i :| 0 <= i < |xs| && xs[i] == x && keys[i] == Some(k) {
        if i < n {
          assert xs[..n][i] == x && keys[..n][i] == Some(k);
        }
      }
    }
  }

  /** Equal lists of all nodes mean equal members, if every member has a node's key. */
  lemma ListsTellMembers(e: Entity, cells: seq<Row>, a: seq<Obj>, b: seq<Obj>)
    requires e.one.Some? && forall key | key in ObjKeys(e, a) :: key.Some? && key.value in IdsOf(cells)
    requires forall i | 0 <= i < |cells| :: AttachMany(e, cells, i, a) == AttachMany(e, cells, i, b)
    ensures forall k | k in IdsOf(cells) :: Select(ObjKeys(e, a), a, k) == Select(ObjKeys(e, b), b, k)
    ensures forall id | id in ObjIds(a) :: id in ObjIds(b)
  {
    hide Select, LastIndex;
    forall k | k in IdsOf(cells)
      ensures Select(ObjKeys(e, a), a, k) == Select(ObjKeys(e, b), b, k)
    {
      var i :| 0 <= i < |cells| && IdsOf(cells)[i] == k;
      var at := LastCopy(cells, i);
      assert AttachMany(e, cells, at, a) == AttachMany(e, cells, at, b);
    }
    forall j | 0 <= j < |a|
      ensures ObjIds(a)[j] in ObjIds(b)
    {
      var key := ObjKeys(e, a)[j];
      assert key in ObjKeys(e, a);
      SelectedIffKeyed(ObjKeys(e, a), a, key.value, a[j]);
      SelectedIffKeyed(ObjKeys(e, b), b, key.value, a[j]);
      var i :| 0 <= i < |b| && b[i] == a[j];
      assert ObjIds(b)[i] == ObjIds(a)[j];
    }
  }

  lemma ListsTellBatch(e: Entity, cells: seq<Row>, a: seq<Obj>, b: seq<Obj>)
    requires e.one.Some? && forall key | key in ObjKeys(e, a) :: key.Some? && key.value in IdsOf(cells)
    requires forall k | k in IdsOf(cells) :: Select(ObjKeys(e, a), a, k) == Select(ObjKeys(e, b), b, k)
    requires SameCells(a, b)
    ensures a == b
  {
    hide Select;
    assert ObjKeys(e, a) == ObjKeys(e, b);
    forall i | 0 <= i < |a|
      ensures ObjKeys(e, a)[i].Some?
    {
      assert ObjKeys(e, a)[i] in ObjKeys(e, a);
    }
    ListsDetermine(ObjKeys(e, a), a, b);
  }

  lemma KeyedIds(c: Plan, keys: seq<Uuid>, db: Db)
    requires WellFormed(c) && c.sel.path.None? && ValidDb(db) && Run(c, db).Success?
    requires c.sel.preds != [] && c.sel.preds[|c.sel.preds| - 1] == ColumnIn("id", keys)
    ensures forall id | id in ObjIds(Run(c, db).value) :: id in keys
  {
    RowsHonourPred(c, |c.sel.preds| - 1, db);
  }

  /** The many-to-one edge of the second run is that of a fresh one: then its filter took nothing. */
  lemma OneKept(first: Plan, anew: Plan, q: Plan, before: Db, now: Db)
    requires WellFormed(first) && WellFormed(anew) && WellFormed(q) && ValidDb(now)
    requires first.one == anew.one && first.sel.entity == anew.sel.entity == q.sel.entity
    requires q.one == After(first, before).one && ReachedOne(first, before)
    requires var n, child := OneChild(anew, Cells(anew, now)), OneChild(q, Cells(anew, now));
             && Run(n, now).Success? && Run(child, now).Success?
             && forall i | 0 <= i < |Cells(anew, now)| ::
                  AttachOne(anew.sel.entity, Cells(anew, now), i, Run(n, now).value) ==
                  AttachOne(anew.sel.entity, Cells(anew, now), i, Run(child, now).value)
    ensures var n, child := OneChild(anew, Cells(anew, now)), OneChild(q, Cells(anew, now));
            && FilterKeeps(n, ColumnIn("id", OneKeys(first, Cells(first, before))), now)
            && Run(child, now) == Run(n, now)
  {
    hide Run, Cells, After, RawRows, ValidDb, AttachOne, AllDifferent, FirstKeys, FilterKeeps;
    var here, e := Cells(anew, now), anew.sel.entity;
    var n, child := OneChild(anew, here), OneChild(q, here);
    var a, b := Run(n, now).value, Run(child, now).value;
    KeyedIds(n, OneKeys(anew, here), now);
    KeyedIds(child, OneKeys(anew, here), now);
    NeighboursTellIds(e, here, a, b);
    NeighboursTellIds(e, here, b, a);
    RunIds(n, now);
    RunIds(child, now);
    OneStaleRows(first, anew, q, before, now);
    KeepsByIds(n, ColumnIn("id", OneKeys(first, Cells(first, before))), now);
    RunCells(n, now);
    RunCells(child, now);
    assert ObjIds(a) == ObjIds(b);
    NeighboursTellBatch(e, here, a, b);
  }

  lemma KeyedLists(p: Plan, cells: seq<Row>, db: Db)
    requires WellFormed(p) && p.many.Some? && ValidDb(db) && Run(ManyChild(p, cells), db).Success?
    ensures ManyChild(p, cells).sel.path.None? && ManyChild(p, cells).sel.entity == p.many.value.sel.entity
    ensures forall key | key in ObjKeys(p.many.value.sel.entity, Run(ManyChild(p, cells), db).value) ::
              key.Some? && key.value in IdsOf(cells)
  {
    hide Run, ValidDb;
    var m := p.many.value;
    LoadedManys(m, ManyChild(p, cells), IdsOf(cells), db);
    HeldKeys(m.sel.entity, IdsOf(cells), Run(ManyChild(p, cells), db).value);
  }

  lemma SameCellsOfRuns(a: Plan, b: Plan, db: Db)
    requires WellFormed(a) && WellFormed(b) && Cells(a, db) == Cells(b, db)
    requires Run(a, db).Success? && Run(b, db).Success?
    ensures SameCells(Run(a, db).value, Run(b, db).value)
  {
    hide Run, Cells;
    RunCells(a, db);
    RunCells(b, db);
  }

  /** Two runs of one sub-query, with whatever filters, that give all nodes the same lists. */
  lemma ListsTellRuns(e: Entity, cells: seq<Row>, n: Plan, child: Plan, pred: Pred, db: Db)
    requires WellFormed(n) && WellFormed(child) && n.sel.path.None? && child.sel.path.None? && ValidDb(db)
    requires Run(n, db).Success? && Run(child, db).Success? && e.one.Some?
    requires forall key | key in ObjKeys(e, Run(n, db).value) :: key.Some? && key.value in IdsOf(cells)
    requires forall key | key in ObjKeys(e, Run(child, db).value) :: key.Some? && key.value in IdsOf(cells)
    requires forall i | 0 <= i < |cells| ::
               AttachMany(e, cells, i, Run(n, db).value) == AttachMany(e, cells, i, Run(child, db).value)
    requires RawRows(child, db) == RawRows(AddPred(n, pred), db)
    requires FilterKeeps(n, pred, db) ==> Cells(child, db) == Cells(n, db)
    ensures FilterKeeps(n, pred, db) && Run(child, db) == Run(n, db)
  {
    hide Run, Cells, RawRows, ValidDb, AttachMany, AllDifferent, FilterKeeps, Select, WellFormed;
    var a, b := Run(n, db).value, Run(child, db).value;
    ListsTellMembers(e, cells, a, b);
    ListsTellMembers(e, cells, b, a);
    RunIds(n, db);
    RunIds(child, db);
    KeepsByIds(n, pred, db);
    SameCellsOfRuns(child, n, db);
    ListsTellBatch(e, cells, a, b);
  }

  /** `q` has the rows of the fresh request `anew`, and the sub-queries that a run of `first` left. */
  ghost predicate Leftover(first: Plan, anew: Plan, q: Plan, before: Db, now: Db) {
    && WellFormed(first) && WellFormed(anew) && WellFormed(q)
    && FieldsValid(first) && FieldsValid(anew) && FieldsValid(q)
    && first.one == anew.one && first.many == anew.many
    && first.sel.entity == anew.sel.entity == q.sel.entity
    && q.one == After(first, before).one && q.many == After(first, before).many
    && Cells(q, now) == Cells(anew, now)
  }

  lemma LeftBehind(first: Plan, before: Db)
    requires WellFormed(first)
    ensures ReachedOne(first, before) ==>
              After(first, before).one == Some(After(OneChild(first, Cells(first, before)), before))
    ensures ReachedMany(first, before) ==>
              After(first, before).many == Some(After(ManyChild(first, Cells(first, before)), before))
  {
  }

  lemma LeftoverOne(first: Plan, anew: Plan, q: Plan, before: Db, now: Db)
    requires Leftover(first, anew, q, before, now) && ReachedOne(first, before)
    requires FilterKeeps(OneChild(anew, Cells(anew, now)), ColumnIn("id", OneKeys(first, Cells(first, before))), now)
    ensures Leftover(
              OneChild(first, Cells(first, before)), OneChild(anew, Cells(anew, now)), OneChild(q, Cells(anew, now)),
              before, now)
  {
    hide Cells, FilterKeeps, OneKeys, After, FieldsValid;
    LeftBehind(first, before);
    OneStaleRows(first, anew, q, before, now);
    OneChildFields(first, Cells(first, before));
    OneChildFields(anew, Cells(anew, now));
    OneChildFields(q, Cells(anew, now));
  }

  lemma LeftoverMany(first: Plan, anew: Plan, q: Plan, before: Db, now: Db)
    requires Leftover(first, anew, q, before, now) && ReachedMany(first, before)
    requires var column := first.many.value.sel.entity.one.value.column;
             FilterKeeps(ManyChild(anew, Cells(anew, now)), ColumnIn(column, IdsOf(Cells(first, before))), now)
    ensures Leftover(
              ManyChild(first, Cells(first, before)), ManyChild(anew, Cells(anew, now)),
              ManyChild(q, Cells(anew, now)), before, now)
  {
    hide Cells, FilterKeeps, After, FieldsValid;
    LeftBehind(first, before);
    var c := ManyChild(first, Cells(first, before));
    assert SelectKey(After(c, before)) == After(c, before);
    ManyStaleRows(first, anew, q, before, now);
    ManyChildFields(first, Cells(first, before));
    ManyChildFields(anew, Cells(anew, now));
    ManyChildFields(q, Cells(anew, now));
  }

  lemma LeftoverEdges(first: Plan, anew: Plan, q: Plan, before: Db, now: Db)
    requires Leftover(first, anew, q, before, now)
    ensures EdgesOf(q) == EdgesOf(anew)
    ensures ReachedOne(first, before) ==> anew.one.Some? && q.one.Some?
    ensures ReachedMany(first, before) ==>
              anew.many.Some? && q.many.Some? && q.many.value.sel.entity == anew.many.value.sel.entity
  {
    hide After, Cells, FieldsValid, RunOne;
    AfterSelections(first, before);
  }

  lemma OneBelow(first: Plan, anew: Plan, q: Plan, before: Db, now: Db)
    requires Leftover(first, anew, q, before, now) && ValidDb(now) && Run(q, now) == Run(anew, now)
    requires ReachedOne(first, before) && OneKeys(anew, Cells(anew, now)) != []
    ensures var n, child := OneChild(anew, Cells(anew, now)), OneChild(q, Cells(anew, now));
            && FilterKeeps(n, ColumnIn("id", OneKeys(first, Cells(first, before))), now)
            && Run(child, now) == Run(n, now)
  {
    hide Run, Cells, After, ValidDb, AttachOne, OneKeys, FilterKeeps, FieldsValid, OneChild, ManyChild, ReachedOne;
    hide WellFormed, EdgesOf;
    LeftoverEdges(first, anew, q, before, now);
    SameNeighbours(anew, q, now);
    OneKept(first, anew, q, before, now);
  }

  /** The lists of the second run are those of a fresh one: then its filter took nothing. */
  lemma ManyBelow(first: Plan, anew: Plan, q: Plan, before: Db, now: Db)
    requires Leftover(first, anew, q, before, now) && ValidDb(now) && Run(q, now) == Run(anew, now)
    requires ReachedMany(first, before)
    ensures var n, child := ManyChild(anew, Cells(anew, now)), ManyChild(q, Cells(anew, now));
            var column := first.many.value.sel.entity.one.value.column;
            && FilterKeeps(n, ColumnIn(column, IdsOf(Cells(first, before))), now)
            && Run(child, now) == Run(n, now)
  {
    hide Run, Cells, After, ValidDb, AttachMany, FilterKeeps, FieldsValid, ReachedMany, EdgesOf, ManyChild;
    hide RawRows;
    LeftoverEdges(first, anew, q, before, now);
    var here, e := Cells(anew, now), anew.many.value.sel.entity;
    SameLists(anew, q, now);
    KeyedLists(anew, here, now);
    KeyedLists(q, here, now);
    ManyStaleRows(first, anew, q, before, now);
    ListsTellRuns(
      e, here, ManyChild(anew, here), ManyChild(q, here),
      ColumnIn(e.one.value.column, IdsOf(Cells(first, before))), now);
  }

  lemma {:induction false} FreshIsCovered(first: Plan, anew: Plan, q: Plan, before: Db, now: Db)
    requires Leftover(first, anew, q, before, now) && ValidDb(now) && Run(q, now) == Run(anew, now)
    ensures Covered(first, anew, before, now)
    decreases Depth(first)
  {
    hide Run, Cells, After, ValidDb, FilterKeeps, FieldsValid, OneKeys, ReachedOne, ReachedMany;
    hide EdgesOf;
    var was, here := Cells(first, before), Cells(anew, now);
    LeftoverEdges(first, anew, q, before, now);
    if ReachedOne(first, before) && OneKeys(anew, here) != [] {
      OneBelow(first, anew, q, before, now);
      LeftoverOne(first, anew, q, before, now);
      FreshIsCovered(OneChild(first, was), OneChild(anew, here), OneChild(q, here), before, now);
    }
    if ReachedMany(first, before) && here != [] {
      ManyBelow(first, anew, q, before, now);
      LeftoverMany(first, anew, q, before, now);
      FreshIsCovered(ManyChild(first, was), ManyChild(anew, here), ManyChild(q, here), before, now);
    }
  }

  /**
    Executed again on a changed store, a builder loads what a fresh one would if and
    only if the filters of the first run take no row from a level that it reached,
    whatever the limits and offsets of its sub-queries are.
   */
  lemma SecondRunIsFreshIff(p: Plan, before: Db, now: Db)
    requires WellFormed(p) && FieldsValid(p) && ValidDb(now)
    ensures Run(After(p, before), now) == Run(p, now) <==> Covered(p, p, before, now)
  {
    hide Run, Cells, After, ValidDb, FieldsValid, Covered;
    SameCellsAfter(p, before, now);
    AfterIsValid(p, before);
    if Covered(p, p, before, now) {
      SecondRunIsFresh(p, before, now);
    } else if Run(After(p, before), now) == Run(p, now) {
      FreshIsCovered(p, p, After(p, before), before, now);
      assert false;
    }
  }
}
