/**
  Queries that start from a traversal. A traversal can yield a row several times;
  by default its query is DISTINCT, and then it reads none twice.
 */
module Traversal {
  import opened Sql
  import opened Schema
  import opened Plan
  import opened Join
  import opened Edges

  /** The caller asked for DISTINCT, or left it to the default of a traversal. */
  predicate ReadsDistinct(sel: Selection) {
    sel.unique == Some(true) || (sel.unique.None? && sel.path.Some?)
  }

  lemma {:induction false} DistinctYieldsIds(columns: seq<string>, from: seq<Row>, table: seq<Row>)
    requires "id" in columns && DistinctIds(table) && DrawnFrom(from, table)
    ensures DistinctIds(Distinct(columns, from)) && DrawnFrom(Distinct(columns, from), from)
    decreases |from|
  {
    if from != [] {
      var init, last := from[..|from| - 1], from[|from| - 1];
      DistinctYieldsIds(columns, init, table);
      assert last in from;
      forall x | x in Distinct(columns, init) && IdOf(x) == IdOf(last)
        ensures Project(columns, x) == Project(columns, last)
      {
        assert x in from;
        SameIdSameRow(table, x, last);
      }
    }
  }

  lemma DistinctRows(p: Plan, db: Db)
    requires WellFormed(p) && ValidDb(db) && StartsInTable(p, db) && ReadsDistinct(p.sel)
    ensures DistinctIds(RawRows(p, db))
  {
    var spec, from := SpecOf(p.sel, p.one.Some?), From(p.sel, db);
    SpecHoldsId(p.sel, p.one.Some?);
    var kept := Filter(p.sel.preds, from);
    DistinctYieldsIds(spec.columns, kept, db(p.sel.entity));
    SortDistinctIds(p.sel.order, Distinct(spec.columns, kept));
    WindowDistinctIds(
      NonZero(spec.offset), NonZero(spec.limit), Sort(spec.order, Distinct(spec.columns, kept)));
  }

  /** The scanned nodes have the ids of the rows. */
  lemma CellIds(p: Plan, db: Db)
    requires WellFormed(p) && ValidDb(db) && StartsInTable(p, db)
    ensures IdsOf(Cells(p, db)) == IdsOf(RawRows(p, db))
    ensures forall r :: r in RawRows(p, db) ==> r in db(p.sel.entity) && HasId(r)
  {
    SpecHoldsId(p.sel, p.one.Some?);
    var columns, raw := SpecColumns(p.sel, p.one.Some?), RawRows(p, db);
    forall i | 0 <= i < |raw|
      ensures IdOf(Cells(p, db)[i]) == IdOf(raw[i])
    {
      assert raw[i] in raw && raw[i] in db(p.sel.entity);
      CellsKeepKeys(p.sel.entity, columns, raw[i]);
    }
  }

  /** Two nodes of one id stand for one row. */
  lemma SameIdSameRaw(p: Plan, db: Db, i: nat, j: nat)
    requires WellFormed(p) && ValidDb(db) && StartsInTable(p, db)
    requires i < |RawRows(p, db)| && j < |RawRows(p, db)|
    ensures IdsOf(Cells(p, db))[i] == IdsOf(Cells(p, db))[j] <==> RawRows(p, db)[i] == RawRows(p, db)[j]
  {
    CellIds(p, db);
    var raw := RawRows(p, db);
    assert raw[i] in raw && raw[j] in raw;
    if IdOf(raw[i]) == IdOf(raw[j]) {
      SameIdSameRow(db(p.sel.entity), raw[i], raw[j]);
    }
  }

  /** The query reads no row twice: it starts from a table, or is DISTINCT. */
  ghost predicate ReadsOnce(p: Plan, db: Db) {
    p.sel.path.None? || (StartsInTable(p, db) && ReadsDistinct(p.sel))
  }

  lemma ReadsOnceIds(p: Plan, db: Db)
    requires WellFormed(p) && ValidDb(db) && ReadsOnce(p, db)
    ensures forall i, j | 0 <= i < j < |Cells(p, db)| :: IdsOf(Cells(p, db))[i] != IdsOf(Cells(p, db))[j]
  {
    if p.sel.path.None? {
      CellsDistinct(p, db);
    } else {
      DistinctRows(p, db);
      CellIds(p, db);
    }
  }

  // ---------------------------------------------------------------------
  // Rows that come twice
  // ---------------------------------------------------------------------

  lemma {:induction false} FilterCounts(ps: seq<Pred>, rows: seq<Row>, r: Row)
    ensures multiset(Filter(ps, rows))[r] == if AllHold(ps, r) then multiset(rows)[r] else 0
  {
    if rows != [] {
      FilterCounts(ps, rows[1..], r);
      assert rows == [rows[0]] + rows[1..];
    }
  }

  lemma {:induction false} CountsTwice(rows: seq<Row>, r: Row)
    ensures multiset(rows)[r] > 1 <==> exists i, j | 0 <= i < j < |rows| :: rows[i] == r && rows[j] == r
    decreases |rows|
  {
    if rows != [] {
      var n := |rows| - 1;
      CountsTwice(rows[..n], r);
      assert rows == rows[..n] + [rows[n]];
      if rows[n] == r && multiset(rows[..n])[r] > 0 {
        var i :| 0 <= i < n && rows[..n][i] == r;
        assert rows[i] == r && rows[n] == r;
      }
      if exists i, j | 0 <= i < j < |rows| :: rows[i] == r && rows[j] == r {
        var i, j :| 0 <= i < j < |rows| && rows[i] == r && rows[j] == r;
        assert rows[..n][i] == r;
        if j < n {
          assert rows[..n][j] == r;
        }
      }
    }
  }

  /** The query for one parent's children. */
  function Alone(m: Plan, id: Uuid): (q: Plan)
    requires WellFormed(m) && m.sel.entity.one.Some?
    ensures WellFormed(q) && Depth(q) == Depth(m)
  {
    AddPred(SelectKey(m), ColumnIn(m.sel.entity.one.value.column, [id]))
  }

  lemma NaiveManyRows(p: Plan, cells: Row, db: Db)
    requires WellFormed(p) && p.many.Some?
    ensures |NaiveMany(p, cells, db)| == |RawRows(Alone(p.many.value, IdOf(cells)), db)|
  {
  }

  lemma NaiveList(p: Plan, db: Db, i: nat)
    requires WellFormed(p) && i < |Cells(p, db)|
    ensures |Naive(p, db)| == |Cells(p, db)|
    ensures Naive(p, db)[i].many == if p.many.None? then Nil else List(NaiveMany(p, Cells(p, db)[i], db))
  {
    var rows := RawRows(p, db);
    assert NaiveRows(p, rows, db)[i] == NaiveObj(p, Cells(p, db)[i], db);
  }

  lemma AloneRows(m: Plan, id: Uuid, db: Db)
    requires WellFormed(m) && m.sel.entity.one.Some? && m.sel.path.None? && ValidDb(db) && Unlimited(m.sel)
    ensures forall r :: r in RawRows(Alone(m, id), db) <==>
                          && r in db(m.sel.entity) && AllHold(m.sel.preds, r)
                          && Holds(ColumnIn(m.sel.entity.one.value.column, [id]), r)
  {
    var own := ColumnIn(m.sel.entity.one.value.column, [id]);
    RawIsSortedFilter(Alone(m, id), db);
    forall r
      ensures AllHold(m.sel.preds + [own], r) <==> AllHold(m.sel.preds, r) && Holds(own, r)
    {
      AllHoldConcat(m.sel.preds, [own], r);
      assert AllHold([own], r) <==> Holds([own][0], r);
    }
  }

  /** Querying for a node's children alone finds some exactly if there are some. */
  lemma ChildIsFoundIff(p: Plan, cells: Row, db: Db)
    requires WellFormed(p) && p.many.Some? && ValidDb(db) && Unlimited(p.many.value.sel)
    ensures NaiveMany(p, cells, db) != [] <==> HasChild(p.many.value, cells, db)
  {
    hide NaiveMany, Unlimited, ValidDb, RawRows;
    var m := p.many.value;
    var rows := RawRows(Alone(m, IdOf(cells)), db);
    NaiveManyRows(p, cells, db);
    AloneRows(m, IdOf(cells), db);
    if rows != [] {
      assert rows[0] in rows;
    }
  }
}
