/**
  A builder remembers the filters that a run put on its sub-queries. Running it
  again on the same store is harmless; on a store that has changed it is not.
 */
module Rerun {
  import opened Sql
  import opened Schema
  import opened Plan
  import opened Join
  import opened Projection

  lemma RepeatedPredIsRedundant(c: Plan, q: Plan, pred: Pred, db: Db)
    requires WellFormed(c) && WellFormed(q) && pred in c.sel.preds
    requires q.sel == c.sel.(preds := c.sel.preds + [pred]) && q.one.Some? == c.one.Some?
    ensures RawRows(q, db) == RawRows(c, db)
  {
    var ps := c.sel.preds;
    forall r | r in From(c.sel, db)
      ensures AllHold(ps + [pred], r) <==> AllHold(ps, r)
    {
      AllHoldConcat(ps, [pred], r);
    }
    FilterAgree(ps + [pred], ps, From(c.sel, db));
  }

  lemma OneChildAgain(c: Plan, q: Plan, db: Db)
    requires WellFormed(c) && WellFormed(q) && c.one.Some? && q.sel.entity == c.sel.entity
    requires InvalidFields(c.sel) == [] && Cells(c, db) != [] && q.one == After(c, db).one
    ensures OneKeys(q, Cells(c, db)) == OneKeys(c, Cells(c, db))
    ensures OneKeys(c, Cells(c, db)) != [] ==>
              var keyed := ColumnIn("id", OneKeys(c, Cells(c, db)));
              && keyed in OneChild(c, Cells(c, db)).sel.preds
              && OneChild(q, Cells(c, db)) == AddPred(After(OneChild(c, Cells(c, db)), db), keyed)
  {
    var child := OneChild(c, Cells(c, db));
    assert child.sel.preds[|child.sel.preds| - 1] == ColumnIn("id", OneKeys(c, Cells(c, db)));
  }

  lemma ManyChildAgain(c: Plan, q: Plan, db: Db)
    requires WellFormed(c) && WellFormed(q) && c.many.Some? && q.sel.entity == c.sel.entity
    requires InvalidFields(c.sel) == [] && Cells(c, db) != [] && q.many == After(c, db).many
    requires RunOne(c, Cells(c, db), db).Success?
    ensures var child := ManyChild(c, Cells(c, db));
            var keyed := ColumnIn(child.sel.entity.one.value.column, IdsOf(Cells(c, db)));
            && keyed in child.sel.preds
            && ManyChild(q, Cells(c, db)) == AddPred(After(child, db), keyed)
  {
    var child := ManyChild(c, Cells(c, db));
    var keyed := ColumnIn(child.sel.entity.one.value.column, IdsOf(Cells(c, db)));
    assert child.sel.preds[|child.sel.preds| - 1] == keyed;
    assert SelectKey(After(child, db)) == After(child, db);
  }

  /** A builder whose sub-queries were left by a run of `c`, and whose own rows are those of `c`, runs like `c`. */
  lemma {:induction false} RunsAgain(c: Plan, q: Plan, db: Db)
    requires WellFormed(c) && WellFormed(q)
    requires q.sel.entity == c.sel.entity && q.sel.fields == c.sel.fields
    requires q.one == After(c, db).one && q.many == After(c, db).many
    requires Cells(q, db) == Cells(c, db)
    ensures Run(q, db) == Run(c, db)
    decreases Depth(c), 0
  {
    var cells := Cells(c, db);
    if InvalidFields(c.sel) == [] && cells != [] {
      if c.one.Some? {
        OneChildAgain(c, q, db);
        if OneKeys(c, cells) != [] {
          RunsAgainFiltered(OneChild(c, cells), ColumnIn("id", OneKeys(c, cells)), db);
        }
      }
      assert RunOne(q, cells, db) == RunOne(c, cells, db);
      if RunOne(c, cells, db).Success? && c.many.Some? {
        ManyChildAgain(c, q, db);
        var child := ManyChild(c, cells);
        RunsAgainFiltered(child, ColumnIn(child.sel.entity.one.value.column, IdsOf(cells)), db);
        assert RunMany(q, cells, db) == RunMany(c, cells, db);
      }
      EqualParts(c, q, db);
    }
  }

  lemma {:induction false} RunsAgainFiltered(c: Plan, pred: Pred, db: Db)
    requires WellFormed(c) && pred in c.sel.preds
    ensures Run(AddPred(After(c, db), pred), db) == Run(c, db)
    decreases Depth(c), 1
  {
    var q := AddPred(After(c, db), pred);
    RepeatedPredIsRedundant(c, q, pred, db);
    RunsAgain(c, q, db);
  }

  /** Executing one builder twice on one store loads the same graph, or reports the same error, at any depth. */
  lemma SecondRunAgrees(p: Plan, db: Db)
    requires WellFormed(p)
    ensures Run(After(p, db), db) == Run(p, db)
  {
    RunsAgain(p, After(p, db), db);
  }

  /** The first run's filter still applies to the sub-query of the second. */
  lemma StaleFilter(p: Plan, before: Db, now: Db, cells: seq<Row>)
    requires WellFormed(p) && p.one.Some? && ValidDb(before) && ValidDb(now)
    requires InvalidFields(p.sel) == [] && Cells(p, before) != [] && OneKeys(p, Cells(p, before)) != []
    requires RunOne(After(p, before), cells, now).Success?
    ensures forall id :: id in ObjIds(RunOne(After(p, before), cells, now).value) ==>
              id in OneKeys(p, Cells(p, before))
  {
    var q, asked := After(p, before), OneKeys(p, Cells(p, before));
    if OneKeys(q, cells) != [] {
      var child := OneChild(q, cells);
      assert q.one.value.sel == AddPred(p.one.value, ColumnIn("id", asked)).sel;
      RowsHonourPred(child, |p.one.value.sel.preds|, now);
    }
  }

  lemma RowsHonourPred(c: Plan, j: nat, db: Db)
    requires WellFormed(c) && c.sel.path.None? && ValidDb(db) && Run(c, db).Success?
    requires j < |c.sel.preds| && c.sel.preds[j].ColumnIn? && c.sel.preds[j].column == "id"
    ensures forall id :: id in ObjIds(Run(c, db).value) ==> id in c.sel.preds[j].ids
  {
    var columns, raw := SpecColumns(c.sel, c.one.Some?), RawRows(c, db);
    SpecHoldsId(c.sel, c.one.Some?);
    RunCells(c, db);
    forall i | 0 <= i < |raw|
      ensures ObjIds(Run(c, db).value)[i] in c.sel.preds[j].ids
    {
      assert raw[i] in raw && Holds(c.sel.preds[j], raw[i]);
      CellsKeepKeys(c.sel.entity, columns, raw[i]);
    }
  }
}
