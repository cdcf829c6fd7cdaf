/**
  Executing a builder again on a store that has changed. Its sub-queries still
  carry the filters of the first run; here is exactly what one node or one list of
  the second run misses, for sub-queries without limit and offset.
 */
module Stale {
  import opened Sql
  import opened Schema
  import opened Plan
  import opened Join
  import opened Projection
  import opened Terminal
  import opened Edges
  import opened Traversal
  import opened Limits

  /** The first run got as far as the many-to-one edge, and left a filter on its sub-query. */
  predicate ReachedOne(p: Plan, db: Db)
    requires WellFormed(p)
  {
    p.one.Some? && InvalidFields(p.sel) == [] && Cells(p, db) != [] && OneKeys(p, Cells(p, db)) != []
  }

  predicate ReachedMany(p: Plan, db: Db)
    requires WellFormed(p)
  {
    p.many.Some? && InvalidFields(p.sel) == [] && Cells(p, db) != [] && RunOne(p, Cells(p, db), db).Success?
  }

  lemma AfterSelections(p: Plan, db: Db)
    requires WellFormed(p)
    ensures p.one.Some? ==>
              After(p, db).one.value.sel ==
              if ReachedOne(p, db) then OneChild(p, Cells(p, db)).sel else p.one.value.sel
    ensures p.many.Some? ==>
              After(p, db).many.value.sel ==
              if ReachedMany(p, db) then ManyChild(p, Cells(p, db)).sel else p.many.value.sel
  {
  }

  /** A run does not make a builder's selections invalid. */
  lemma {:induction false} AfterIsValid(p: Plan, db: Db)
    requires WellFormed(p) && FieldsValid(p)
    ensures FieldsValid(After(p, db))
    decreases Depth(p)
  {
    var cells := Cells(p, db);
    if cells != [] {
      if p.one.Some? && OneKeys(p, cells) != [] {
        AfterIsValid(OneChild(p, cells), db);
      }
      if p.many.Some? {
        ManyChildFields(p, cells);
        AfterIsValid(ManyChild(p, cells), db);
      }
    }
  }

  lemma SameCellsAfter(p: Plan, before: Db, now: Db)
    requires WellFormed(p)
    ensures Cells(After(p, before), now) == Cells(p, now)
  {
  }

  // ---------------------------------------------------------------------
  // One node
  // ---------------------------------------------------------------------

  /** A row with this id passes the sub-query's own predicates. */
  ghost predicate TargetPasses(c: Plan, id: Uuid, db: Db) {
    exists r :: r in db(c.sel.entity) && IdOf(r) == id && AllHold(c.sel.preds, r)
  }

  lemma KeyedTarget(c: Plan, keyed: Plan, keys: seq<Uuid>, id: Uuid, db: Db)
    requires keyed.sel == AddPred(c, ColumnIn("id", keys)).sel && ValidDb(db)
    ensures TargetPasses(keyed, id, db) <==> TargetPasses(c, id, db) && id in keys
  {
    var filter := ColumnIn("id", keys);
    forall r | r in db(c.sel.entity)
      ensures AllHold(keyed.sel.preds, r) <==> AllHold(c.sel.preds, r) && IdOf(r) in keys
    {
      AllHoldConcat(c.sel.preds, [filter], r);
      assert AllHold([filter], r) <==> Holds([filter][0], r);
      assert HasId(r);
    }
  }

  lemma HasNeighbourIff(p: Plan, db: Db, i: nat)
    requires WellFormed(p) && FieldsValid(p) && ValidDb(db) && p.one.Some? && Unlimited(p.one.value.sel)
    requires i < |Cells(p, db)|
    ensures Run(p, db).Success? && i < |Run(p, db).value|
    ensures var key := ForeignKey(p.sel.entity, Cells(p, db)[i]);
            Run(p, db).value[i].one.Some? <==> key.Some? && TargetPasses(p.one.value, key.value, db)
  {
    ValidFieldsRun(p, db);
    RunCells(p, db);
    OneEdgeTruth(p, db, i);
  }

  /**
    Many-to-one, on the changed store: the second run and a fresh one agree on
    whether node `i` has its neighbour exactly when there is none, or the first run
    left no filter, or it asked for that key.
   */
  lemma SecondRunFindsIff(p: Plan, before: Db, now: Db, i: nat)
    requires WellFormed(p) && FieldsValid(p) && ValidDb(now) && p.one.Some? && Unlimited(p.one.value.sel)
    requires i < |Cells(p, now)|
    ensures Run(p, now).Success? && i < |Run(p, now).value|
    ensures var second := Run(After(p, before), now); second.Success? && i < |second.value|
    ensures var key := ForeignKey(p.sel.entity, Cells(p, now)[i]);
            (Run(After(p, before), now).value[i].one.Some? <==> Run(p, now).value[i].one.Some?) <==>
            (ReachedOne(p, before) && key.Some? && TargetPasses(p.one.value, key.value, now) ==>
               key.value in OneKeys(p, Cells(p, before)))
  {
    hide Run, Cells, After, TargetPasses, FieldsValid, ValidDb, Unlimited;
    var q := After(p, before);
    AfterIsValid(p, before);
    AfterSelections(p, before);
    SameCellsAfter(p, before, now);
    HasNeighbourIff(p, now, i);
    StaysUnlimited(p, before);
    HasNeighbourIff(q, now, i);
    var key := ForeignKey(p.sel.entity, Cells(p, now)[i]);
    if key.Some? {
      if ReachedOne(p, before) {
        KeyedTarget(p.one.value, q.one.value, OneKeys(p, Cells(p, before)), key.value, now);
      } else {
        SameTarget(p.one.value, q.one.value, key.value, now);
      }
    }
  }

  lemma SameTarget(a: Plan, b: Plan, id: Uuid, db: Db)
    requires a.sel == b.sel
    ensures TargetPasses(a, id, db) == TargetPasses(b, id, db)
  {
  }

  lemma StaysUnlimited(p: Plan, db: Db)
    requires WellFormed(p)
    ensures p.one.Some? && Unlimited(p.one.value.sel) ==> Unlimited(After(p, db).one.value.sel)
    ensures p.many.Some? && Unlimited(p.many.value.sel) ==> Unlimited(After(p, db).many.value.sel)
  {
    AfterSelections(p, db);
  }

  // ---------------------------------------------------------------------
  // One list
  // ---------------------------------------------------------------------

  lemma {:induction false} SelectedIds(pred: Pred, keys: seq<Option<Uuid>>, objs: seq<Obj>, rows: seq<Row>, k: Uuid)
    requires |keys| == |objs| == |rows|
    requires forall i | 0 <= i < |rows| :: keys[i] == Some(k) <==> Holds(pred, rows[i])
    requires forall i | 0 <= i < |rows| :: IdOf(objs[i].cells) == IdOf(rows[i])
    ensures ObjIds(Select(keys, objs, k)) == IdsOf(Filter([pred], rows))
    decreases |rows|
  {
    if rows == [] {
      SelectNothing(keys, objs, k);
    } else {
      hide Select, Filter;
      var n := |rows| - 1;
      SelectedIds(pred, keys[..n], objs[..n], rows[..n], k);
      FilterSnoc([pred], rows[..n], rows[n]);
      SelectSnoc(keys[..n], objs[..n], keys[n], objs[n], k);
      assert rows == rows[..n] + [rows[n]] && objs == objs[..n] + [objs[n]] && keys == keys[..n] + [keys[n]];
      assert AllHold([pred], rows[n]) <==> Holds([pred][0], rows[n]);
      IdsSnoc(Select(keys[..n], objs[..n], k), objs[n], Filter([pred], rows[..n]), rows[n]);
    }
  }

  lemma IdsSnoc(objs: seq<Obj>, o: Obj, rows: seq<Row>, r: Row)
    requires ObjIds(objs) == IdsOf(rows) && IdOf(o.cells) == IdOf(r)
    ensures ObjIds(objs + [o]) == IdsOf(rows + [r])
  {
    assert |objs| == |ObjIds(objs)| == |IdsOf(rows)| == |rows|;
    assert forall i | 0 <= i < |objs| :: ObjIds(objs)[i] == IdsOf(rows)[i];
  }

  lemma BatchIds(p: Plan, db: Db, id: Uuid)
    requires WellFormed(p) && ValidDb(db) && p.many.Some? && Unlimited(p.many.value.sel)
    requires id in IdsOf(Cells(p, db)) && Run(ManyChild(p, Cells(p, db)), db).Success?
    ensures var e, manys := p.many.value.sel.entity, Run(ManyChild(p, Cells(p, db)), db).value;
            ObjIds(Select(ObjKeys(e, manys), manys, id)) == IdsOf(RawRows(Alone(p.many.value, id), db))
  {
    var m, ids := SelectKey(p.many.value), IdsOf(Cells(p, db));
    var child, e := ManyChild(p, Cells(p, db)), m.sel.entity;
    var raw, manys, column := RawRows(child, db), Run(child, db).value, e.one.value.column;
    var columns := SpecColumns(child.sel, child.one.Some?);
    SpecHoldsId(m.sel, m.one.Some?);
    SelectKeyHoldsKey(p.many.value, m.one.Some?);
    RunCells(child, db);
    forall r: Row | r in raw
      ensures HasId(r) && column in r && r[column].Id?
    {
      assert Holds(child.sel.preds[|m.sel.preds|], r);
    }
    KeysOfNaive(e, columns, raw, manys, id);
    forall j | 0 <= j < |raw|
      ensures IdOf(manys[j].cells) == IdOf(raw[j])
    {
      assert raw[j] in raw;
      CellsKeepKeys(e, columns, raw[j]);
    }
    SelectedIds(ColumnIn(column, [id]), ObjKeys(e, manys), manys, raw, id);
    BatchRestricts(m, column, ids, id, db);
  }

  lemma ValidSelection(p: Plan)
    requires FieldsValid(p)
    ensures InvalidFields(p.sel) == []
  {
  }

  /** The list of a node holds the children that querying for it alone finds, whatever their own sub-queries do. */
  lemma ListIds(p: Plan, db: Db, i: nat)
    requires WellFormed(p) && FieldsValid(p) && ValidDb(db) && ReadsOnce(p, db)
    requires p.many.Some? && Unlimited(p.many.value.sel) && i < |Cells(p, db)|
    ensures Run(p, db).Success? && i < |Run(p, db).value| && Run(p, db).value[i].many.List?
    ensures ObjIds(Run(p, db).value[i].many.nodes) ==
            IdsOf(RawRows(Alone(p.many.value, IdOf(Cells(p, db)[i])), db))
  {
    hide ValidDb, FieldsValid, Unlimited, ReadsOnce, Cells, RawRows;
    var cells := Cells(p, db);
    ValidSelection(p);
    ValidFieldsRun(p, db);
    ManyChildFields(p, cells);
    ValidFieldsRun(ManyChild(p, cells), db);
    RunUnfolds(p, RunOne(p, cells, db).value, RunMany(p, cells, db).value, db);
    ReadsOnceIds(p, db);
    assert IdsOf(cells)[i] == IdOf(cells[i]);
    var at := LastIndex(IdsOf(cells), IdOf(cells[i]));
    assert at >= i && IdsOf(cells)[at] == IdOf(cells[at]);
    BatchIds(p, db, IdOf(cells[i]));
  }

  /** With a stale filter before it, a filter on single keys passes only those among the stale ones. */
  lemma StaleHolds(ps: seq<Pred>, column: string, asked: seq<Uuid>, keys: seq<Uuid>, r: Row)
    ensures AllHold(ps + [ColumnIn(column, asked)] + [ColumnIn(column, keys)], r) <==>
            AllHold(ps + [ColumnIn(column, keys)], r) && Holds(ColumnIn(column, asked), r)
  {
    var a, b := ColumnIn(column, asked), ColumnIn(column, keys);
    AllHoldConcat(ps, [b], r);
    AllHoldConcat(ps, [a], r);
    AllHoldConcat(ps + [a], [b], r);
    assert AllHold([a], r) <==> Holds([a][0], r);
    assert AllHold([b], r) <==> Holds([b][0], r);
  }

  lemma KeyedFilter(ps: seq<Pred>, column: string, asked: seq<Uuid>, id: Uuid, table: seq<Row>)
    ensures Filter(ps + [ColumnIn(column, asked)] + [ColumnIn(column, [id])], table) ==
            if id in asked then Filter(ps + [ColumnIn(column, [id])], table) else []
  {
    var own := ColumnIn(column, [id]);
    var plain, stale := ps + [own], ps + [ColumnIn(column, asked)] + [own];
    forall r | r in table
      ensures AllHold(stale, r) <==> AllHold(plain, r) && id in asked
    {
      StaleHolds(ps, column, asked, [id], r);
      AllHoldConcat(ps, [own], r);
      assert AllHold([own], r) <==> Holds([own][0], r);
    }
    if id in asked {
      FilterAgree(stale, plain, table);
    } else {
      NothingPasses(stale, table);
    }
  }

  lemma KeyedAlone(m: Plan, keyed: Plan, keys: seq<Uuid>, id: Uuid, db: Db)
    requires WellFormed(m) && WellFormed(keyed) && m.sel.entity.one.Some? && m.sel.path.None?
    requires keyed.sel == AddPred(SelectKey(m), ColumnIn(m.sel.entity.one.value.column, keys)).sel
    requires ValidDb(db) && Unlimited(m.sel)
    ensures RawRows(Alone(keyed, id), db) == if id in keys then RawRows(Alone(m, id), db) else []
  {
    hide RawRows, ValidDb, Filter, AllHold;
    KeyedFilter(m.sel.preds, m.sel.entity.one.value.column, keys, id, db(m.sel.entity));
    RawIsSortedFilter(Alone(m, id), db);
    RawIsSortedFilter(Alone(keyed, id), db);
  }

  lemma {:induction false} NothingPasses(ps: seq<Pred>, rows: seq<Row>)
    requires forall r | r in rows :: !AllHold(ps, r)
    ensures Filter(ps, rows) == []
  {
    if rows != [] {
      NothingPasses(ps, rows[1..]);
    }
  }

  /**
    One-to-many, on the changed store: the second run and a fresh one list the same
    children for node `i` exactly when it has none, or the first run left no
    filter, or it read that node.
   */
  lemma SecondRunListsIff(p: Plan, before: Db, now: Db, i: nat)
    requires WellFormed(p) && FieldsValid(p) && ValidDb(now) && ReadsOnce(p, now)
    requires p.many.Some? && Unlimited(p.many.value.sel) && i < |Cells(p, now)|
    ensures var anew := Run(p, now); anew.Success? && i < |anew.value| && anew.value[i].many.List?
    ensures var second := Run(After(p, before), now);
            second.Success? && i < |second.value| && second.value[i].many.List?
    ensures (ObjIds(Run(After(p, before), now).value[i].many.nodes) == ObjIds(Run(p, now).value[i].many.nodes)) <==>
            (ReachedMany(p, before) && HasChild(p.many.value, Cells(p, now)[i], now) ==>
               IdOf(Cells(p, now)[i]) in IdsOf(Cells(p, before)))
  {
    hide Run, Cells, After, HasChild, FieldsValid, ValidDb, Unlimited, RawRows, ReadsOnce, ReachedMany;
    var q, m, id := After(p, before), p.many.value, IdOf(Cells(p, now)[i]);
    AfterIsValid(p, before);
    AfterSelections(p, before);
    SameCellsAfter(p, before, now);
    StaysUnlimited(p, before);
    ReadsOnceAfter(p, before, now);
    ListIds(p, now, i);
    ListIds(q, now, i);
    NaiveManyRows(p, Cells(p, now)[i], now);
    ChildIsFoundIff(p, Cells(p, now)[i], now);
    if ReachedMany(p, before) {
      KeyedAlone(m, q.many.value, IdsOf(Cells(p, before)), id, now);
    } else {
      SameAlone(m, q.many.value, id, now);
    }
  }

  lemma ReadsOnceAfter(p: Plan, before: Db, now: Db)
    requires WellFormed(p) && ReadsOnce(p, now)
    ensures ReadsOnce(After(p, before), now)
  {
  }

  lemma SameAlone(a: Plan, b: Plan, id: Uuid, db: Db)
    requires WellFormed(a) && WellFormed(b) && a.sel == b.sel && a.sel.entity.one.Some? && a.sel.path.None?
    requires ValidDb(db) && Unlimited(a.sel)
    ensures RawRows(Alone(a, id), db) == RawRows(Alone(b, id), db)
  {
    RawIsSortedFilter(Alone(a, id), db);
    RawIsSortedFilter(Alone(b, id), db);
  }
}
