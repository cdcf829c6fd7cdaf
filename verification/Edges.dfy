/**
  What a caller reads off a loaded node: the `...OrErr` accessors, how the
  neighbours are divided among the nodes, and what a limit on a sub-query does.
 */
module Edges {
  import opened Sql
  import opened Schema
  import opened Plan
  import opened Join
  import opened Projection

  /** `DomainOrErr`, `TenantOrErr`, ... */
  function OneOrErr(o: Obj): Result<Obj> {
    if o.one.Some? then Success(o.one.value)
    else if o.oneLoaded then Failure(NotFound)
    else Failure(NotLoaded)
  }

  /** `CertificatesOrErr`, `VersionsOrErr`, ... */
  function ManyOrErr(o: Obj): Result<Children> {
    if o.manyLoaded then Success(o.many) else Failure(NotLoaded)
  }

  lemma KeyedRows(c: Plan, keys: seq<Uuid>, k: Uuid, db: Db)
    requires WellFormed(c) && c.sel.path.None? && ValidDb(db) && Unlimited(c.sel) && k in keys
    ensures (exists r :: r in RawRows(AddPred(c, ColumnIn("id", keys)), db) && IdOf(r) == k) <==>
            (exists r :: r in db(c.sel.entity) && IdOf(r) == k && AllHold(c.sel.preds, r))
  {
    var keyed := AddPred(c, ColumnIn("id", keys));
    RawIsSortedFilter(keyed, db);
    forall r | r in db(c.sel.entity)
      ensures AllHold(keyed.sel.preds, r) <==> AllHold(c.sel.preds, r) && IdOf(r) in keys
    {
      var filter := [ColumnIn("id", keys)];
      AllHoldConcat(c.sel.preds, filter, r);
      assert AllHold(filter, r) <==> Holds(filter[0], r);
    }
  }

  /** The neighbour given to node `i` is the one with its key, if the sub-query returned it. */
  lemma AttachedHasKey(e: Entity, cells: seq<Row>, i: nat, ones: seq<Obj>)
    requires e.one.Some? && i < |cells|
    ensures var key, got := ForeignKey(e, cells[i]), AttachOne(e, cells, i, ones);
            && (got.Some? <==> key.Some? && key.value in ObjIds(ones))
            && (got.Some? ==> got.value in ones && IdOf(got.value.cells) == key.value)
  {
    var key := ForeignKey(e, cells[i]);
    if key.Some? {
      var at := LastIndex(ObjIds(ones), key.value);
      if at >= 0 {
        assert ObjIds(ones)[at] in ObjIds(ones);
      }
    }
  }

  lemma LoadedIds(c: Plan, db: Db)
    requires WellFormed(c) && c.sel.path.None? && ValidDb(db) && Run(c, db).Success?
    ensures forall k :: k in ObjIds(Run(c, db).value) <==> exists r :: r in RawRows(c, db) && IdOf(r) == k
  {
    var columns, raw, objs := SpecColumns(c.sel, c.one.Some?), RawRows(c, db), Run(c, db).value;
    SpecHoldsId(c.sel, c.one.Some?);
    RunCells(c, db);
    forall i | 0 <= i < |raw|
      ensures ObjIds(objs)[i] == IdOf(raw[i])
    {
      CellsKeepKeys(c.sel.entity, columns, raw[i]);
    }
    forall r | r in raw
      ensures IdOf(r) in ObjIds(objs)
    {
      var i :| 0 <= i < |raw| && raw[i] == r;
      assert ObjIds(objs)[i] == IdOf(r);
    }
  }

  /**
    The many-to-one accessor tells the truth after every successful run:
    not-loaded exactly when the edge was not requested; not-found exactly when it
    was, but the key is null or the sub-query, limited or not, reads no row with
    that id; and otherwise the node with that id.
   */
  lemma OneEdgeReports(p: Plan, db: Db, i: nat)
    requires WellFormed(p) && ValidDb(db) && Run(p, db).Success? && i < |Run(p, db).value|
    ensures var o := Run(p, db).value[i];
            && (OneOrErr(o) == Failure(NotLoaded) <==> p.one.None?)
            && (p.one.Some? ==>
                  var key := ForeignKey(p.sel.entity, o.cells);
                  && (OneOrErr(o) == Failure(NotFound) <==>
                        key.None? ||
                        !exists r :: r in RawRows(OneChild(p, Cells(p, db)), db) && IdOf(r) == key.value)
                  && (OneOrErr(o).Success? ==> IdOf(OneOrErr(o).value.cells) == key.value))
  {
    var o, cells := Run(p, db).value[i], Cells(p, db);
    if p.one.Some? {
      var ones := RunOne(p, cells, db).value;
      AttachedHasKey(p.sel.entity, cells, i, ones);
      var key := ForeignKey(p.sel.entity, cells[i]);
      if key.Some? {
        assert KeysOf(p.sel.entity, cells)[i] == key;
        assert key.value in OneKeys(p, cells);
        LoadedIds(OneChild(p, cells), db);
      }
    }
  }

  /** Of a sub-query without limit and offset: not-found means null, dangling, or filtered out. */
  lemma OneEdgeTruth(p: Plan, db: Db, i: nat)
    requires WellFormed(p) && ValidDb(db) && Run(p, db).Success? && i < |Run(p, db).value|
    requires p.one.Some? ==> Unlimited(p.one.value.sel)
    ensures var o := Run(p, db).value[i];
            && (OneOrErr(o) == Failure(NotLoaded) <==> p.one.None?)
            && (p.one.Some? ==>
                  var key := ForeignKey(p.sel.entity, o.cells);
                  && (OneOrErr(o) == Failure(NotFound) <==>
                        key.None? ||
                        !exists r :: && r in db(p.one.value.sel.entity)
                                     && IdOf(r) == key.value
                                     && AllHold(p.one.value.sel.preds, r))
                  && (OneOrErr(o).Success? ==> IdOf(OneOrErr(o).value.cells) == key.value))
  {
    hide AllHold, RawRows, ValidDb, SpecOf, Unlimited, AttachOne, Select, LastIndex;
    var o, cells := Run(p, db).value[i], Cells(p, db);
    OneEdgeReports(p, db, i);
    if p.one.Some? && ForeignKey(p.sel.entity, o.cells).Some? {
      var k := ForeignKey(p.sel.entity, o.cells).value;
      assert KeysOf(p.sel.entity, cells)[i] == Some(k);
      KeyedRows(p.one.value, OneKeys(p, cells), k, db);
    }
  }

  /** The one-to-many accessor fails exactly when the edge was not requested, and never yields a nil list. */
  lemma ManyEdgeTruth(p: Plan, db: Db, i: nat)
    requires WellFormed(p) && Run(p, db).Success? && i < |Run(p, db).value|
    ensures var o := Run(p, db).value[i];
            && (ManyOrErr(o) == Failure(NotLoaded) <==> p.many.None?)
            && (ManyOrErr(o).Success? ==> ManyOrErr(o).value.List?)
  {
  }

  /** Loading the one-to-many edge as well changes nothing that the many-to-one edge reports. */
  lemma SecondEdgeKeepsFirst(p: Plan, db: Db, i: nat)
    requires WellFormed(p) && Run(p, db).Success? && i < |Run(p, db).value|
    ensures var alone := Run(p.(many := None), db);
            && alone.Success? && |alone.value| == |Run(p, db).value|
            && alone.value[i] == Run(p, db).value[i].(manyLoaded := false, many := Nil)
  {
    var alone := p.(many := None);
    var cells := Cells(p, db);
    assert Cells(alone, db) == cells;
    var ones, manys := RunOne(p, cells, db).value, RunMany(p, cells, db).value;
    if p.one.Some? {
      assert OneKeys(alone, cells) == OneKeys(p, cells);
      assert OneChild(alone, cells) == OneChild(p, cells);
    }
    RunUnfolds(p, ones, manys, db);
    RunUnfolds(alone, ones, [], db);
  }

  // ---------------------------------------------------------------------
  // Conservation
  // ---------------------------------------------------------------------

  function Total<T>(lists: seq<seq<T>>): nat
    decreases |lists|
  {
    if lists == [] then 0 else Total(lists[..|lists| - 1]) + |lists[|lists| - 1]|
  }

  lemma {:induction false} TotalUpdate<T>(lists: seq<seq<T>>, at: nat, x: T)
    requires at < |lists|
    ensures Total(lists[at := lists[at] + [x]]) == Total(lists) + 1
    decreases |lists|
  {
    var n, updated := |lists| - 1, lists[at := lists[at] + [x]];
    if at < n {
      TotalUpdate(lists[..n], at, x);
      assert updated[..n] == lists[..n][at := lists[..n][at] + [x]];
    } else {
      assert updated[..n] == lists[..n];
    }
  }

  lemma {:induction false} TotalZero<T>(lists: seq<seq<T>>)
    requires forall i :: 0 <= i < |lists| ==> lists[i] == []
    ensures Total(lists) == 0
    decreases |lists|
  {
    if lists != [] {
      TotalZero(lists[..|lists| - 1]);
    }
  }

  lemma {:induction false} TotalOfNonEmpty<T>(lists: seq<seq<T>>)
    requires forall i :: 0 <= i < |lists| ==> lists[i] != []
    ensures Total(lists) >= |lists|
    decreases |lists|
  {
    if lists != [] {
      TotalOfNonEmpty(lists[..|lists| - 1]);
    }
  }

  function Lists(e: Entity, cells: seq<Row>, manys: seq<Obj>): (lists: seq<seq<Obj>>)
    requires e.one.Some?
    ensures |lists| == |cells|
    ensures forall i :: 0 <= i < |cells| ==> lists[i] == AttachMany(e, cells, i, manys)
  {
    seq(|cells|, i requires 0 <= i < |cells| => AttachMany(e, cells, i, manys))
  }

  lemma AppendToLists(e: Entity, cells: seq<Row>, init: seq<Obj>, last: Obj, k: Uuid)
    requires e.one.Some? && ForeignKey(e, last.cells) == Some(k) && k in IdsOf(cells)
    ensures var at := LastIndex(IdsOf(cells), k);
            && 0 <= at
            && Lists(e, cells, init + [last]) ==
               Lists(e, cells, init)[at := Lists(e, cells, init)[at] + [last]]
  {
    var n, manys, at := |init|, init + [last], LastIndex(IdsOf(cells), k);
    assert ObjKeys(e, manys)[..n] == ObjKeys(e, init) && manys[..n] == init;
    assert IdsOf(cells)[at] == IdOf(cells[at]);
    forall i | 0 <= i < |cells|
      ensures Lists(e, cells, manys)[i] ==
              if i == at then Lists(e, cells, init)[i] + [last] else Lists(e, cells, init)[i]
    {
      assert IdsOf(cells)[i] == IdOf(cells[i]);
    }
  }

  /** One-to-many loading puts every neighbour into exactly one list: none is lost and none is duplicated. */
  lemma {:induction false} OneToManyConserves(e: Entity, cells: seq<Row>, manys: seq<Obj>)
    requires e.one.Some?
    requires forall o :: o in manys ==>
               ForeignKey(e, o.cells).Some? && ForeignKey(e, o.cells).value in IdsOf(cells)
    ensures Total(Lists(e, cells, manys)) == |manys|
    decreases |manys|
  {
    if manys == [] {
      TotalZero(Lists(e, cells, manys));
    } else {
      var n := |manys| - 1;
      var k := ForeignKey(e, manys[n].cells).value;
      assert manys == manys[..n] + [manys[n]];
      OneToManyConserves(e, cells, manys[..n]);
      AppendToLists(e, cells, manys[..n], manys[n], k);
      TotalUpdate(Lists(e, cells, manys[..n]), LastIndex(IdsOf(cells), k), manys[n]);
    }
  }

  function Groups<T>(ids: seq<Uuid>, keys: seq<Option<Uuid>>, xs: seq<T>): (groups: seq<seq<T>>)
    requires |keys| == |xs|
    ensures |groups| == |ids|
    ensures forall i :: 0 <= i < |ids| ==> groups[i] == Select(keys, xs, ids[i])
  {
    seq(|ids|, i requires 0 <= i < |ids| => Select(keys, xs, ids[i]))
  }

  function CountKeys(keys: seq<Option<Uuid>>): nat
    decreases |keys|
  {
    if keys == [] then 0
    else CountKeys(keys[..|keys| - 1]) + if keys[|keys| - 1].Some? then 1 else 0
  }

  lemma {:induction false} GroupsConserve<T>(ids: seq<Uuid>, keys: seq<Option<Uuid>>, xs: seq<T>)
    requires |keys| == |xs|
    requires forall i, j :: 0 <= i < j < |ids| ==> ids[i] != ids[j]
    requires forall key :: key in keys && key.Some? ==> key.value in ids
    ensures Total(Groups(ids, keys, xs)) == CountKeys(keys)
    decreases |keys|
  {
    if keys == [] {
      TotalZero(Groups(ids, keys, xs));
    } else {
      var n := |keys| - 1;
      assert forall key :: key in keys[..n] ==> key in keys;
      GroupsConserve(ids, keys[..n], xs[..n]);
      var before := Groups(ids, keys[..n], xs[..n]);
      if keys[n].Some? {
        var at :| 0 <= at < |ids| && ids[at] == keys[n].value;
        TotalUpdate(before, at, xs[n]);
        assert Groups(ids, keys, xs) == before[at := before[at] + [xs[n]]];
      } else {
        assert Groups(ids, keys, xs) == before;
      }
    }
  }

  /** Grouping nodes by foreign key partitions those that have one: the groups hold each of them exactly once. */
  lemma GroupingPartitions<T>(keys: seq<Option<Uuid>>, xs: seq<T>)
    requires |keys| == |xs|
    ensures Total(Groups(FirstKeys(keys), keys, xs)) == CountKeys(keys)
  {
    GroupsConserve(FirstKeys(keys), keys, xs);
  }

  // ---------------------------------------------------------------------
  // A limit on a one-to-many sub-query
  // ---------------------------------------------------------------------

  lemma LoadedManys(c: Plan, child: Plan, ids: seq<Uuid>, db: Db)
    requires WellFormed(c) && c.sel.path.None? && ValidDb(db) && c.sel.entity.one.Some?
    requires child == AddPred(SelectKey(c), ColumnIn(c.sel.entity.one.value.column, ids))
    requires Run(child, db).Success?
    ensures forall o :: o in Run(child, db).value ==>
              o.entity == c.sel.entity && Holds(ColumnIn(c.sel.entity.one.value.column, ids), o.cells)
  {
    SelectKeyHoldsKey(c, c.one.Some?);
    LoadedKeysWereAsked(SelectKey(c), c.sel.entity.one.value.column, ids, db);
    RunNodes(child, db);
  }

  lemma HeldKeys(e: Entity, ids: seq<Uuid>, objs: seq<Obj>)
    requires e.one.Some? && forall o :: o in objs ==> Holds(ColumnIn(e.one.value.column, ids), o.cells)
    ensures forall o :: o in objs ==> ForeignKey(e, o.cells).Some? && ForeignKey(e, o.cells).value in ids
    ensures forall key :: key in ObjKeys(e, objs) ==> key.Some? && key.value in ids
  {
    forall i | 0 <= i < |objs|
      ensures ObjKeys(e, objs)[i].Some? && ObjKeys(e, objs)[i].value in ids
    {
      assert objs[i] in objs;
    }
  }

  lemma LimitBoundsRun(child: Plan, db: Db)
    requires WellFormed(child) && Run(child, db).Success? && child.sel.limit.Some? && child.sel.limit.value > 0
    ensures |Run(child, db).value| <= child.sel.limit.value
  {
    RunCells(child, db);
  }

  /** A limit on a one-to-many sub-query bounds the whole batch: all the lists together hold at most that many nodes. */
  lemma LimitBoundsBatch(p: Plan, db: Db)
    requires WellFormed(p) && p.many.Some? && ValidDb(db) && Run(p, db).Success? && Cells(p, db) != []
    requires p.many.value.sel.limit.Some? && p.many.value.sel.limit.value > 0
    ensures Total(Lists(p.many.value.sel.entity, Cells(p, db), RunMany(p, Cells(p, db), db).value)) <=
            p.many.value.sel.limit.value
  {
    var cells, child := Cells(p, db), ManyChild(p, Cells(p, db));
    var e, manys := p.many.value.sel.entity, Run(child, db).value;
    LoadedManys(p.many.value, child, IdsOf(cells), db);
    HeldKeys(e, IdsOf(cells), manys);
    OneToManyConserves(e, cells, manys);
    LimitBoundsRun(child, db);
  }

  /** Some row at the far end of the one-to-many edge points back to `cells` and passes the sub-query's predicates. */
  ghost predicate HasChild(m: Plan, cells: Row, db: Db)
    requires m.sel.entity.one.Some?
  {
    exists r :: && r in db(m.sel.entity)
                && AllHold(m.sel.preds, r)
                && Holds(ColumnIn(m.sel.entity.one.value.column, [IdOf(cells)]), r)
  }

  lemma ChildIsFound(child: Plan, r: Row, db: Db)
    requires WellFormed(child) && child.sel.path.None? && ValidDb(db)
    requires child.sel.offset.None? && (child.sel.limit.Some? ==> child.sel.limit.value > 0)
    requires r in db(child.sel.entity) && AllHold(child.sel.preds, r)
    ensures RawRows(child, db) != []
  {
    var table := db(child.sel.entity);
    assert r in Filter(child.sel.preds, table);
    SpecHoldsId(child.sel, child.one.Some?);
    ReadsTableInOrder(SpecOf(child.sel, child.one.Some?), table);
    assert r in Sort(child.sel.order, Filter(child.sel.preds, table));
  }

  lemma SingleParentFinds(p: Plan, cells: Row, db: Db)
    requires WellFormed(p) && p.many.Some? && ValidDb(db) && HasChild(p.many.value, cells, db)
    requires p.many.value.sel.offset.None? && (p.many.value.sel.limit.Some? ==> p.many.value.sel.limit.value > 0)
    ensures NaiveMany(p, cells, db) != []
  {
    var m := SelectKey(p.many.value);
    var e := m.sel.entity;
    var own := ColumnIn(e.one.value.column, [IdOf(cells)]);
    var r :| r in db(e) && AllHold(m.sel.preds, r) && Holds(own, r);
    AllHoldConcat(m.sel.preds, [own], r);
    assert AllHold([own], r);
    ChildIsFound(AddPred(m, own), r, db);
  }

  lemma SomeListIsEmpty<T>(lists: seq<seq<T>>, bound: nat) returns (i: nat)
    requires Total(lists) <= bound < |lists|
    ensures i < |lists| && lists[i] == []
  {
    if forall j :: 0 <= j < |lists| ==> lists[j] != [] {
      TotalOfNonEmpty(lists);
      assert false;
    }
    i :| 0 <= i < |lists| && lists[i] == [];
  }

  /**
    So a limited sub-query is not a limit per parent: whenever more parents than
    the limit have children, some parent that has children is given none, while
    the nested-loop join would give it some.
   */
  lemma LimitStarvesParent(p: Plan, db: Db) returns (i: nat)
    requires WellFormed(p) && p.many.Some? && ValidDb(db) && Run(p, db).Success?
    requires p.many.value.sel.limit.Some? && 0 < p.many.value.sel.limit.value < |Cells(p, db)|
    requires p.many.value.sel.offset.None?
    requires forall j :: 0 <= j < |Cells(p, db)| ==> HasChild(p.many.value, Cells(p, db)[j], db)
    ensures i < |Run(p, db).value|
    ensures Run(p, db).value[i].many == List([])
    ensures NaiveMany(p, Cells(p, db)[i], db) != []
  {
    var cells, e := Cells(p, db), p.many.value.sel.entity;
    var manys := RunMany(p, cells, db).value;
    LimitBoundsBatch(p, db);
    i := SomeListIsEmpty(Lists(e, cells, manys), p.many.value.sel.limit.value);
    SingleParentFinds(p, cells[i], db);
    RunUnfolds(p, RunOne(p, cells, db).value, manys, db);
  }
}
