/**
  Eager loading against a nested-loop join. `Plan.Run` loads each edge with one query
  for all nodes and distributes the rows by key; `Naive` runs the sub-query again for
  every single node. Here is why a batch holds what the single queries would find.
 */
module Join {
  import opened Sql
  import opened Schema
  import opened Plan

  // ---------------------------------------------------------------------
  // The reference
  // ---------------------------------------------------------------------

  function NaiveOne(p: Plan, cells: Row, db: Db): Option<Obj>
    requires WellFormed(p) && p.one.Some?
    decreases Depth(p), 0
  {
    var key := ForeignKey(p.sel.entity, cells);
    if key.None? then None
    else
      var found := Naive(AddPred(p.one.value, ColumnIn("id", [key.value])), db);
      if found == [] then None else Some(found[0])
  }

  function NaiveMany(p: Plan, cells: Row, db: Db): seq<Obj>
    requires WellFormed(p) && p.many.Some?
    decreases Depth(p), 0
  {
    var column := p.many.value.sel.entity.one.value.column;
    Naive(AddPred(SelectKey(p.many.value), ColumnIn(column, [IdOf(cells)])), db)
  }

  function NaiveObj(p: Plan, cells: Row, db: Db): (o: Obj)
    requires WellFormed(p)
    ensures o.cells == cells
    decreases Depth(p), 1
  {
    Obj(
      p.sel.entity,
      cells,
      p.one.Some?,
      if p.one.None? then None else NaiveOne(p, cells, db),
      p.many.Some?,
      if p.many.None? then Nil else List(NaiveMany(p, cells, db)))
  }

  function NaiveRows(p: Plan, rows: seq<Row>, db: Db): (objs: seq<Obj>)
    requires WellFormed(p)
    ensures |objs| == |rows|
    ensures forall i :: 0 <= i < |rows| ==> objs[i].cells == Project(SpecColumns(p.sel, p.one.Some?), rows[i])
    decreases Depth(p), 2
  {
    var columns := SpecColumns(p.sel, p.one.Some?);
    seq(|rows|, i requires 0 <= i < |rows| => NaiveObj(p, Project(columns, rows[i]), db))
  }

  function Naive(p: Plan, db: Db): seq<Obj>
    requires WellFormed(p)
    decreases Depth(p), 3
  {
    NaiveRows(p, RawRows(p, db), db)
  }

  // ---------------------------------------------------------------------
  // Side conditions
  // ---------------------------------------------------------------------

  /** Only table columns are selected, at every level. */
  predicate FieldsValid(p: Plan) {
    && InvalidFields(p.sel) == []
    && (p.one.Some? ==> FieldsValid(p.one.value))
    && (p.many.Some? ==> FieldsValid(p.many.value))
  }

  predicate Unlimited(sel: Selection) {
    NonZero(SpecOf(sel, false).limit).None? && NonZero(SpecOf(sel, false).offset).None?
  }

  /** No sub-query carries a limit or an offset; the root may. */
  predicate ChildrenUnlimited(p: Plan) {
    && (p.one.Some? ==> Unlimited(p.one.value.sel) && ChildrenUnlimited(p.one.value))
    && (p.many.Some? ==> Unlimited(p.many.value.sel) && ChildrenUnlimited(p.many.value))
  }

  ghost predicate StartsInTable(p: Plan, db: Db) {
    DrawnFrom(From(p.sel, db), db(p.sel.entity))
  }

  // ---------------------------------------------------------------------
  // Column projection
  // ---------------------------------------------------------------------

  lemma {:induction false} WithoutKeepsOrder(c: string, fields: seq<string>)
    ensures forall i :: 0 <= i < |Without(c, fields)| ==> Without(c, fields)[i] != c
  {
    forall i | 0 <= i < |Without(c, fields)|
      ensures Without(c, fields)[i] != c
    {
      assert Without(c, fields)[i] in Without(c, fields);
    }
  }

  lemma FieldsValidOrNot(sel: Selection)
    ensures InvalidFields(sel) == [] <==> forall f | f in sel.fields :: f in Columns(sel.entity)
  {
    var bad := InvalidFields(sel);
    if bad != [] {
      assert bad[0] in bad;
    } else {
      assert forall f | f in sel.fields :: f !in bad;
    }
  }

  /**
    Whatever was selected, the columns sent to the database start with the id,
    hold it only there, hold every selected field and the key of the edge being
    loaded, and name table columns only.
   */
  lemma ProjectionHoldsKeys(sel: Selection, withOne: bool)
    requires withOne ==> sel.entity.one.Some?
    requires InvalidFields(sel) == []
    ensures var columns := SpecColumns(sel, withOne);
            && |columns| > 0 && columns[0] == "id"
            && (forall i :: 0 < i < |columns| ==> columns[i] != "id")
            && (forall f :: f in sel.fields ==> f in columns)
            && (withOne ==> sel.entity.one.value.column in columns)
            && (forall c :: c in columns ==> c in Columns(sel.entity))
  {
    FieldsValidOrNot(sel);
    if sel.fields != [] {
      WithoutKeepsOrder("id", sel.fields);
      var columns := ["id"] + Without("id", sel.fields);
      forall f | f in sel.fields
        ensures f in columns
      {
        if f != "id" {
          assert f in Without("id", sel.fields);
        }
      }
    }
  }

  /** The projected cells of a node carry the id and every selected foreign key of its row. */
  lemma CellsKeepKeys(e: Entity, columns: seq<string>, r: Row)
    requires "id" in columns && HasId(r)
    ensures IdOf(Project(columns, r)) == IdOf(r) && HasId(Project(columns, r))
    ensures e.one.Some? && e.one.value.column in columns ==>
              ForeignKey(e, Project(columns, r)) == ForeignKey(e, r)
  {
  }

  lemma SpecHoldsId(sel: Selection, withOne: bool)
    requires withOne ==> sel.entity.one.Some?
    ensures "id" in SpecColumns(sel, withOne)
    ensures withOne ==> sel.entity.one.value.column in SpecColumns(sel, withOne)
  {
    if sel.fields != [] {
      var columns := ["id"] + Without("id", sel.fields);
      assert columns[0] == "id";
    }
  }

  lemma SelectKeyHoldsKey(c: Plan, withOne: bool)
    requires c.sel.entity.one.Some?
    ensures c.sel.entity.one.value.column in SpecColumns(SelectKey(c).sel, withOne)
  {
    var column := c.sel.entity.one.value.column;
    if c.sel.fields != [] {
      var fields := SelectKey(c).sel.fields;
      assert column in Without("id", fields);
      var i :| 0 <= i < |Without("id", fields)| && Without("id", fields)[i] == column;
      assert (["id"] + Without("id", fields))[i + 1] == column;
    }
  }

  // ---------------------------------------------------------------------
  // Rows of a sub-query
  // ---------------------------------------------------------------------

  lemma ReadsTableInOrder(spec: QuerySpec, table: seq<Row>)
    requires "id" in spec.columns && DistinctIds(table)
    ensures var sorted := Sort(spec.order, Filter(spec.preds, table));
            && DistinctIds(sorted)
            && QueryNodes(spec, table) == Window(NonZero(spec.offset), NonZero(spec.limit), sorted)
  {
    FilterDistinctIds(spec.preds, table);
    DistinctKeepsAll(spec.columns, Filter(spec.preds, table));
    SortDistinctIds(spec.order, Filter(spec.preds, table));
  }

  lemma WindowDistinctIds(offset: Option<nat>, limit: Option<nat>, rows: seq<Row>)
    requires DistinctIds(rows)
    ensures DistinctIds(Window(offset, limit, rows))
  {
  }

  /** A query that starts from a table never yields two rows with one id. */
  lemma TableQueryDistinct(p: Plan, db: Db)
    requires WellFormed(p) && p.sel.path.None? && ValidDb(db)
    ensures DistinctIds(RawRows(p, db))
  {
    var spec := SpecOf(p.sel, p.one.Some?);
    SpecHoldsId(p.sel, p.one.Some?);
    ReadsTableInOrder(spec, db(p.sel.entity));
    WindowDistinctIds(
      NonZero(spec.offset), NonZero(spec.limit), Sort(spec.order, Filter(spec.preds, db(p.sel.entity))));
  }

  lemma RawIsSortedFilter(c: Plan, db: Db)
    requires WellFormed(c) && c.sel.path.None? && ValidDb(db) && Unlimited(c.sel)
    ensures RawRows(c, db) == Sort(c.sel.order, Filter(c.sel.preds, db(c.sel.entity)))
  {
    SpecHoldsId(c.sel, c.one.Some?);
    ReadsTableInOrder(SpecOf(c.sel, c.one.Some?), db(c.sel.entity));
  }

  lemma BatchFilter(ps: seq<Pred>, column: string, keys: seq<Uuid>, k: Uuid, table: seq<Row>)
    requires k in keys
    ensures Filter([ColumnIn(column, [k])], Filter(ps + [ColumnIn(column, keys)], table)) ==
            Filter(ps + [ColumnIn(column, [k])], table)
  {
    var batch, single := [ColumnIn(column, keys)], [ColumnIn(column, [k])];
    FilterTwice(ps + batch, single, table);
    forall r | r in table
      ensures AllHold(ps + batch + single, r) <==> AllHold(ps + single, r)
    {
      AllHoldConcat(ps, batch, r);
      AllHoldConcat(ps + batch, single, r);
      AllHoldConcat(ps, single, r);
      if AllHold(single, r) {
        assert Holds(single[0], r);
      }
    }
    FilterAgree(ps + batch + single, ps + single, table);
  }

  /** Running a sub-query for a batch of keys and keeping the rows of one key is running it for that key alone. */
  lemma BatchRestricts(c: Plan, column: string, keys: seq<Uuid>, k: Uuid, db: Db)
    requires WellFormed(c) && c.sel.path.None? && ValidDb(db) && Unlimited(c.sel)
    requires k in keys
    ensures Filter([ColumnIn(column, [k])], RawRows(AddPred(c, ColumnIn(column, keys)), db)) ==
            RawRows(AddPred(c, ColumnIn(column, [k])), db)
  {
    var table := db(c.sel.entity);
    RawIsSortedFilter(AddPred(c, ColumnIn(column, keys)), db);
    RawIsSortedFilter(AddPred(c, ColumnIn(column, [k])), db);
    FilterSort([ColumnIn(column, [k])], c.sel.order, Filter(c.sel.preds + [ColumnIn(column, keys)], table));
    BatchFilter(c.sel.preds, column, keys, k, table);
  }

  lemma FilterSnoc(ps: seq<Pred>, rows: seq<Row>, r: Row)
    ensures Filter(ps, rows + [r]) == Filter(ps, rows) + if AllHold(ps, r) then [r] else []
  {
    if rows != [] {
      assert (rows + [r])[1..] == rows[1..] + [r];
      FilterSnoc(ps, rows[1..], r);
    } else {
      assert rows + [r] == [r];
    }
  }

  lemma NaiveIgnoresPreds(c: Plan, pred: Pred, rows: seq<Row>, db: Db)
    requires WellFormed(c)
    ensures NaiveRows(AddPred(c, pred), rows, db) == NaiveRows(c, rows, db)
  {
    var columns := SpecColumns(c.sel, c.one.Some?);
    forall i | 0 <= i < |rows|
      ensures NaiveObj(AddPred(c, pred), Project(columns, rows[i]), db) == NaiveObj(c, Project(columns, rows[i]), db)
    {
    }
  }

  function MapBy(m: map<Row, Obj>, rows: seq<Row>): (objs: seq<Obj>)
    requires forall r | r in rows :: r in m
    ensures |objs| == |rows|
  {
    seq(|rows|, i requires 0 <= i < |rows| => m[rows[i]])
  }

  /** Picking the objects with key `k` is building the objects of the rows with key `k`. */
  lemma {:induction false} SelectMapped(m: map<Row, Obj>, pred: Pred, keys: seq<Option<Uuid>>, k: Uuid, rows: seq<Row>)
    requires forall r | r in rows :: r in m
    requires |keys| == |rows|
    requires forall i :: 0 <= i < |rows| ==> (keys[i] == Some(k) <==> Holds(pred, rows[i]))
    ensures Select(keys, MapBy(m, rows), k) == MapBy(m, Filter([pred], rows))
    decreases |rows|
  {
    if rows != [] {
      var n := |rows| - 1;
      SelectMapped(m, pred, keys[..n], k, rows[..n]);
      assert MapBy(m, rows)[..n] == MapBy(m, rows[..n]);
      assert rows == rows[..n] + [rows[n]];
      FilterSnoc([pred], rows[..n], rows[n]);
      assert AllHold([pred], rows[n]) <==> Holds(pred, rows[n]) by {
        assert [pred][0] == pred;
      }
    }
  }

  lemma SelectIsFilter(c: Plan, pred: Pred, keys: seq<Option<Uuid>>, k: Uuid, rows: seq<Row>, db: Db)
    requires WellFormed(c) && |keys| == |rows|
    requires forall i :: 0 <= i < |rows| ==> (keys[i] == Some(k) <==> Holds(pred, rows[i]))
    ensures Select(keys, NaiveRows(c, rows, db), k) == NaiveRows(c, Filter([pred], rows), db)
  {
    var columns := SpecColumns(c.sel, c.one.Some?);
    var m := map r | r in rows :: NaiveObj(c, Project(columns, r), db);
    SelectMapped(m, pred, keys, k, rows);
    assert MapBy(m, rows) == NaiveRows(c, rows, db);
    assert MapBy(m, Filter([pred], rows)) == NaiveRows(c, Filter([pred], rows), db);
  }

  function SomeKeys(ids: seq<Uuid>): (keys: seq<Option<Uuid>>)
    ensures |keys| == |ids|
    ensures forall i :: 0 <= i < |ids| ==> keys[i] == Some(ids[i])
  {
    seq(|ids|, i requires 0 <= i < |ids| => Some(ids[i]))
  }

  lemma {:induction false} SelectNothing<T>(keys: seq<Option<Uuid>>, xs: seq<T>, k: Uuid)
    requires |keys| == |xs| && Some(k) !in keys
    ensures Select(keys, xs, k) == []
    decreases |keys|
  {
    if keys != [] {
      SelectNothing(keys[..|keys| - 1], xs[..|keys| - 1], k);
    }
  }

  /** With distinct ids at most one object has the id `k`, and it is the one at `LastIndex`. */
  lemma {:induction false} SelectById<T>(ids: seq<Uuid>, xs: seq<T>, k: Uuid)
    requires |ids| == |xs|
    requires forall i, j :: 0 <= i < j < |ids| ==> ids[i] != ids[j]
    ensures Select(SomeKeys(ids), xs, k) ==
            if LastIndex(ids, k) < 0 then [] else [xs[LastIndex(ids, k)]]
    decreases |ids|
  {
    if ids != [] {
      var n := |ids| - 1;
      assert SomeKeys(ids)[..n] == SomeKeys(ids[..n]);
      SelectById(ids[..n], xs[..n], k);
      if ids[n] == k {
        SelectNothing(SomeKeys(ids[..n]), xs[..n], k);
      }
    }
  }

  // ---------------------------------------------------------------------
  // Key filters are honoured
  // ---------------------------------------------------------------------

  /** Every node loaded by a keyed sub-query has its id, or its foreign key, among the keys asked for. */
  lemma LoadedKeysWereAsked(c: Plan, column: string, keys: seq<Uuid>, db: Db)
    requires WellFormed(c) && c.sel.path.None? && ValidDb(db)
    requires column in SpecColumns(c.sel, c.one.Some?)
    ensures forall r :: r in Cells(AddPred(c, ColumnIn(column, keys)), db) ==>
              HasId(r) && Holds(ColumnIn(column, keys), r)
  {
    var child := AddPred(c, ColumnIn(column, keys));
    var columns := SpecColumns(c.sel, c.one.Some?);
    SpecHoldsId(c.sel, c.one.Some?);
    forall r | r in RawRows(child, db)
      ensures HasId(Project(columns, r)) && Holds(ColumnIn(column, keys), Project(columns, r))
    {
      assert Holds(child.sel.preds[|c.sel.preds|], r);
      assert r in db(c.sel.entity);
    }
  }

  // ---------------------------------------------------------------------
  // A batch and its single queries
  // ---------------------------------------------------------------------

  lemma CellsDistinct(p: Plan, db: Db)
    requires WellFormed(p) && p.sel.path.None? && ValidDb(db)
    ensures DistinctIds(Cells(p, db))
  {
    TableQueryDistinct(p, db);
    SpecHoldsId(p.sel, p.one.Some?);
    var columns, raw := SpecColumns(p.sel, p.one.Some?), RawRows(p, db);
    forall i | 0 <= i < |raw|
      ensures HasId(Cells(p, db)[i]) && IdOf(Cells(p, db)[i]) == IdOf(raw[i])
    {
      CellsKeepKeys(p.sel.entity, columns, raw[i]);
    }
  }

  lemma ObjIdsOfNaive(c: Plan, rows: seq<Row>, db: Db)
    requires WellFormed(c) && forall r :: r in rows ==> HasId(r)
    ensures ObjIds(NaiveRows(c, rows, db)) == IdsOf(rows)
  {
    SpecHoldsId(c.sel, c.one.Some?);
    forall i | 0 <= i < |rows|
      ensures ObjIds(NaiveRows(c, rows, db))[i] == IdOf(rows[i])
    {
      CellsKeepKeys(c.sel.entity, SpecColumns(c.sel, c.one.Some?), rows[i]);
    }
  }

  /** Many-to-one: looking a key up in the batch finds what querying for that key alone finds. */
  lemma OneAgrees(p: Plan, cells: seq<Row>, i: nat, db: Db)
    requires WellFormed(p) && ValidDb(db)
    requires p.one.Some? && Unlimited(p.one.value.sel)
    requires i < |cells| && ForeignKey(p.sel.entity, cells[i]).Some?
    ensures var k := ForeignKey(p.sel.entity, cells[i]).value;
            var ones := Naive(OneChild(p, cells), db);
            var found := Naive(AddPred(p.one.value, ColumnIn("id", [k])), db);
            var at := LastIndex(ObjIds(ones), k);
            found == if at < 0 then [] else [ones[at]]
  {
    var c, keys := p.one.value, OneKeys(p, cells);
    var k := ForeignKey(p.sel.entity, cells[i]).value;
    var batch := OneChild(p, cells);
    var rows := RawRows(batch, db);
    var single := ColumnIn("id", [k]);
    assert KeysOf(p.sel.entity, cells)[i] == Some(k);
    BatchRestricts(c, "id", keys, k, db);
    TableQueryDistinct(batch, db);
    SelectIsFilter(c, single, SomeKeys(IdsOf(rows)), k, rows, db);
    SelectById(IdsOf(rows), NaiveRows(c, rows, db), k);
    ObjIdsOfNaive(c, rows, db);
    NaiveIgnoresPreds(c, ColumnIn("id", keys), rows, db);
    NaiveIgnoresPreds(c, single, RawRows(AddPred(c, single), db), db);
  }

  lemma KeysOfNaive(e: Entity, columns: seq<string>, rows: seq<Row>, objs: seq<Obj>, k: Uuid)
    requires e.one.Some? && "id" in columns && e.one.value.column in columns
    requires |objs| == |rows| && forall j :: 0 <= j < |rows| ==> objs[j].cells == Project(columns, rows[j])
    requires forall r: Row :: r in rows ==>
               HasId(r) && e.one.value.column in r && r[e.one.value.column].Id?
    ensures forall j :: 0 <= j < |rows| ==>
              (ObjKeys(e, objs)[j] == Some(k) <==> Holds(ColumnIn(e.one.value.column, [k]), rows[j]))
  {
    forall j | 0 <= j < |rows|
      ensures ObjKeys(e, objs)[j] == ForeignKey(e, rows[j])
    {
      CellsKeepKeys(e, columns, rows[j]);
    }
  }

  /** One-to-many: the rows of the batch with a parent's key are what querying for that parent alone finds. */
  lemma ManyAgrees(p: Plan, cells: seq<Row>, i: nat, db: Db)
    requires WellFormed(p) && ValidDb(db)
    requires p.many.Some? && Unlimited(p.many.value.sel) && i < |cells|
    ensures var e := p.many.value.sel.entity;
            var manys := Naive(ManyChild(p, cells), db);
            var column := e.one.value.column;
            Select(ObjKeys(e, manys), manys, IdOf(cells[i])) ==
            Naive(AddPred(SelectKey(p.many.value), ColumnIn(column, [IdOf(cells[i])])), db)
  {
    var c, k := SelectKey(p.many.value), IdOf(cells[i]);
    var e := c.sel.entity;
    var column := e.one.value.column;
    var batch := ManyChild(p, cells);
    var rows, single := RawRows(batch, db), ColumnIn(column, [k]);
    var manys := NaiveRows(c, rows, db);
    assert IdsOf(cells)[i] == k;
    BatchRestricts(c, column, IdsOf(cells), k, db);
    SelectKeyHoldsKey(p.many.value, c.one.Some?);
    assert forall r :: r in rows ==> Holds(batch.sel.preds[|c.sel.preds|], r);
    SpecHoldsId(c.sel, c.one.Some?);
    KeysOfNaive(e, SpecColumns(c.sel, c.one.Some?), rows, manys, k);
    SelectIsFilter(c, single, ObjKeys(e, manys), k, rows, db);
    NaiveIgnoresPreds(c, ColumnIn(column, IdsOf(cells)), rows, db);
    NaiveIgnoresPreds(c, single, RawRows(AddPred(c, single), db), db);
  }

  lemma RunUnfolds(p: Plan, ones: seq<Obj>, manys: seq<Obj>, db: Db)
    requires WellFormed(p) && InvalidFields(p.sel) == [] && Cells(p, db) != []
    requires RunOne(p, Cells(p, db), db) == Success(ones) && RunMany(p, Cells(p, db), db) == Success(manys)
    ensures Run(p, db) == Success(AttachAll(EdgesOf(p), Cells(p, db), ones, manys))
  {
  }

  lemma EqualParts(c: Plan, q: Plan, db: Db)
    requires WellFormed(c) && WellFormed(q)
    requires EdgesOf(q) == EdgesOf(c) && q.sel.fields == c.sel.fields && Cells(q, db) == Cells(c, db)
    requires RunOne(q, Cells(c, db), db) == RunOne(c, Cells(c, db), db)
    requires RunOne(c, Cells(c, db), db).Success? ==>
               RunMany(q, Cells(c, db), db) == RunMany(c, Cells(c, db), db)
    ensures Run(q, db) == Run(c, db)
  {
  }
}
