/**
  Selecting columns never changes which nodes are loaded or how they are
  connected: it only decides which cells the nodes carry.
 */
module Projection {
  import opened Sql
  import opened Schema
  import opened Plan
  import opened Join

  /** The same request with every `Select` dropped, at every level. */
  function Unprojected(p: Plan): (q: Plan)
    ensures Depth(q) == Depth(p)
    ensures q.sel == p.sel.(fields := [])
    ensures q.one.Some? == p.one.Some? && q.many.Some? == p.many.Some?
  {
    Plan(
      p.sel.(fields := []),
      if p.one.Some? then Some(Unprojected(p.one.value)) else None,
      if p.many.Some? then Some(Unprojected(p.many.value)) else None)
  }

  /** A loaded graph without its payload: ids and edges. */
  datatype Shape = Shape(
    entity: Entity,
    id: Uuid,
    oneLoaded: bool,
    one: Option<Shape>,
    manyLoaded: bool,
    many: Option<seq<Shape>>
  )

  function ShapeOf(o: Obj): Shape {
    Shape(
      o.entity,
      IdOf(o.cells),
      o.oneLoaded,
      if o.one.Some? then Some(ShapeOf(o.one.value)) else None,
      o.manyLoaded,
      if o.many.List? then
        Some(seq(|o.many.nodes|, i requires 0 <= i < |o.many.nodes| => ShapeOf(o.many.nodes[i])))
      else None)
  }

  function ShapesOf(objs: seq<Obj>): (shapes: seq<Shape>)
    ensures |shapes| == |objs|
    ensures forall i :: 0 <= i < |objs| ==> shapes[i] == ShapeOf(objs[i])
  {
    seq(|objs|, i requires 0 <= i < |objs| => ShapeOf(objs[i]))
  }

  lemma {:induction false} UnprojectedIsWellFormed(p: Plan)
    requires WellFormed(p)
    ensures WellFormed(Unprojected(p))
  {
    if p.one.Some? {
      UnprojectedIsWellFormed(p.one.value);
    }
    if p.many.Some? {
      UnprojectedIsWellFormed(p.many.value);
    }
  }

  /** The rows visited do not depend on the selected columns, even under DISTINCT. */
  lemma SameRows(s1: QuerySpec, s2: QuerySpec, from: seq<Row>, table: seq<Row>)
    requires s2 == s1.(columns := s2.columns)
    requires "id" in s1.columns && "id" in s2.columns
    requires DistinctIds(table) && DrawnFrom(from, table)
    ensures QueryNodes(s1, from) == QueryNodes(s2, from)
  {
    DistinctIgnoresColumns(s1.columns, s2.columns, Filter(s1.preds, from), table);
  }

  lemma RawRowsUnprojected(p: Plan, db: Db)
    requires WellFormed(p) && WellFormed(Unprojected(p)) && ValidDb(db) && StartsInTable(p, db)
    ensures RawRows(p, db) == RawRows(Unprojected(p), db)
  {
    var q := Unprojected(p);
    SpecHoldsId(p.sel, p.one.Some?);
    SpecHoldsId(q.sel, q.one.Some?);
    SameRows(SpecOf(p.sel, p.one.Some?), SpecOf(q.sel, q.one.Some?), From(p.sel, db), db(p.sel.entity));
  }

  /** Two lists of cells of one entity that agree on the ids and, if `keyed`, on the foreign keys. */
  predicate SameKeys(e: Entity, keyed: bool, c1: seq<Row>, c2: seq<Row>)
    requires keyed ==> e.one.Some?
  {
    && |c1| == |c2|
    && IdsOf(c1) == IdsOf(c2)
    && (keyed ==> KeysOf(e, c1) == KeysOf(e, c2))
  }

  lemma ProjectionsShareKeys(e: Entity, keyed: bool, columns1: seq<string>, columns2: seq<string>, rows: seq<Row>)
    requires "id" in columns1 && "id" in columns2 && forall r :: r in rows ==> HasId(r)
    requires keyed ==> e.one.Some? && e.one.value.column in columns1 && e.one.value.column in columns2
    ensures SameKeys(e, keyed, ProjectAll(columns1, rows), ProjectAll(columns2, rows))
  {
    forall i | 0 <= i < |rows|
      ensures IdOf(Project(columns1, rows[i])) == IdOf(Project(columns2, rows[i]))
      ensures keyed ==> ForeignKey(e, Project(columns1, rows[i])) == ForeignKey(e, Project(columns2, rows[i]))
    {
      CellsKeepKeys(e, columns1, rows[i]);
      CellsKeepKeys(e, columns2, rows[i]);
    }
  }

  /** The foreign key is read over the edge being loaded, or because the parent's edge asked for it. */
  predicate KeySelected(p: Plan) {
    p.sel.entity.one.Some? && p.sel.entity.one.value.column in SpecColumns(p.sel, p.one.Some?)
  }

  lemma CellsUnprojected(p: Plan, keyed: bool, db: Db)
    requires WellFormed(p) && WellFormed(Unprojected(p)) && ValidDb(db) && StartsInTable(p, db)
    requires keyed ==> KeySelected(p)
    ensures SameKeys(p.sel.entity, keyed, Cells(p, db), Cells(Unprojected(p), db))
  {
    var q := Unprojected(p);
    RawRowsUnprojected(p, db);
    SpecHoldsId(p.sel, p.one.Some?);
    SpecHoldsId(q.sel, q.one.Some?);
    ProjectionsShareKeys(
      p.sel.entity, keyed, SpecColumns(p.sel, p.one.Some?), SpecColumns(q.sel, q.one.Some?), RawRows(p, db));
  }

  lemma OneChildUnprojected(p: Plan, c1: seq<Row>, c2: seq<Row>)
    requires WellFormed(p) && WellFormed(Unprojected(p)) && p.one.Some?
    requires SameKeys(p.sel.entity, true, c1, c2)
    ensures OneKeys(p, c1) == OneKeys(Unprojected(p), c2)
    ensures Unprojected(OneChild(p, c1)) == OneChild(Unprojected(p), c2)
  {
  }

  lemma SelectKeyUnprojected(c: Plan, pred: Pred)
    requires c.sel.entity.one.Some?
    ensures Unprojected(AddPred(SelectKey(c), pred)) == AddPred(Unprojected(c), pred)
    ensures SelectKey(Unprojected(c)) == Unprojected(c)
  {
  }

  lemma ManyChildUnprojected(p: Plan, c1: seq<Row>, c2: seq<Row>)
    requires WellFormed(p) && WellFormed(Unprojected(p)) && p.many.Some?
    requires SameKeys(p.sel.entity, false, c1, c2)
    ensures Unprojected(ManyChild(p, c1)) == ManyChild(Unprojected(p), c2)
  {
    var m := p.many.value;
    SelectKeyUnprojected(m, ColumnIn(m.sel.entity.one.value.column, IdsOf(c1)));
  }

  // ---------------------------------------------------------------------
  // Shapes of the parts
  // ---------------------------------------------------------------------

  lemma {:induction false} SelectShapes(k1: seq<Option<Uuid>>, o1: seq<Obj>, o2: seq<Obj>, k: Uuid)
    requires |k1| == |o1| == |o2| && ShapesOf(o1) == ShapesOf(o2)
    ensures ShapesOf(Select(k1, o1, k)) == ShapesOf(Select(k1, o2, k))
    decreases |k1|
  {
    if k1 != [] {
      var n := |k1| - 1;
      assert ShapesOf(o1[..n]) == ShapesOf(o1)[..n] && ShapesOf(o2[..n]) == ShapesOf(o2)[..n];
      SelectShapes(k1[..n], o1[..n], o2[..n], k);
      assert ShapeOf(o1[n]) == ShapesOf(o1)[n] && ShapeOf(o2[n]) == ShapesOf(o2)[n];
      var s1, s2 := Select(k1[..n], o1[..n], k), Select(k1[..n], o2[..n], k);
      assert ShapesOf(s1 + [o1[n]]) == ShapesOf(s1) + [ShapeOf(o1[n])];
      assert ShapesOf(s2 + [o2[n]]) == ShapesOf(s2) + [ShapeOf(o2[n])];
    }
  }

  lemma AttachOneShape(e: Entity, c1: seq<Row>, c2: seq<Row>, i: nat, o1: seq<Obj>, o2: seq<Obj>)
    requires e.one.Some? && i < |c1| && SameKeys(e, true, c1, c2) && ShapesOf(o1) == ShapesOf(o2)
    ensures AttachOne(e, c1, i, o1).Some? == AttachOne(e, c2, i, o2).Some?
    ensures AttachOne(e, c1, i, o1).Some? ==>
              ShapeOf(AttachOne(e, c1, i, o1).value) == ShapeOf(AttachOne(e, c2, i, o2).value)
  {
    assert |o1| == |ShapesOf(o1)| == |o2|;
    forall j | 0 <= j < |o1|
      ensures ObjIds(o1)[j] == ObjIds(o2)[j]
    {
      assert ShapesOf(o1)[j].id == ShapesOf(o2)[j].id;
    }
    assert ObjIds(o1) == ObjIds(o2);
    assert KeysOf(e, c1)[i] == KeysOf(e, c2)[i];
    var key := ForeignKey(e, c1[i]);
    if key.Some? {
      var at := LastIndex(ObjIds(o1), key.value);
      if at >= 0 {
        assert ShapesOf(o1)[at] == ShapesOf(o2)[at];
      }
    }
  }

  lemma AttachManyShape(e: Entity, c1: seq<Row>, c2: seq<Row>, i: nat, o1: seq<Obj>, o2: seq<Obj>)
    requires e.one.Some? && i < |c1| && |c1| == |c2| && IdsOf(c1) == IdsOf(c2)
    requires ShapesOf(o1) == ShapesOf(o2) && |o1| == |o2| && ObjKeys(e, o1) == ObjKeys(e, o2)
    ensures ShapesOf(AttachMany(e, c1, i, o1)) == ShapesOf(AttachMany(e, c2, i, o2))
  {
    assert IdsOf(c1)[i] == IdsOf(c2)[i];
    if i == LastIndex(IdsOf(c1), IdOf(c1[i])) {
      SelectShapes(ObjKeys(e, o1), o1, o2, IdOf(c1[i]));
    }
  }

  /** The nodes of a run and their cells. */
  lemma RunCells(p: Plan, db: Db)
    requires WellFormed(p) && Run(p, db).Success?
    ensures |Run(p, db).value| == |Cells(p, db)|
    ensures forall i :: 0 <= i < |Cells(p, db)| ==> Run(p, db).value[i].cells == Cells(p, db)[i]
  {
  }

  lemma RunNodes(p: Plan, db: Db)
    requires WellFormed(p) && Run(p, db).Success?
    ensures forall o :: o in Run(p, db).value ==> o.entity == p.sel.entity && o.cells in Cells(p, db)
  {
    RunCells(p, db);
    var cells, objs := Cells(p, db), Run(p, db).value;
    forall i | 0 <= i < |objs|
      ensures objs[i].entity == p.sel.entity && objs[i].cells in cells
    {
      assert cells[i] in cells;
    }
  }

  lemma KeysUnprojected(p: Plan, db: Db)
    requires WellFormed(p) && WellFormed(Unprojected(p)) && ValidDb(db) && StartsInTable(p, db)
    requires KeySelected(p) && Run(p, db).Success? && Run(Unprojected(p), db).Success?
    ensures ObjKeys(p.sel.entity, Run(p, db).value) == ObjKeys(p.sel.entity, Run(Unprojected(p), db).value)
  {
    var e, q := p.sel.entity, Unprojected(p);
    CellsUnprojected(p, true, db);
    RunCells(p, db);
    RunCells(q, db);
    forall i | 0 <= i < |Cells(p, db)|
      ensures ForeignKey(e, Cells(p, db)[i]) == ForeignKey(e, Cells(q, db)[i])
    {
      assert KeysOf(e, Cells(p, db))[i] == KeysOf(e, Cells(q, db))[i];
    }
  }

  lemma EqualShapes(a: Obj, b: Obj)
    requires a.entity == b.entity && IdOf(a.cells) == IdOf(b.cells)
    requires a.oneLoaded == b.oneLoaded && a.manyLoaded == b.manyLoaded
    requires a.one.Some? == b.one.Some? && (a.one.Some? ==> ShapeOf(a.one.value) == ShapeOf(b.one.value))
    requires a.many.List? == b.many.List? && (a.many.List? ==> ShapesOf(a.many.nodes) == ShapesOf(b.many.nodes))
    ensures ShapeOf(a) == ShapeOf(b)
  {
    if a.many.List? {
      assert ShapeOf(a).many.value == ShapesOf(a.many.nodes);
      assert ShapeOf(b).many.value == ShapesOf(b.many.nodes);
    }
  }

  lemma AttachAllShapes(es: EdgeSet, c1: seq<Row>, c2: seq<Row>, o1: seq<Obj>, o2: seq<Obj>, m1: seq<Obj>, m2: seq<Obj>)
    requires Loadable(es) && SameKeys(es.entity, es.one, c1, c2)
    requires ShapesOf(o1) == ShapesOf(o2) && ShapesOf(m1) == ShapesOf(m2) && |m1| == |m2|
    requires es.many.Some? ==> ObjKeys(es.many.value, m1) == ObjKeys(es.many.value, m2)
    ensures ShapesOf(AttachAll(es, c1, o1, m1)) == ShapesOf(AttachAll(es, c2, o2, m2))
  {
    forall i | 0 <= i < |c1|
      ensures ShapeOf(Attach(es, c1, i, o1, m1)) == ShapeOf(Attach(es, c2, i, o2, m2))
    {
      assert IdsOf(c1)[i] == IdsOf(c2)[i];
      if es.one {
        AttachOneShape(es.entity, c1, c2, i, o1, o2);
      }
      if es.many.Some? {
        AttachManyShape(es.many.value, c1, c2, i, m1, m2);
      }
      EqualShapes(Attach(es, c1, i, o1, m1), Attach(es, c2, i, o2, m2));
    }
  }

  /**
    For any selection of table columns, at any level of any request (limits,
    offsets, DISTINCT and traversals included), the loaded graph has the ids and
    edges it has when nothing is selected.
   */
  lemma {:induction false} ProjectionKeepsShape(p: Plan, db: Db)
    requires WellFormed(p) && FieldsValid(p) && ValidDb(db) && StartsInTable(p, db)
    ensures WellFormed(Unprojected(p))
    ensures Run(p, db).Success? && Run(Unprojected(p), db).Success?
    ensures ShapesOf(Run(p, db).value) == ShapesOf(Run(Unprojected(p), db).value)
    decreases Depth(p)
  {
    hide Cells, FirstKeys, Select, LastIndex, ValidDb, ShapeOf, SpecOf;
    UnprojectedIsWellFormed(p);
    CellsUnprojected(p, p.one.Some?, db) by {
      SpecHoldsId(p.sel, p.one.Some?);
    }
    var q := Unprojected(p);
    var c1, c2 := Cells(p, db), Cells(q, db);
    if c1 != [] {
      var o1, o2, m1, m2: seq<Obj> := [], [], [], [];
      if p.one.Some? {
        OneChildUnprojected(p, c1, c2);
        if OneKeys(p, c1) != [] {
          ProjectionKeepsShape(OneChild(p, c1), db);
          o1, o2 := Run(OneChild(p, c1), db).value, Run(OneChild(q, c2), db).value;
        }
      }
      if p.many.Some? {
        var child := ManyChild(p, c1);
        ManyChildUnprojected(p, c1, c2);
        ManyChildFields(p, c1);
        ProjectionKeepsShape(child, db);
        m1, m2 := Run(child, db).value, Run(ManyChild(q, c2), db).value;
        KeysUnprojected(child, db) by {
          SelectKeyHoldsKey(p.many.value, p.many.value.one.Some?);
        }
      }
      RunUnfolds(p, o1, m1, db);
      RunUnfolds(q, o2, m2, db);
      assert |m1| == |ShapesOf(m1)| == |ShapesOf(m2)| == |m2|;
      AttachAllShapes(EdgesOf(p), c1, c2, o1, o2, m1, m2);
    }
  }

  lemma ManyChildFields(p: Plan, cells: seq<Row>)
    requires WellFormed(p) && FieldsValid(p) && p.many.Some?
    ensures FieldsValid(ManyChild(p, cells))
  {
    FieldsValidOrNot(p.many.value.sel);
    FieldsValidOrNot(ManyChild(p, cells).sel);
  }
}
