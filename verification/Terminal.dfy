/**
  The calls that end a builder chain: `IDs`, `First`, `FirstID`, `Only`,
  `Exist` and the client's `Get`. `IDs` does not go through the node reader but
  through a selector of its own, so that it agrees with `All` needs proof.
 */
module Terminal {
  import opened Sql
  import opened Schema
  import opened Plan
  import opened Join
  import opened Projection

  const MAX_INT32: nat := 0x7fff_ffff

  /** The selector built by `sqlQuery`. */
  function SqlQuery(sel: Selection): Selector {
    Selector(
      if sel.fields == [] then Columns(sel.entity) else sel.fields,
      sel.unique == Some(true),
      sel.preds,
      sel.order,
      sel.offset,
      if sel.limit.Some? then sel.limit else if sel.offset.Some? then Some(MAX_INT32) else None)
  }

  /** The builder as `IDs` leaves it: the id is selected and a traversal is made unique. */
  function SelectIds(sel: Selection): Selection {
    sel.(
      unique := if sel.unique.None? && sel.path.Some? then Some(true) else sel.unique,
      fields := sel.fields + ["id"])
  }

  /** `IDs` scans into a list of uuids, which takes exactly one selected column. */
  function Ids(sel: Selection, db: Db): Result<seq<Uuid>> {
    var q := SelectIds(sel);
    if InvalidFields(q) != [] then Failure(InvalidField(InvalidFields(q)[0]))
    else if |q.fields| != 1 then Failure(ScanColumns(|q.fields|))
    else Success(IdsOf(Execute(SqlQuery(q), From(q, db))))
  }

  function WithLimit(p: Plan, limit: Option<nat>): (q: Plan)
    ensures WellFormed(q) == WellFormed(p) && Depth(q) == Depth(p)
  {
    p.(sel := p.sel.(limit := limit))
  }

  function First(p: Plan, db: Db): Result<Obj>
    requires WellFormed(p)
  {
    var nodes :- Run(WithLimit(p, Some(1)), db);
    if nodes == [] then Failure(NotFound) else Success(nodes[0])
  }

  function Only(p: Plan, db: Db): Result<Obj>
    requires WellFormed(p)
  {
    var nodes :- Run(WithLimit(p, Some(2)), db);
    if |nodes| == 1 then Success(nodes[0])
    else if nodes == [] then Failure(NotFound)
    else Failure(NotSingular)
  }

  function FirstId(sel: Selection, db: Db): Result<Uuid> {
    var ids :- Ids(sel.(limit := Some(1)), db);
    if ids == [] then Failure(NotFound) else Success(ids[0])
  }

  function Exist(sel: Selection, db: Db): Result<bool> {
    match FirstId(sel, db)
    case Failure(NotFound) => Success(false)
    case Failure(error) => Failure(error)
    case Success(_) => Success(true)
  }

  /** `Query().Where(ID(id))` on a client of entity `e`. */
  function ById(e: Entity, id: Uuid): Plan {
    Plan(Selection(e, [], None, None, None, [ColumnIn("id", [id])], [], None), None, None)
  }

  function Get(e: Entity, id: Uuid, db: Db): Result<Obj> {
    Only(ById(e, id), db)
  }

  // ---------------------------------------------------------------------
  // IDs and All
  // ---------------------------------------------------------------------

  lemma WindowWithinInt32(offset: Option<nat>, limit: Option<nat>, rows: seq<Row>)
    requires |rows| <= MAX_INT32 && limit != Some(0)
    ensures Window(offset, if limit.Some? then limit else if offset.Some? then Some(MAX_INT32) else None, rows) ==
            Window(
              NonZero(if offset.Some? then offset.value else 0),
              NonZero(if limit.Some? then limit.value else 0),
              rows)
  {
  }

  lemma SameUnwindowed(p: Plan, db: Db)
    requires WellFormed(p) && ValidDb(db) && StartsInTable(p, db) && p.sel.fields == []
    ensures var spec := SpecOf(p.sel, p.one.Some?);
            Unwindowed(SqlQuery(SelectIds(p.sel)), From(p.sel, db)) ==
            Unwindowed(Selector(spec.columns, spec.unique, spec.preds, spec.order, None, None), From(p.sel, db))
  {
    SpecHoldsId(p.sel, p.one.Some?);
    var columns := SpecColumns(p.sel, p.one.Some?);
    assert SelectIds(p.sel).fields == ["id"] && "id" in ["id"];
    DistinctIgnoresColumns(["id"], columns, Filter(p.sel.preds, From(p.sel, db)), db(p.sel.entity));
  }

  lemma SameCellIds(p: Plan, db: Db)
    requires WellFormed(p) && ValidDb(db) && StartsInTable(p, db)
    ensures IdsOf(Cells(p, db)) == IdsOf(RawRows(p, db))
  {
    SpecHoldsId(p.sel, p.one.Some?);
    forall i | 0 <= i < |RawRows(p, db)|
      ensures IdOf(Cells(p, db)[i]) == IdOf(RawRows(p, db)[i])
    {
      assert RawRows(p, db)[i] in RawRows(p, db);
      CellsKeepKeys(p.sel.entity, SpecColumns(p.sel, p.one.Some?), RawRows(p, db)[i]);
    }
  }

  lemma IdsFields(sel: Selection)
    requires sel.fields == []
    ensures SelectIds(sel).fields == ["id"] && InvalidFields(SelectIds(sel)) == []
  {
    assert Columns(sel.entity)[0] in Columns(sel.entity);
    FieldsValidOrNot(SelectIds(sel));
  }

  /** `IDs` lists the ids of the nodes `All` returns, in the same order, traversals and offsets included. */
  lemma IdsAreIdsOfAll(p: Plan, db: Db)
    requires WellFormed(p) && ValidDb(db) && StartsInTable(p, db)
    requires p.sel.fields == [] && p.sel.limit != Some(0) && |From(p.sel, db)| < 0x8000_0000
    ensures Ids(p.sel, db) == Success(IdsOf(Cells(p, db)))
    ensures Run(p, db).Success? ==> Ids(p.sel, db) == Success(ObjIds(Run(p, db).value))
  {
    IdsFields(p.sel);
    SameUnwindowed(p, db);
    SameCellIds(p, db);
    var rows := Unwindowed(SqlQuery(SelectIds(p.sel)), From(p.sel, db));
    WindowWithinInt32(p.sel.offset, p.sel.limit, rows);
    if Run(p, db).Success? {
      RunCells(p, db);
      assert ObjIds(Run(p, db).value) == IdsOf(Cells(p, db));
    }
  }

  /**
    The condition on the limit cannot be dropped: `Limit(0)` makes `IDs` return
    nothing, while the node reader takes a zero limit for no limit. So without an
    earlier `Select` the two agree exactly when the limit is not zero or there is
    nothing to list.
   */
  lemma IdsAgreeIff(p: Plan, db: Db)
    requires WellFormed(p) && ValidDb(db) && StartsInTable(p, db)
    requires p.sel.fields == [] && |From(p.sel, db)| < 0x8000_0000
    ensures Ids(p.sel, db) == Success(IdsOf(Cells(p, db))) <==> p.sel.limit != Some(0) || Cells(p, db) == []
    ensures p.sel.limit == Some(0) ==> Ids(p.sel, db) == Success([]) && Cells(p, db) == Cells(WithLimit(p, None), db)
  {
    if p.sel.limit == Some(0) {
      IdsFields(p.sel);
    } else {
      IdsAreIdsOfAll(p, db);
    }
  }

  /** A second `IDs` on one builder selects the id twice and cannot be scanned. */
  lemma SecondIdsFails(sel: Selection, db: Db)
    requires Ids(sel, db).Success?
    ensures Ids(SelectIds(sel), db) == Failure(ScanColumns(2))
  {
    FieldsValidOrNot(SelectIds(sel));
    FieldsValidOrNot(SelectIds(SelectIds(sel)));
  }

  // ---------------------------------------------------------------------
  // Only, First, Exist, Get
  // ---------------------------------------------------------------------

  lemma {:induction false} ValidFieldsRun(p: Plan, db: Db)
    requires WellFormed(p) && FieldsValid(p)
    ensures Run(p, db).Success?
    decreases Depth(p)
  {
    var cells := Cells(p, db);
    if cells != [] {
      if p.one.Some? && OneKeys(p, cells) != [] {
        ValidFieldsRun(OneChild(p, cells), db);
      }
      if p.many.Some? {
        ManyChildFields(p, cells);
        ValidFieldsRun(ManyChild(p, cells), db);
      }
    }
  }

  lemma WindowUnderLimit(offset: Option<nat>, n: nat, rows: seq<Row>)
    ensures var all, some := Window(offset, None, rows), Window(offset, Some(n), rows);
            |some| == (if |all| <= n then |all| else n) && some <= all
  {
  }

  lemma NodesUnderLimit(spec: QuerySpec, n: nat, from: seq<Row>)
    requires n > 0
    ensures var all, some := QueryNodes(spec.(limit := 0), from), QueryNodes(spec.(limit := n), from);
            |some| == (if |all| <= n then |all| else n) && some <= all
  {
    var rows := Unwindowed(Selector(spec.columns, spec.unique, spec.preds, spec.order, None, None), from);
    WindowUnderLimit(NonZero(spec.offset), n, rows);
  }

  lemma RowsUnderLimit(p: Plan, n: nat, db: Db)
    requires WellFormed(p) && n > 0
    ensures var all, some := RawRows(WithLimit(p, None), db), RawRows(WithLimit(p, Some(n)), db);
            |some| == (if |all| <= n then |all| else n) && some <= all
  {
    hide QueryNodes;
    var spec := SpecOf(p.sel, p.one.Some?);
    NodesUnderLimit(spec, n, From(p.sel, db));
    assert SpecOf(WithLimit(p, None).sel, p.one.Some?) == spec.(limit := 0);
    assert SpecOf(WithLimit(p, Some(n)).sel, p.one.Some?) == spec.(limit := n);
  }

  lemma CellsUnderLimit(p: Plan, n: nat, db: Db)
    requires WellFormed(p) && n > 0
    ensures var all, some := Cells(WithLimit(p, None), db), Cells(WithLimit(p, Some(n)), db);
            |some| == (if |all| <= n then |all| else n) && some <= all
  {
    hide RawRows;
    RowsUnderLimit(p, n, db);
  }

  /** Which sub-queries run, and how, does not depend on the node's own limit, order or predicates. */
  lemma PartsIgnoreSelection(p: Plan, q: Plan, cells: seq<Row>, db: Db)
    requires WellFormed(p) && WellFormed(q)
    requires q.one == p.one && q.many == p.many && q.sel.entity == p.sel.entity
    ensures RunOne(q, cells, db) == RunOne(p, cells, db)
    ensures RunMany(q, cells, db) == RunMany(p, cells, db)
  {
    if p.one.Some? {
      assert OneChild(q, cells) == OneChild(p, cells);
    }
  }

  lemma LimitAboveCount(p: Plan, n: nat, db: Db)
    requires WellFormed(p) && 0 < |Cells(WithLimit(p, None), db)| <= n
    ensures Run(WithLimit(p, Some(n)), db) == Run(WithLimit(p, None), db)
  {
    var all, some := WithLimit(p, None), WithLimit(p, Some(n));
    CellsUnderLimit(p, n, db);
    PartsIgnoreSelection(all, some, Cells(all, db), db);
    EqualParts(all, some, db);
  }

  /**
    `Only` is exact although it reads at most two rows: whatever limit was set
    before, it returns the node of a query that matches one node, with its edges,
    and otherwise says whether there are none or several.
   */
  lemma OnlyIsExact(p: Plan, db: Db)
    requires WellFormed(p) && FieldsValid(p)
    ensures var all := Run(WithLimit(p, None), db);
            && all.Success?
            && (Only(p, db) == Failure(NotFound) <==> all.value == [])
            && (Only(p, db) == Failure(NotSingular) <==> |all.value| > 1)
            && (forall o :: Only(p, db) == Success(o) <==> all.value == [o])
  {
    ValidFieldsRun(WithLimit(p, None), db);
    ValidFieldsRun(WithLimit(p, Some(2)), db);
    CellsUnderLimit(p, 2, db);
    RunCells(WithLimit(p, None), db);
    RunCells(WithLimit(p, Some(2)), db);
    if |Cells(WithLimit(p, None), db)| == 1 {
      LimitAboveCount(p, 2, db);
    }
  }

  /** `First` is the first node of a query without the limit, or not-found if there is none, and nothing else. */
  lemma FirstIsExact(p: Plan, db: Db)
    requires WellFormed(p) && FieldsValid(p)
    ensures var all := Run(WithLimit(p, None), db);
            && all.Success?
            && (all.value == [] ==> First(p, db) == Failure(NotFound))
            && (all.value != [] ==>
                  && First(p, db).Success?
                  && First(p, db).value.entity == p.sel.entity
                  && First(p, db).value.cells == all.value[0].cells)
  {
    hide Run, Cells;
    var all, one := WithLimit(p, None), WithLimit(p, Some(1));
    ValidFieldsRun(all, db);
    ValidFieldsRun(one, db);
    CellsUnderLimit(p, 1, db);
    RunCells(all, db);
    RunCells(one, db);
    RunNodes(one, db);
    if Run(all, db).value != [] {
      var o := Run(one, db).value[0];
      assert o in Run(one, db).value && Cells(one, db)[0] == Cells(all, db)[0];
    }
  }

  lemma {:induction false} IdIsValid(e: Entity, fields: seq<string>)
    ensures InvalidAmong(e, fields + ["id"]) == InvalidAmong(e, fields)
  {
    if fields == [] {
      assert fields + ["id"] == ["id"] && Columns(e)[0] in Columns(e);
    } else {
      assert (fields + ["id"])[1..] == fields[1..] + ["id"];
      IdIsValid(e, fields[1..]);
    }
  }

  /**
    `FirstID` is the id of the first node of a query without the limit, or not-found;
    after an earlier selection it fails, with its first unknown column or because the
    id comes on top of it.
   */
  lemma FirstIdIsExact(p: Plan, db: Db)
    requires WellFormed(p) && ValidDb(db) && StartsInTable(p, db) && |From(p.sel, db)| < 0x8000_0000
    ensures FirstId(p.sel, db) ==
            if InvalidFields(p.sel) != [] then Failure(InvalidField(InvalidFields(p.sel)[0]))
            else if p.sel.fields != [] then Failure(ScanColumns(|p.sel.fields| + 1))
            else
              var all := Cells(WithLimit(p, None), db);
              if all == [] then Failure(NotFound) else Success(IdOf(all[0]))
  {
    hide Cells;
    IdIsValid(p.sel.entity, p.sel.fields);
    if p.sel.fields == [] {
      var one := WithLimit(p, Some(1));
      IdsAreIdsOfAll(one, db);
      CellsUnderLimit(p, 1, db);
      assert IdsOf(Cells(one, db)) == [] <==> Cells(one, db) == [];
    }
  }

  /** `Exist` answers whether `All` without a limit would return anything, with the same failures. */
  lemma ExistIsExact(p: Plan, db: Db)
    requires WellFormed(p) && ValidDb(db) && StartsInTable(p, db) && |From(p.sel, db)| < 0x8000_0000
    ensures Exist(p.sel, db) ==
            if InvalidFields(p.sel) != [] then Failure(InvalidField(InvalidFields(p.sel)[0]))
            else if p.sel.fields != [] then Failure(ScanColumns(|p.sel.fields| + 1))
            else Success(Cells(WithLimit(p, None), db) != [])
  {
    hide Cells, FirstId;
    FirstIdIsExact(p, db);
  }

  lemma DistinctPair(rows: seq<Row>)
    requires DistinctIds(rows) && |rows| > 1
    ensures IdOf(rows[0]) != IdOf(rows[1]) && rows[0] in rows && rows[1] in rows
  {
  }

  /** A filter that only one row of a table passes yields that row, once. */
  lemma FilterOne(ps: seq<Pred>, table: seq<Row>, r: Row)
    requires DistinctIds(table) && r in table && AllHold(ps, r)
    requires forall x :: x in table && AllHold(ps, x) ==> IdOf(x) == IdOf(r)
    ensures Filter(ps, table) == [r]
  {
    var rows := Filter(ps, table);
    FilterDistinctIds(ps, table);
    assert r in rows;
    if |rows| > 1 {
      DistinctPair(rows);
      assert false;
    }
  }

  lemma RowsById(e: Entity, id: Uuid, db: Db)
    requires ValidDb(db)
    ensures forall r :: r in db(e) && IdOf(r) == id ==> RawRows(WithLimit(ById(e, id), None), db) == [r]
    ensures (forall r :: r in db(e) ==> IdOf(r) != id) ==> RawRows(WithLimit(ById(e, id), None), db) == []
  {
    var p, table := WithLimit(ById(e, id), None), db(e);
    RawIsSortedFilter(p, db);
    forall r | r in table
      ensures AllHold(p.sel.preds, r) <==> IdOf(r) == id
    {
      assert Holds(p.sel.preds[0], r) <==> IdOf(r) == id;
    }
    forall r | r in table && IdOf(r) == id
      ensures Sort([], Filter(p.sel.preds, table)) == [r]
    {
      FilterOne(p.sel.preds, table, r);
    }
    var kept := Filter(p.sel.preds, table);
    assert kept == [] || kept[0] in table;
  }

  /** All columns of a row, with its values. */
  ghost predicate WholeRow(e: Entity, cells: Row, r: Row) {
    && (forall c :: c in cells <==> IsColumn(e, c) && c in r)
    && (forall c | c in cells :: cells[c] == r[c])
  }

  /**
    `Get` is lookup by primary key: it yields a node with all columns of the row that
    has the id and no edge loaded, or not-found, and never reports several.
   */
  lemma GetIsLookup(e: Entity, id: Uuid, db: Db)
    requires ValidDb(db)
    ensures forall r :: r in db(e) && IdOf(r) == id ==>
              && Get(e, id, db).Success?
              && var node := Get(e, id, db).value;
                 && node.entity == e && WholeRow(e, node.cells, r)
                 && !node.oneLoaded && node.one.None? && !node.manyLoaded && node.many.Nil?
    ensures (forall r :: r in db(e) ==> IdOf(r) != id) ==> Get(e, id, db) == Failure(NotFound)
  {
    var p := WithLimit(ById(e, id), None);
    RowsById(e, id, db);
    OnlyIsExact(ById(e, id), db);
    ColumnsAreExact(e);
    forall r | r in db(e) && IdOf(r) == id
      ensures Run(p, db) == Success([Obj(e, Project(Columns(e), r), false, None, false, Nil)])
      ensures WholeRow(e, Project(Columns(e), r), r)
    {
      RunUnfolds(p, [], [], db);
    }
  }
}
