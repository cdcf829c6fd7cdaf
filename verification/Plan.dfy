/**
  What a query builder denotes. A `Plan` is the value of a builder together with
  the builders attached by its `With...` calls; `Run` is the object graph that
  executing it loads, and `After` is the builder it leaves behind.
 */
module Plan {
  import opened Sql
  import opened Schema

  /** The rows produced by the traversal a query starts from. */
  type Path = Db -> seq<Row>

  datatype Selection = Selection(
    entity: Entity,
    fields: seq<string>,
    unique: Option<bool>,
    limit: Option<nat>,
    offset: Option<nat>,
    preds: seq<Pred>,
    order: seq<OrderTerm>,
    path: Option<Path>
  )

  datatype Plan = Plan(sel: Selection, one: Option<Plan>, many: Option<Plan>)

  /** Children have the entity at the far end of their edge, and start from the table, not from a traversal. */
  predicate WellFormed(p: Plan) {
    && (p.one.Some? ==>
          && OneFits(p.sel.entity, p.one.value.sel.entity)
          && p.one.value.sel.path.None?
          && WellFormed(p.one.value))
    && (p.many.Some? ==>
          && ManyFits(p.sel.entity, p.many.value.sel.entity)
          && p.many.value.sel.path.None?
          && WellFormed(p.many.value))
  }

  function Depth(p: Plan): nat {
    var one := if p.one.Some? then Depth(p.one.value) else 0;
    var many := if p.many.Some? then Depth(p.many.value) else 0;
    1 + if one < many then many else one
  }

  function AddPred(p: Plan, pred: Pred): (q: Plan)
    ensures Depth(q) == Depth(p)
    ensures WellFormed(q) == WellFormed(p)
  {
    p.(sel := p.sel.(preds := p.sel.preds + [pred]))
  }

  function AppendOnce(columns: seq<string>, c: string): (r: seq<string>)
    ensures c in r
    ensures forall x :: x in r <==> x in columns || x == c
    ensures columns <= r && |r| == |columns| + if c in columns then 0 else 1
  {
    if c in columns then columns else columns + [c]
  }

  /** A projected child of a one-to-many edge also selects its foreign key. */
  function SelectKey(p: Plan): (q: Plan)
    requires p.sel.entity.one.Some?
    ensures Depth(q) == Depth(p)
    ensures WellFormed(q) == WellFormed(p)
  {
    if p.sel.fields == [] then p
    else p.(sel := p.sel.(fields := AppendOnce(p.sel.fields, p.sel.entity.one.value.column)))
  }

  // ---------------------------------------------------------------------
  // The query specification
  // ---------------------------------------------------------------------

  /** The request handed to the node reader; a zero limit or offset means that none was given. */
  datatype QuerySpec = QuerySpec(
    columns: seq<string>,
    unique: bool,
    preds: seq<Pred>,
    limit: nat,
    offset: nat,
    order: seq<OrderTerm>
  )

  function Without(c: string, fields: seq<string>): (r: seq<string>)
    ensures forall x :: x in r <==> x in fields && x != c
    ensures |r| <= |fields|
    decreases |fields|
  {
    if fields == [] then []
    else
      var init, last := Without(c, fields[..|fields| - 1]), fields[|fields| - 1];
      if last == c then init else init + [last]
  }

  function SpecColumns(sel: Selection, withOne: bool): seq<string>
    requires withOne ==> sel.entity.one.Some?
  {
    if sel.fields == [] then Columns(sel.entity)
    else
      var columns := ["id"] + Without("id", sel.fields);
      if withOne then AppendOnce(columns, sel.entity.one.value.column) else columns
  }

  function SpecOf(sel: Selection, withOne: bool): QuerySpec
    requires withOne ==> sel.entity.one.Some?
  {
    QuerySpec(
      SpecColumns(sel, withOne),
      if sel.unique.Some? then sel.unique.value else sel.path.Some?,
      sel.preds,
      if sel.limit.Some? then sel.limit.value else 0,
      if sel.offset.Some? then sel.offset.value else 0,
      sel.order)
  }

  function NonZero(n: nat): Option<nat> {
    if n == 0 then None else Some(n)
  }

  /** The rows the node reader visits for a specification. */
  function QueryNodes(spec: QuerySpec, from: seq<Row>): (rows: seq<Row>)
    ensures forall r :: r in rows ==> r in from && AllHold(spec.preds, r)
  {
    Execute(
      Selector(spec.columns, spec.unique, spec.preds, spec.order, NonZero(spec.offset), NonZero(spec.limit)),
      from)
  }

  function From(sel: Selection, db: Db): seq<Row> {
    if sel.path.Some? then sel.path.value(db) else db(sel.entity)
  }

  function RawRows(p: Plan, db: Db): (rows: seq<Row>)
    requires WellFormed(p)
    ensures forall r :: r in rows ==> r in From(p.sel, db) && AllHold(p.sel.preds, r)
  {
    QueryNodes(SpecOf(p.sel, p.one.Some?), From(p.sel, db))
  }

  function ProjectAll(columns: seq<string>, rows: seq<Row>): (cells: seq<Row>)
    ensures |cells| == |rows|
    ensures forall i :: 0 <= i < |rows| ==> cells[i] == Project(columns, rows[i])
  {
    seq(|rows|, i requires 0 <= i < |rows| => Project(columns, rows[i]))
  }

  /** The cells scanned into the nodes of a query, one row per node. */
  function Cells(p: Plan, db: Db): (cells: seq<Row>)
    requires WellFormed(p)
    ensures |cells| == |RawRows(p, db)|
  {
    ProjectAll(SpecColumns(p.sel, p.one.Some?), RawRows(p, db))
  }

  function InvalidFields(sel: Selection): (bad: seq<string>)
    ensures forall f :: f in bad <==> f in sel.fields && f !in Columns(sel.entity)
  {
    InvalidAmong(sel.entity, sel.fields)
  }

  function InvalidAmong(e: Entity, fields: seq<string>): (bad: seq<string>)
    ensures forall f :: f in bad <==> f in fields && f !in Columns(e)
  {
    if fields == [] then []
    else if fields[0] in Columns(e) then InvalidAmong(e, fields[1..])
    else [fields[0]] + InvalidAmong(e, fields[1..])
  }

  // ---------------------------------------------------------------------
  // Keys
  // ---------------------------------------------------------------------

  function KeysOf(e: Entity, cells: seq<Row>): (keys: seq<Option<Uuid>>)
    requires e.one.Some?
    ensures |keys| == |cells|
    ensures forall i :: 0 <= i < |cells| ==> keys[i] == ForeignKey(e, cells[i])
  {
    seq(|cells|, i requires 0 <= i < |cells| => ForeignKey(e, cells[i]))
  }

  /** The keys that occur, each once, in order of first occurrence. */
  function FirstKeys(keys: seq<Option<Uuid>>): (ids: seq<Uuid>)
    ensures forall k :: k in ids <==> Some(k) in keys
    ensures forall i, j :: 0 <= i < j < |ids| ==> ids[i] != ids[j]
    decreases |keys|
  {
    if keys == [] then []
    else
      var init, last := FirstKeys(keys[..|keys| - 1]), keys[|keys| - 1];
      assert keys == keys[..|keys| - 1] + [last];
      if last.None? || last.value in init then init else init + [last.value]
  }

  /** The elements of `xs` whose key is `k`, in order. */
  function Select<T>(keys: seq<Option<Uuid>>, xs: seq<T>, k: Uuid): (s: seq<T>)
    requires |keys| == |xs|
    ensures |s| <= |xs|
    decreases |keys|
  {
    if keys == [] then []
    else
      var n := |keys| - 1;
      var init := Select(keys[..n], xs[..n], k);
      if keys[n] == Some(k) then init + [xs[n]] else init
  }

  /** The position of the last occurrence of `k`, or -1. */
  function LastIndex(ids: seq<Uuid>, k: Uuid): (i: int)
    ensures -1 <= i < |ids|
    ensures i >= 0 ==> ids[i] == k
    ensures forall j :: i < j < |ids| ==> ids[j] != k
    decreases |ids|
  {
    if ids == [] then -1
    else if ids[|ids| - 1] == k then |ids| - 1
    else LastIndex(ids[..|ids| - 1], k)
  }

  // ---------------------------------------------------------------------
  // The batched join
  // ---------------------------------------------------------------------

  /** A loaded node: its scanned cells and its `Edges` structure. */
  datatype Obj = Obj(
    entity: Entity,
    cells: Row,
    oneLoaded: bool,
    one: Option<Obj>,
    manyLoaded: bool,
    many: Children
  )

  /** A slice of neighbours: nil, or a list that may be empty. */
  datatype Children = Nil | List(nodes: seq<Obj>)

  function ObjIds(objs: seq<Obj>): (ids: seq<Uuid>)
    ensures |ids| == |objs|
    ensures forall i :: 0 <= i < |objs| ==> ids[i] == IdOf(objs[i].cells)
  {
    seq(|objs|, i requires 0 <= i < |objs| => IdOf(objs[i].cells))
  }

  function ObjKeys(e: Entity, objs: seq<Obj>): (keys: seq<Option<Uuid>>)
    requires e.one.Some?
    ensures |keys| == |objs|
    ensures forall i :: 0 <= i < |objs| ==> keys[i] == ForeignKey(e, objs[i].cells)
  {
    seq(|objs|, i requires 0 <= i < |objs| => ForeignKey(e, objs[i].cells))
  }

  function OneKeys(p: Plan, cells: seq<Row>): seq<Uuid>
    requires WellFormed(p) && p.one.Some?
  {
    FirstKeys(KeysOf(p.sel.entity, cells))
  }

  function OneChild(p: Plan, cells: seq<Row>): (c: Plan)
    requires WellFormed(p) && p.one.Some?
    ensures WellFormed(c) && Depth(c) < Depth(p)
  {
    AddPred(p.one.value, ColumnIn("id", OneKeys(p, cells)))
  }

  function ManyChild(p: Plan, cells: seq<Row>): (c: Plan)
    requires WellFormed(p) && p.many.Some?
    ensures WellFormed(c) && Depth(c) < Depth(p)
  {
    AddPred(SelectKey(p.many.value), ColumnIn(p.many.value.sel.entity.one.value.column, IdsOf(cells)))
  }

  /** The neighbour assigned to node `i` over its own foreign key. */
  function AttachOne(e: Entity, cells: seq<Row>, i: nat, ones: seq<Obj>): Option<Obj>
    requires e.one.Some? && i < |cells|
  {
    var key := ForeignKey(e, cells[i]);
    var at := if key.None? then -1 else LastIndex(ObjIds(ones), key.value);
    if at < 0 then None else Some(ones[at])
  }

  /** The neighbours appended to node `i`; among nodes with one id the last one takes them all. */
  function AttachMany(e: Entity, cells: seq<Row>, i: nat, manys: seq<Obj>): seq<Obj>
    requires e.one.Some? && i < |cells|
  {
    if i == LastIndex(IdsOf(cells), IdOf(cells[i])) then Select(ObjKeys(e, manys), manys, IdOf(cells[i])) else []
  }

  /** Which edges a query loads: its own entity, whether `one` is requested, and the child entity of `many`. */
  datatype EdgeSet = EdgeSet(entity: Entity, one: bool, many: Option<Entity>)

  predicate Loadable(es: EdgeSet) {
    (es.one ==> es.entity.one.Some?) && (es.many.Some? ==> es.many.value.one.Some?)
  }

  function EdgesOf(p: Plan): (es: EdgeSet)
    requires WellFormed(p)
    ensures Loadable(es)
  {
    EdgeSet(p.sel.entity, p.one.Some?, if p.many.Some? then Some(p.many.value.sel.entity) else None)
  }

  function Attach(es: EdgeSet, cells: seq<Row>, i: nat, ones: seq<Obj>, manys: seq<Obj>): Obj
    requires Loadable(es) && i < |cells|
  {
    Obj(
      es.entity,
      cells[i],
      es.one,
      if es.one then AttachOne(es.entity, cells, i, ones) else None,
      es.many.Some?,
      if es.many.Some? then List(AttachMany(es.many.value, cells, i, manys)) else Nil)
  }

  function AttachAll(es: EdgeSet, cells: seq<Row>, ones: seq<Obj>, manys: seq<Obj>): (objs: seq<Obj>)
    requires Loadable(es)
    ensures |objs| == |cells|
    ensures forall i :: 0 <= i < |cells| ==> objs[i] == Attach(es, cells, i, ones, manys)
  {
    seq(|cells|, i requires 0 <= i < |cells| => Attach(es, cells, i, ones, manys))
  }

  function RunOne(p: Plan, cells: seq<Row>, db: Db): Result<seq<Obj>>
    requires WellFormed(p)
    decreases Depth(p), 0
  {
    if p.one.None? || OneKeys(p, cells) == [] then Success([]) else Run(OneChild(p, cells), db)
  }

  function RunMany(p: Plan, cells: seq<Row>, db: Db): Result<seq<Obj>>
    requires WellFormed(p)
    decreases Depth(p), 0
  {
    if p.many.None? then Success([]) else Run(ManyChild(p, cells), db)
  }

  function Run(p: Plan, db: Db): Result<seq<Obj>>
    requires WellFormed(p)
    decreases Depth(p), 1
  {
    if InvalidFields(p.sel) != [] then Failure(InvalidField(InvalidFields(p.sel)[0]))
    else
      var cells := Cells(p, db);
      if cells == [] then Success([])
      else
        var ones :- RunOne(p, cells, db);
        var manys :- RunMany(p, cells, db);
        Success(AttachAll(EdgesOf(p), cells, ones, manys))
  }

  function AfterOne(p: Plan, cells: seq<Row>, db: Db): (one: Option<Plan>)
    requires WellFormed(p)
    ensures one.Some? == p.one.Some?
    ensures one.Some? ==>
              one.value.sel.entity == p.one.value.sel.entity && one.value.sel.path.None? && WellFormed(one.value)
    decreases Depth(p), 0
  {
    if p.one.None? || OneKeys(p, cells) == [] then p.one else Some(After(OneChild(p, cells), db))
  }

  function AfterMany(p: Plan, cells: seq<Row>, db: Db): (many: Option<Plan>)
    requires WellFormed(p)
    ensures many.Some? == p.many.Some?
    ensures many.Some? ==>
              many.value.sel.entity == p.many.value.sel.entity && many.value.sel.path.None? && WellFormed(many.value)
    decreases Depth(p), 0
  {
    if p.many.None? then None else Some(After(ManyChild(p, cells), db))
  }

  /** The builder left behind: every sub-query that was reached keeps the filter it was given. */
  function After(p: Plan, db: Db): (q: Plan)
    requires WellFormed(p)
    ensures q.sel == p.sel && WellFormed(q)
    ensures q.one.Some? == p.one.Some? && q.many.Some? == p.many.Some?
    decreases Depth(p), 1
  {
    if InvalidFields(p.sel) != [] then p
    else
      var cells := Cells(p, db);
      if cells == [] then p
      else if RunOne(p, cells, db).Failure? then p.(one := AfterOne(p, cells, db))
      else p.(one := AfterOne(p, cells, db), many := AfterMany(p, cells, db))
  }
}
