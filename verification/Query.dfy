/**
  The query builders. A builder is a mutable object that owns the builders its
  `With...` calls attached; running it executes them, and leaves filters on them.
 */
module Builders {
  import opened Sql
  import opened Schema
  import opened Plan
  import opened Join
  import opened Projection
  import opened Edges
  import opened Rerun
  import opened Terminal
  import opened Loader

  /** A call on a builder. The options of a `With...` call are the calls they make on the new sub-query. */
  datatype Call =
    | AddPreds(ps: seq<Pred>)
    | SetLimit(n: nat)
    | SetOffset(n: nat)
    | AddOrder(terms: seq<OrderTerm>)
    | SetUnique(u: bool)
    | AddFields(fs: seq<string>)
    | LoadOneEdge(target: Entity, options: seq<Call>)
    | LoadManyEdge(target: Entity, options: seq<Call>)

  /** The call exists on builders of this entity. */
  predicate Fits(call: Call, e: Entity) {
    match call
    case LoadOneEdge(target, options) => OneFits(e, target) && forall k | 0 <= k < |options| :: Fits(options[k], target)
    case LoadManyEdge(target, options) =>
      ManyFits(e, target) && forall k | 0 <= k < |options| :: Fits(options[k], target)
    case _ => true
  }

  /** A new builder. */
  function Fresh(e: Entity, path: Option<Path>): (p: Plan)
    ensures WellFormed(p)
  {
    Plan(Selection(e, [], None, None, None, [], [], path), None, None)
  }

  /** What a call makes of a request. */
  function Applied(call: Call, p: Plan): (q: Plan)
    requires WellFormed(p) && Fits(call, p.sel.entity)
    ensures WellFormed(q) && q.sel.entity == p.sel.entity && q.sel.path == p.sel.path
    decreases call
  {
    match call
    case AddPreds(ps) => p.(sel := p.sel.(preds := p.sel.preds + ps))
    case SetLimit(n) => WithLimit(p, Some(n))
    case SetOffset(n) => p.(sel := p.sel.(offset := Some(n)))
    case AddOrder(terms) => p.(sel := p.sel.(order := p.sel.order + terms))
    case SetUnique(u) => p.(sel := p.sel.(unique := Some(u)))
    case AddFields(fs) => p.(sel := p.sel.(fields := p.sel.fields + fs))
    case LoadOneEdge(target, options) => p.(one := Some(AppliedFrom(options, 0, Fresh(target, None))))
    case LoadManyEdge(target, options) => p.(many := Some(AppliedFrom(options, 0, Fresh(target, None))))
  }

  lemma AppliedOneEdge(target: Entity, options: seq<Call>, p: Plan)
    requires WellFormed(p) && Fits(LoadOneEdge(target, options), p.sel.entity)
    ensures OneFits(p.sel.entity, target) && forall k | 0 <= k < |options| :: Fits(options[k], target)
    ensures Fresh(target, None).sel.entity == target && Fresh(target, None).sel.path.None?
    ensures Applied(LoadOneEdge(target, options), p) ==
            p.(one := Some(AppliedFrom(options, 0, Fresh(target, None))))
  {
  }

  lemma AppliedManyEdge(target: Entity, options: seq<Call>, p: Plan)
    requires WellFormed(p) && Fits(LoadManyEdge(target, options), p.sel.entity)
    ensures ManyFits(p.sel.entity, target) && forall k | 0 <= k < |options| :: Fits(options[k], target)
    ensures Fresh(target, None).sel.entity == target && Fresh(target, None).sel.path.None?
    ensures Applied(LoadManyEdge(target, options), p) ==
            p.(many := Some(AppliedFrom(options, 0, Fresh(target, None))))
  {
  }

  /** The calls from the `i`th on, in order. */
  function AppliedFrom(calls: seq<Call>, i: nat, p: Plan): (q: Plan)
    requires WellFormed(p) && i <= |calls| && forall k | 0 <= k < |calls| :: Fits(calls[k], p.sel.entity)
    ensures WellFormed(q) && q.sel.entity == p.sel.entity && q.sel.path == p.sel.path
    decreases calls, |calls| - i
  {
    if i == |calls| then p else AppliedFrom(calls, i + 1, Applied(calls[i], p))
  }

  // ---------------------------------------------------------------------
  // What a chain of calls collects
  // ---------------------------------------------------------------------

  function PredsOf(calls: seq<Call>, i: nat): seq<Pred>
    requires i <= |calls|
    decreases |calls| - i
  {
    if i == |calls| then [] else (if calls[i].AddPreds? then calls[i].ps else []) + PredsOf(calls, i + 1)
  }

  function OrderOf(calls: seq<Call>, i: nat): seq<OrderTerm>
    requires i <= |calls|
    decreases |calls| - i
  {
    if i == |calls| then [] else (if calls[i].AddOrder? then calls[i].terms else []) + OrderOf(calls, i + 1)
  }

  function FieldsOf(calls: seq<Call>, i: nat): seq<string>
    requires i <= |calls|
    decreases |calls| - i
  {
    if i == |calls| then [] else (if calls[i].AddFields? then calls[i].fs else []) + FieldsOf(calls, i + 1)
  }

  /** The position of the last call from `i` on that `wanted` accepts. */
  function LastCall(calls: seq<Call>, i: nat, wanted: Call -> bool): Option<nat>
    requires i <= |calls|
    ensures LastCall(calls, i, wanted).Some? ==>
              i <= LastCall(calls, i, wanted).value < |calls| && wanted(calls[LastCall(calls, i, wanted).value])
    decreases |calls| - i
  {
    if i == |calls| then None
    else
      var later := LastCall(calls, i + 1, wanted);
      if later.Some? then later else if wanted(calls[i]) then Some(i) else None
  }

  function LastLimit(calls: seq<Call>, i: nat): Option<nat>
    requires i <= |calls|
  {
    var at := LastCall(calls, i, (call: Call) => call.SetLimit?);
    if at.Some? then Some(calls[at.value].n) else None
  }

  function LastOffset(calls: seq<Call>, i: nat): Option<nat>
    requires i <= |calls|
  {
    var at := LastCall(calls, i, (call: Call) => call.SetOffset?);
    if at.Some? then Some(calls[at.value].n) else None
  }

  function LastUnique(calls: seq<Call>, i: nat): Option<bool>
    requires i <= |calls|
  {
    var at := LastCall(calls, i, (call: Call) => call.SetUnique?);
    if at.Some? then Some(calls[at.value].u) else None
  }

  function OrElse<T>(a: Option<T>, b: Option<T>): Option<T> {
    if a.Some? then a else b
  }

  lemma AppliedFits(call: Call, p: Plan)
    requires WellFormed(p) && Fits(call, p.sel.entity)
    ensures WellFormed(Applied(call, p)) && Applied(call, p).sel.entity == p.sel.entity
  {
  }

  /** One call adds to what it is about, or replaces it, and leaves the rest of the selection alone. */
  lemma CallEffect(call: Call, p: Plan)
    requires WellFormed(p) && Fits(call, p.sel.entity)
    ensures var sel := Applied(call, p).sel;
            && sel.entity == p.sel.entity && sel.path == p.sel.path
            && sel.preds == p.sel.preds + (if call.AddPreds? then call.ps else [])
            && sel.order == p.sel.order + (if call.AddOrder? then call.terms else [])
            && sel.fields == p.sel.fields + (if call.AddFields? then call.fs else [])
            && sel.limit == (if call.SetLimit? then Some(call.n) else p.sel.limit)
            && sel.offset == (if call.SetOffset? then Some(call.n) else p.sel.offset)
            && sel.unique == (if call.SetUnique? then Some(call.u) else p.sel.unique)
    ensures !call.LoadOneEdge? ==> Applied(call, p).one == p.one
    ensures !call.LoadManyEdge? ==> Applied(call, p).many == p.many
  {
    hide WellFormed, AppliedFrom, Fits;
    AppliedFits(call, p);
  }

  /** The selection that the calls from `i` on make of `before`. */
  ghost predicate Collects(sel: Selection, before: Selection, calls: seq<Call>, i: nat)
    requires i <= |calls|
  {
    && sel.entity == before.entity && sel.path == before.path
    && sel.preds == before.preds + PredsOf(calls, i)
    && sel.order == before.order + OrderOf(calls, i)
    && sel.fields == before.fields + FieldsOf(calls, i)
    && sel.limit == OrElse(LastLimit(calls, i), before.limit)
    && sel.offset == OrElse(LastOffset(calls, i), before.offset)
    && sel.unique == OrElse(LastUnique(calls, i), before.unique)
  }

  /** A chain of calls collects predicates, order terms and columns, and of the settings the last one counts. */
  lemma {:induction false} ChainEffect(calls: seq<Call>, i: nat, p: Plan)
    requires WellFormed(p) && i <= |calls| && forall k | 0 <= k < |calls| :: Fits(calls[k], p.sel.entity)
    ensures Collects(AppliedFrom(calls, i, p).sel, p.sel, calls, i)
    decreases |calls| - i
  {
    hide Applied, Fits, WellFormed, Collects;
    if i < |calls| {
      ChainEffect(calls, i + 1, Applied(calls[i], p));
      CollectsStep(AppliedFrom(calls, i, p).sel, calls, i, p);
    } else {
      CollectsNothing(p.sel, calls);
    }
  }

  lemma CollectsNothing(sel: Selection, calls: seq<Call>)
    ensures Collects(sel, sel, calls, |calls|)
  {
  }

  lemma CollectsStep(sel: Selection, calls: seq<Call>, i: nat, p: Plan)
    requires WellFormed(p) && i < |calls| && Fits(calls[i], p.sel.entity)
    requires Collects(sel, Applied(calls[i], p).sel, calls, i + 1)
    ensures Collects(sel, p.sel, calls, i)
  {
    hide Applied, Fits, WellFormed, LastLimit, LastOffset, LastUnique, PredsOf, OrderOf, FieldsOf;
    SettingsStep(calls, i);
    ListsStep(calls, i);
    CallEffect(calls[i], p);
    Associates(p.sel.preds, if calls[i].AddPreds? then calls[i].ps else [], PredsOf(calls, i + 1));
    Associates(p.sel.order, if calls[i].AddOrder? then calls[i].terms else [], OrderOf(calls, i + 1));
    Associates(p.sel.fields, if calls[i].AddFields? then calls[i].fs else [], FieldsOf(calls, i + 1));
  }

  lemma Associates<T>(a: seq<T>, b: seq<T>, c: seq<T>)
    ensures (a + b) + c == a + (b + c)
  {
  }

  lemma ListsStep(calls: seq<Call>, i: nat)
    requires i < |calls|
    ensures PredsOf(calls, i) == (if calls[i].AddPreds? then calls[i].ps else []) + PredsOf(calls, i + 1)
    ensures OrderOf(calls, i) == (if calls[i].AddOrder? then calls[i].terms else []) + OrderOf(calls, i + 1)
    ensures FieldsOf(calls, i) == (if calls[i].AddFields? then calls[i].fs else []) + FieldsOf(calls, i + 1)
  {
  }

  lemma SettingsStep(calls: seq<Call>, i: nat)
    requires i <= |calls|
    ensures i == |calls| ==> LastLimit(calls, i) == None && LastOffset(calls, i) == None && LastUnique(calls, i) == None
    ensures i < |calls| ==>
              && LastLimit(calls, i) ==
                 OrElse(LastLimit(calls, i + 1), if calls[i].SetLimit? then Some(calls[i].n) else None)
              && LastOffset(calls, i) ==
                 OrElse(LastOffset(calls, i + 1), if calls[i].SetOffset? then Some(calls[i].n) else None)
              && LastUnique(calls, i) ==
                 OrElse(LastUnique(calls, i + 1), if calls[i].SetUnique? then Some(calls[i].u) else None)
  {
  }

  /** The sub-query that `With...` attaches: what its options ask for, over a new builder of the edge's entity. */
  lemma EdgeEffect(target: Entity, options: seq<Call>, p: Plan)
    requires WellFormed(p) && Fits(LoadOneEdge(target, options), p.sel.entity)
    ensures var one := Applied(LoadOneEdge(target, options), p).one;
            && one.Some?
            && one.value.sel ==
               Selection(
                 target, FieldsOf(options, 0), LastUnique(options, 0), LastLimit(options, 0), LastOffset(options, 0),
                 PredsOf(options, 0), OrderOf(options, 0), None)
  {
    hide AppliedFrom;
    AppliedOneEdge(target, options, p);
    ChainEffect(options, 0, Fresh(target, None));
  }

  lemma ManyEdgeEffect(target: Entity, options: seq<Call>, p: Plan)
    requires WellFormed(p) && Fits(LoadManyEdge(target, options), p.sel.entity)
    ensures var many := Applied(LoadManyEdge(target, options), p).many;
            && many.Some?
            && many.value.sel ==
               Selection(
                 target, FieldsOf(options, 0), LastUnique(options, 0), LastLimit(options, 0), LastOffset(options, 0),
                 PredsOf(options, 0), OrderOf(options, 0), None)
  {
    hide AppliedFrom;
    AppliedManyEdge(target, options, p);
    ChainEffect(options, 0, Fresh(target, None));
  }

  class Query {
    const entity: Entity
    const path: Option<Path>
    var fields: seq<string>
    var unique: Option<bool>
    var limit: Option<nat>
    var offset: Option<nat>
    var predicates: seq<Pred>
    var order: seq<OrderTerm>
    var withOne: Query?
    var withMany: Query?

    /** This builder and all builders below it. */
    ghost var Repr: set<Query>

    ghost predicate Valid()
      reads this, Repr
      ensures Valid() ==> this in Repr
      decreases Repr, 0
    {
      && this in Repr
      && (withOne != null ==>
            && withOne in Repr && withOne.Repr < Repr && this !in withOne.Repr
            && OneFits(entity, withOne.entity)
            && withOne.path.None? && withOne.Valid())
      && (withMany != null ==>
            && withMany in Repr && withMany.Repr < Repr && this !in withMany.Repr
            && ManyFits(entity, withMany.entity)
            && withMany.path.None? && withMany.Valid())
      && (withOne != null && withMany != null ==> withOne.Repr !! withMany.Repr)
    }

    function Sel(): Selection
      reads this
    {
      Selection(entity, fields, unique, limit, offset, predicates, order, path)
    }

    /** The request this builder stands for. */
    ghost function Value(): (p: Plan)
      requires Valid()
      reads this, Repr
      ensures p.sel == Sel() && WellFormed(p)
      ensures p.sel.entity == entity && p.sel.path == path
      ensures p.one.Some? == (withOne != null) && p.many.Some? == (withMany != null)
      ensures withOne != null ==> p.one == Some(withOne.Value())
      ensures withMany != null ==> p.many == Some(withMany.Value())
      decreases Repr, 0
    {
      Plan(
        Sel(),
        if withOne == null then None else Some(withOne.Value()),
        if withMany == null then None else Some(withMany.Value()))
    }

    lemma OwnsChildren()
      requires Valid()
      ensures withOne != null ==> withOne.Repr <= Repr
      ensures withMany != null ==> withMany.Repr <= Repr
    {
    }

    lemma Parts()
      requires Valid()
      ensures Sel().entity == entity && Sel().path == path
      ensures Value() == Plan(
                           Sel(),
                           if withOne == null then None else Some(withOne.Value()),
                           if withMany == null then None else Some(withMany.Value()))
      ensures withOne != null ==>
                withOne.Valid() && withOne.Repr < Repr && OneFits(entity, withOne.entity) && withOne.path.None?
      ensures withMany != null ==>
                withMany.Valid() && withMany.Repr < Repr && ManyFits(entity, withMany.entity) && withMany.path.None?
    {
    }

    /** A fresh builder from `client.X.Query()`, or from a traversal if a path is given. */
    constructor (entity: Entity, path: Option<Path>)
      ensures Valid() && fresh(Repr)
      ensures Value() == Fresh(entity, path)
      ensures this.entity == entity && this.path == path
    {
      this.entity, this.path := entity, path;
      fields, unique, limit, offset, predicates, order := [], None, None, None, [], [];
      withOne, withMany := null, null;
      Repr := {this};
    }

    method Where(ps: seq<Pred>)
      requires Valid()
      modifies this
      ensures Valid() && Repr == old(Repr)
      ensures Value() == var p := old(Value()); p.(sel := p.sel.(preds := p.sel.preds + ps))
    {
      predicates := predicates + ps;
    }

    method Limit(n: nat)
      requires Valid()
      modifies this
      ensures Valid() && Repr == old(Repr)
      ensures Value() == WithLimit(old(Value()), Some(n))
    {
      limit := Some(n);
    }

    /** A projected sub-query of a one-to-many edge also selects the foreign key it is joined on. */
    method SelectForeignKey()
      requires Valid() && entity.one.Some?
      modifies this
      ensures Valid() && Repr == old(Repr)
      ensures Value() == SelectKey(old(Value()))
    {
      if |fields| > 0 {
        fields := AppendOnce(fields, entity.one.value.column);
      }
    }

    method Offset(n: nat)
      requires Valid()
      modifies this
      ensures Valid() && Repr == old(Repr)
      ensures Value() == var p := old(Value()); p.(sel := p.sel.(offset := Some(n)))
    {
      offset := Some(n);
    }

    method Order(terms: seq<OrderTerm>)
      requires Valid()
      modifies this
      ensures Valid() && Repr == old(Repr)
      ensures Value() == var p := old(Value()); p.(sel := p.sel.(order := p.sel.order + terms))
    {
      order := order + terms;
    }

    method Unique(u: bool)
      requires Valid()
      modifies this
      ensures Valid() && Repr == old(Repr)
      ensures Value() == var p := old(Value()); p.(sel := p.sel.(unique := Some(u)))
    {
      unique := Some(u);
    }

    method Select(fs: seq<string>)
      requires Valid()
      modifies this
      ensures Valid() && Repr == old(Repr)
      ensures Value() == var p := old(Value()); p.(sel := p.sel.(fields := p.sel.fields + fs))
    {
      fields := fields + fs;
    }

    method SetOne(child: Query)
      requires Valid() && child.Valid() && child.Repr !! Repr && child.path.None?
      requires OneFits(entity, child.entity)
      modifies this
      ensures Valid() && Repr == old(Repr) + child.Repr
      ensures Value() == old(Value()).(one := Some(child.Value()))
    {
      withOne := child;
      Repr := Repr + child.Repr;
    }

    method SetMany(child: Query)
      requires Valid() && child.Valid() && child.Repr !! Repr && child.path.None?
      requires ManyFits(entity, child.entity)
      modifies this
      ensures Valid() && Repr == old(Repr) + child.Repr
      ensures Value() == old(Value()).(many := Some(child.Value()))
    {
      withMany := child;
      Repr := Repr + child.Repr;
    }

    /**
      `WithDomain`, `WithTenant`, ...: the call creates the sub-query, lets its
      options configure it, and attaches it. So no builder is ever below two others.
     */
    method WithOne(target: Entity, options: seq<Call>)
      requires Valid() && Fits(LoadOneEdge(target, options), entity)
      modifies this
      ensures Valid() && fresh(Repr - old(Repr)) && old(Repr) <= Repr
      ensures Value() == Applied(LoadOneEdge(target, options), old(Value()))
      decreases options, 1
    {
      hide *;
      AppliedOneEdge(target, options, Value());
      var child := new Query(target, None);
      child.DoAll(options);
      assert child.Repr !! Repr && Value() == old(Value());
      SetOne(child);
    }

    method WithMany(target: Entity, options: seq<Call>)
      requires Valid() && Fits(LoadManyEdge(target, options), entity)
      modifies this
      ensures Valid() && fresh(Repr - old(Repr)) && old(Repr) <= Repr
      ensures Value() == Applied(LoadManyEdge(target, options), old(Value()))
      decreases options, 1
    {
      hide *;
      AppliedManyEdge(target, options, Value());
      var child := new Query(target, None);
      child.DoAll(options);
      assert child.Repr !! Repr && Value() == old(Value());
      SetMany(child);
    }

    method Do(call: Call)
      requires Valid() && Fits(call, entity)
      modifies this
      ensures Valid() && fresh(Repr - old(Repr)) && old(Repr) <= Repr
      ensures Value() == Applied(call, old(Value()))
      decreases call
    {
      hide Query.Valid, Query.Value, AppliedFrom, WellFormed, OneFits, ManyFits, Fresh;
      match call
      case AddPreds(ps) => Where(ps);
      case SetLimit(n) => Limit(n);
      case SetOffset(n) => Offset(n);
      case AddOrder(terms) => Order(terms);
      case SetUnique(u) => Unique(u);
      case AddFields(fs) => Select(fs);
      case LoadOneEdge(target, options) => WithOne(target, options);
      case LoadManyEdge(target, options) => WithMany(target, options);
    }

    /** The loop over the options. */
    method DoAll(calls: seq<Call>)
      requires Valid() && forall k | 0 <= k < |calls| :: Fits(calls[k], entity)
      modifies this
      ensures Valid() && fresh(Repr - old(Repr)) && old(Repr) <= Repr
      ensures Value() == AppliedFrom(calls, 0, old(Value()))
      decreases calls, 0
    {
      hide Query.Valid, Query.Value, Applied, Fits;
      for i := 0 to |calls|
        invariant Valid() && fresh(Repr - old(Repr)) && old(Repr) <= Repr
        invariant AppliedFrom(calls, 0, old(Value())) == AppliedFrom(calls, i, Value())
      {
        Do(calls[i]);
      }
    }

    constructor FromParts(sel: Selection, one: Query?, many: Query?)
      requires one != null ==> one.Valid() && OneFits(sel.entity, one.entity) && one.path.None?
      requires many != null ==> many.Valid() && ManyFits(sel.entity, many.entity) && many.path.None?
      requires one != null && many != null ==> one.Repr !! many.Repr
      ensures Valid() && Value() == Plan(
                                      sel,
                                      if one == null then None else Some(one.Value()),
                                      if many == null then None else Some(many.Value()))
      ensures entity == sel.entity && path == sel.path
      ensures Repr == {this} + (if one == null then {} else one.Repr) + (if many == null then {} else many.Repr)
    {
      entity, path, fields, unique := sel.entity, sel.path, sel.fields, sel.unique;
      limit, offset, predicates, order := sel.limit, sel.offset, sel.preds, sel.order;
      withOne, withMany := one, many;
      Repr := {this} + (if one == null then {} else one.Repr) + (if many == null then {} else many.Repr);
    }

    /**
      Cloning nil yields nil. Otherwise the duplicate shares no builder with the
      original, at any depth, and stands for the same request.
     */
    static method Clone(q: Query?) returns (c: Query?)
      requires q != null ==> q.Valid()
      ensures q == null <==> c == null
      ensures q != null ==> c.Valid() && fresh(c.Repr) && c.entity == q.entity && c.path == q.path
      ensures q != null ==> c.Value() == q.Value()
      decreases if q == null then {} else q.Repr
    {
      hide *;
      if q == null {
        return null;
      }
      q.Parts();
      var one := Clone(q.withOne);
      var many := Clone(q.withMany);
      c := new Query.FromParts(q.Sel(), one, many);
    }

    // -------------------------------------------------------------------
    // Execution
    // -------------------------------------------------------------------

    method PrepareQuery() returns (err: Option<Error>)
      requires Valid()
      ensures err == if InvalidFields(Sel()) == [] then None else Some(InvalidField(InvalidFields(Sel())[0]))
    {
      for i := 0 to |fields|
        invariant InvalidAmong(entity, fields) == InvalidAmong(entity, fields[i..])
      {
        if fields[i] !in Columns(entity) {
          return Some(InvalidField(fields[i]));
        }
        assert fields[i..][1..] == fields[i + 1..];
      }
      err := None;
    }

    method BuildSpec() returns (spec: QuerySpec)
      requires Valid()
      ensures spec == SpecOf(Sel(), withOne != null)
    {
      var columns := Columns(entity);
      if |fields| > 0 {
        columns := ["id"];
        for i := 0 to |fields|
          invariant columns == ["id"] + Without("id", fields[..i])
        {
          assert fields[..i + 1][..i] == fields[..i];
          if fields[i] != "id" {
            columns := columns + [fields[i]];
          }
        }
        assert fields[..|fields|] == fields;
        if withOne != null {
          columns := AppendOnce(columns, entity.one.value.column);
        }
      }
      spec := QuerySpec(
        columns,
        if unique.Some? then unique.value else path.Some?,
        predicates,
        if limit.Some? then limit.value else 0,
        if offset.Some? then offset.value else 0,
        order);
    }

    /** The node reader calls back once per row; each call appends a node. */
    method ScanNodes(db: Db) returns (nodes: seq<Node>, ghost level: set<Node>)
      requires Valid()
      ensures fresh(level) && IsLevel(nodes, level, Cells(Value(), db), entity)
      ensures forall n | n in level ::
                && n.one == null && n.many == NilSlice
                && n.oneLoaded == (withOne != null) && n.manyLoaded == (withMany != null)
    {
      var spec := BuildSpec();
      var rows := QueryNodes(spec, From(Sel(), db));
      nodes, level := ScanRows(spec.columns, rows);
      assert ProjectAll(spec.columns, rows) == Cells(Value(), db);
    }

    method ScanRows(columns: seq<string>, rows: seq<Row>) returns (nodes: seq<Node>, ghost level: set<Node>)
      ensures fresh(level) && IsLevel(nodes, level, ProjectAll(columns, rows), entity)
      ensures forall n | n in level ::
                && n.one == null && n.many == NilSlice
                && n.oneLoaded == (withOne != null) && n.manyLoaded == (withMany != null)
    {
      nodes, level := [], {};
      for i := 0 to |rows|
        invariant fresh(level) && IsLevel(nodes, level, ProjectAll(columns, rows[..i]), entity)
        invariant forall n | n in level ::
                    && n.one == null && n.many == NilSlice
                    && n.oneLoaded == (withOne != null) && n.manyLoaded == (withMany != null)
      {
        var node := new Node(entity, Project(columns, rows[i]), withOne != null, withMany != null);
        nodes, level := nodes + [node], level + {node};
      }
      assert rows[..|rows|] == rows;
    }

    /**
      `All`: executes this builder and everything below it. The nodes returned are
      new, and following their pointers shows exactly the graph that the request
      denotes; an error is returned exactly when the request denotes one; and each
      sub-query that was reached keeps the key filter it was given.
     */
    method All(db: Db) returns (r: Result<seq<Node>>, ghost objs: seq<Obj>, ghost graph: set<Node>)
      requires Valid() && ValidDb(db) && StartsInTable(Value(), db)
      modifies Repr
      ensures Valid() && Repr == old(Repr)
      ensures Value() == After(old(Value()), db)
      ensures fresh(graph) && Consistent(graph)
      ensures Run(old(Value()), db) == if r.Failure? then Failure(r.error) else Success(objs)
      ensures r.Success? ==> Shows(r.value, graph, objs)
      decreases Repr, 4
    {
      var err := PrepareQuery();
      if err.Some? {
        return Failure(err.value), [], {};
      }
      r, objs, graph := SqlAll(db);
    }

    method SqlAll(db: Db) returns (r: Result<seq<Node>>, ghost objs: seq<Obj>, ghost graph: set<Node>)
      requires Valid() && ValidDb(db) && StartsInTable(Value(), db) && InvalidFields(Sel()) == []
      modifies Repr
      ensures Valid() && Repr == old(Repr)
      ensures Value() == After(old(Value()), db)
      ensures fresh(graph) && Consistent(graph)
      ensures Run(old(Value()), db) == if r.Failure? then Failure(r.error) else Success(objs)
      ensures r.Success? ==> Shows(r.value, graph, objs)
      decreases Repr, 3
    {
      hide *;
      ghost var p := Value();
      ghost var cells := Cells(p, db);
      RunByParts(p, db);
      OwnsChildren();
      EmptyGraph();
      var nodes;
      ghost var level;
      nodes, level := ScanNodes(db);
      KeysOfLevel(nodes, level, cells, entity);
      if nodes == [] {
        return Success([]), [], {};
      }
      var err;
      ghost var ones, manys, g1, g2;
      err, ones, g1 := LoadWithOne(nodes, level, cells, db);
      if err.Some? {
        return Failure(err.value), [], {};
      }
      PartsIgnoreOne(p, Value(), cells, db);
      err, manys, g2 := LoadWithMany(nodes, level, cells, db);
      if err.Some? {
        return Failure(err.value), [], {};
      }
      r, objs := Success(nodes), AttachAll(EdgesOf(p), cells, ones, manys);
      graph := Publish(nodes, level, p, cells, ones, manys, g1, g2);
    }

    // -------------------------------------------------------------------
    // Terminal calls
    // -------------------------------------------------------------------

    /** The limit stays on the builder, and whatever limit was set before is lost. */
    method First(db: Db) returns (r: Result<Node>, ghost o: Obj, ghost graph: set<Node>)
      requires Valid() && ValidDb(db) && StartsInTable(Value(), db)
      modifies Repr
      ensures Valid() && Repr == old(Repr) && Value() == After(WithLimit(old(Value()), Some(1)), db)
      ensures Terminal.First(old(Value()), db) == if r.Failure? then Failure(r.error) else Success(o)
      ensures r.Success? ==> Consistent(graph) && r.value in graph && r.value.view == o
    {
      Limit(1);
      var nodes;
      ghost var objs;
      nodes, objs, graph := All(db);
      o := if nodes.Success? && objs != [] then objs[0] else NoNode();
      if nodes.Failure? {
        return Failure(nodes.error), o, graph;
      }
      if |nodes.value| == 0 {
        return Failure(NotFound), o, graph;
      }
      r := Success(nodes.value[0]);
    }

    method Only(db: Db) returns (r: Result<Node>, ghost o: Obj, ghost graph: set<Node>)
      requires Valid() && ValidDb(db) && StartsInTable(Value(), db)
      modifies Repr
      ensures Valid() && Repr == old(Repr) && Value() == After(WithLimit(old(Value()), Some(2)), db)
      ensures Terminal.Only(old(Value()), db) == if r.Failure? then Failure(r.error) else Success(o)
      ensures r.Success? ==> Consistent(graph) && r.value in graph && r.value.view == o
    {
      Limit(2);
      var nodes;
      ghost var objs;
      nodes, objs, graph := All(db);
      o := if nodes.Success? && objs != [] then objs[0] else NoNode();
      if nodes.Failure? {
        return Failure(nodes.error), o, graph;
      }
      match |nodes.value| {
        case 1 => r := Success(nodes.value[0]);
        case 0 => r := Failure(NotFound);
        case _ => r := Failure(NotSingular);
      }
    }

    /** `IDs` leaves the id selected, and a traversal unique. */
    method IDs(db: Db) returns (r: Result<seq<Uuid>>)
      requires Valid()
      modifies this
      ensures Valid() && Repr == old(Repr)
      ensures Value() == old(Value()).(sel := SelectIds(old(Sel())))
      ensures r == Ids(old(Sel()), db)
    {
      if unique.None? && path.Some? {
        Unique(true);
      }
      Select(["id"]);
      var err := PrepareQuery();
      if err.Some? {
        return Failure(err.value);
      }
      var selector := BuildSelector();
      if |fields| != 1 {
        return Failure(ScanColumns(|fields|));
      }
      r := Success(IdsOf(Execute(selector, From(Sel(), db))));
    }

    method BuildSelector() returns (selector: Selector)
      requires Valid()
      ensures selector == SqlQuery(Sel())
    {
      var columns := fields;
      if |columns| == 0 {
        columns := Columns(entity);
      }
      selector := Selector(columns, unique == Some(true), predicates, order, None, None);
      if offset.Some? {
        selector := selector.(offset := offset, limit := Some(MAX_INT32));
      }
      if limit.Some? {
        selector := selector.(limit := limit);
      }
    }

    method FirstID(db: Db) returns (r: Result<Uuid>)
      requires Valid()
      modifies this
      ensures Valid() && Repr == old(Repr) && r == FirstId(old(Sel()), db)
      ensures Value() == old(Value()).(sel := SelectIds(old(Sel()).(limit := Some(1))))
    {
      Limit(1);
      var ids := IDs(db);
      if ids.Failure? {
        return Failure(ids.error);
      }
      r := if |ids.value| == 0 then Failure(NotFound) else Success(ids.value[0]);
    }

    method Exist(db: Db) returns (r: Result<bool>)
      requires Valid()
      modifies this
      ensures Valid() && Repr == old(Repr) && r == Terminal.Exist(old(Sel()), db)
      ensures Value() == old(Value()).(sel := SelectIds(old(Sel()).(limit := Some(1))))
    {
      var id := FirstID(db);
      match id {
        case Failure(NotFound) => r := Success(false);
        case Failure(error) => r := Failure(error);
        case Success(_) => r := Success(true);
      }
    }

    // -------------------------------------------------------------------
    // Loading the edges of one level
    // -------------------------------------------------------------------

    method LoadWithOne(nodes: seq<Node>, ghost level: set<Node>, ghost cells: seq<Row>, db: Db)
      returns (err: Option<Error>, ghost ones: seq<Obj>, ghost graph: set<Node>)
      requires Valid() && ValidDb(db) && IsLevel(nodes, level, cells, entity)
      requires forall n | n in level :: n.one == null
      modifies (if withOne == null then {} else withOne.Repr), level`one
      ensures Valid() && Repr == old(Repr)
      ensures Value() == old(Value()).(one := AfterOne(old(Value()), cells, db))
      ensures fresh(graph) && Consistent(graph)
      ensures RunOne(old(Value()), cells, db) == if err.Some? then Failure(err.value) else Success(ones)
      ensures err.None? ==> forall i | 0 <= i < |nodes| ::
                              PointsTo(
                                nodes[i].one,
                                graph,
                                if withOne == null then None else AttachOne(entity, cells, i, ones))
      decreases Repr, 2
    {
      EmptyGraph();
      err, ones, graph := None, [], {};
      if withOne != null {
        err, ones, graph := LoadOne(withOne, entity, nodes, level, cells, OneChild(Value(), cells), db);
      }
    }

    method LoadWithMany(nodes: seq<Node>, ghost level: set<Node>, ghost cells: seq<Row>, db: Db)
      returns (err: Option<Error>, ghost manys: seq<Obj>, ghost graph: set<Node>)
      requires Valid() && ValidDb(db) && IsLevel(nodes, level, cells, entity)
      requires forall n | n in level :: n.many == NilSlice
      modifies (if withMany == null then {} else withMany.Repr), level`many
      ensures Valid() && Repr == old(Repr)
      ensures Value() == old(Value()).(many := AfterMany(old(Value()), cells, db))
      ensures fresh(graph) && Consistent(graph)
      ensures RunMany(old(Value()), cells, db) == if err.Some? then Failure(err.value) else Success(manys)
      ensures err.None? ==> forall i | 0 <= i < |nodes| ::
                              ListsAs(
                                nodes[i].many,
                                graph,
                                if withMany == null then Nil else List(AttachMany(withMany.entity, cells, i, manys)))
      decreases Repr, 2
    {
      err, manys, graph := None, [], {};
      if withMany != null {
        err, manys, graph := LoadMany(withMany, entity, nodes, level, cells, ManyChild(Value(), cells), db);
      }
    }
  }

  lemma PartsIgnoreOne(p: Plan, q: Plan, cells: seq<Row>, db: Db)
    requires WellFormed(p) && WellFormed(q) && q == p.(one := q.one)
    ensures RunMany(q, cells, db) == RunMany(p, cells, db) && AfterMany(q, cells, db) == AfterMany(p, cells, db)
  {
    if p.many.Some? {
      assert ManyChild(q, cells) == ManyChild(p, cells);
    }
  }

  /** How the outcome of a run, and the builder it leaves, are put together from those of its two edges. */
  lemma RunByParts(p: Plan, db: Db)
    requires WellFormed(p) && InvalidFields(p.sel) == []
    ensures var cells := Cells(p, db);
            if cells == [] then Run(p, db) == Success([]) && After(p, db) == p
            else
              && (RunOne(p, cells, db).Failure? ==>
                    && Run(p, db) == Failure(RunOne(p, cells, db).error)
                    && After(p, db) == p.(one := AfterOne(p, cells, db)))
              && (RunOne(p, cells, db).Success? ==>
                    && After(p, db) == p.(one := AfterOne(p, cells, db), many := AfterMany(p, cells, db))
                    && Run(p, db) ==
                       if RunMany(p, cells, db).Failure? then Failure(RunMany(p, cells, db).error)
                       else
                         Success(
                           AttachAll(
                             EdgesOf(p),
                             cells,
                             RunOne(p, cells, db).value,
                             RunMany(p, cells, db).value)))
  {
  }

  /** A placeholder for the node of a call that returns none. */
  ghost function NoNode(): Obj {
    Obj(EntityDecl("", None, None, []), map[], false, None, false, Nil)
  }

  /** The calls that end a chain, and what they return. */
  datatype Terminator = ToAll | ToFirst | ToOnly | ToIDs | ToFirstID | ToExist

  datatype Answer =
    | Nodes(nodes: Result<seq<Node>>)
    | OneNode(node: Result<Node>)
    | Uuids(ids: Result<seq<Uuid>>)
    | OneUuid(id: Result<Uuid>)
    | Exists(found: Result<bool>)

  /** The builder after a terminal call. */
  function Ended(t: Terminator, p: Plan, db: Db): Plan
    requires WellFormed(p)
  {
    match t
    case ToAll => After(p, db)
    case ToFirst => After(WithLimit(p, Some(1)), db)
    case ToOnly => After(WithLimit(p, Some(2)), db)
    case ToIDs => p.(sel := SelectIds(p.sel))
    case ToFirstID | ToExist => p.(sel := SelectIds(p.sel.(limit := Some(1))))
  }

  /** The answer is that of the request; `objs` are the objects that its nodes show. */
  ghost predicate Answers(t: Terminator, p: Plan, db: Db, a: Answer, objs: seq<Obj>)
    requires WellFormed(p)
  {
    match t
    case ToAll => a.Nodes? && Run(p, db) == if a.nodes.Failure? then Failure(a.nodes.error) else Success(objs)
    case ToFirst =>
      a.OneNode? && |objs| == 1
      && Terminal.First(p, db) == if a.node.Failure? then Failure(a.node.error) else Success(objs[0])
    case ToOnly =>
      a.OneNode? && |objs| == 1
      && Terminal.Only(p, db) == if a.node.Failure? then Failure(a.node.error) else Success(objs[0])
    case ToIDs => a == Uuids(Ids(p.sel, db))
    case ToFirstID => a == OneUuid(FirstId(p.sel, db))
    case ToExist => a == Exists(Terminal.Exist(p.sel, db))
  }

  method End(q: Query, t: Terminator, db: Db) returns (a: Answer, ghost objs: seq<Obj>)
    requires q.Valid() && ValidDb(db) && StartsInTable(q.Value(), db)
    modifies q.Repr
    ensures q.Valid() && q.Repr == old(q.Repr) && q.Value() == Ended(t, old(q.Value()), db)
    ensures Answers(t, old(q.Value()), db, a, objs)
  {
    hide Run, After, Terminal.First, Terminal.Only, Ids, FirstId, Terminal.Exist, Query.Value, ValidDb, StartsInTable;
    ghost var graph;
    objs := [];
    match t
    case ToAll =>
      var nodes;
      nodes, objs, graph := q.All(db);
      a := Nodes(nodes);
    case ToFirst =>
      var node;
      ghost var o;
      node, o, graph := q.First(db);
      a, objs := OneNode(node), [o];
    case ToOnly =>
      var node;
      ghost var o;
      node, o, graph := q.Only(db);
      a, objs := OneNode(node), [o];
    case ToIDs =>
      var ids := q.IDs(db);
      a := Uuids(ids);
    case ToFirstID =>
      var id := q.FirstID(db);
      a := OneUuid(id);
    case ToExist =>
      var found := q.Exist(db);
      a := Exists(found);
  }

  /**
    Whatever is called on a clone, and however it is executed, the original stays as
    it was at every depth; and the clone does what the original would have done.
   */
  method RunClone(q: Query, calls: seq<Call>, t: Terminator, db: Db)
    returns (c: Query, a: Answer, ghost objs: seq<Obj>)
    requires q.Valid() && ValidDb(db) && StartsInTable(q.Value(), db)
    requires forall k | 0 <= k < |calls| :: Fits(calls[k], q.entity)
    ensures q.Valid() && q.Value() == old(q.Value()) && q.Repr == old(q.Repr)
    ensures c.Valid() && c.Repr !! q.Repr
    ensures q.Value().sel.entity == q.entity
    ensures var called := AppliedFrom(calls, 0, q.Value());
            c.Value() == Ended(t, called, db) && Answers(t, called, db, a, objs)
  {
    hide *;
    c := Query.Clone(q);
    ghost var p := c.Value();
    c.DoAll(calls);
    CallsStartAlike(calls, p, db);
    a, objs := End(c, t, db);
  }

  lemma CallsStartAlike(calls: seq<Call>, p: Plan, db: Db)
    requires WellFormed(p) && StartsInTable(p, db) && forall k | 0 <= k < |calls| :: Fits(calls[k], p.sel.entity)
    ensures StartsInTable(AppliedFrom(calls, 0, p), db)
  {
  }

  /** Reading `nodes` off the graph yields the objects of a successful run, in order. */
  ghost predicate Shows(nodes: seq<Node>, graph: set<Node>, objs: seq<Obj>)
    reads graph
  {
    |nodes| == |objs| && forall i :: 0 <= i < |nodes| ==> nodes[i] in graph && nodes[i].view == objs[i]
  }

  ghost predicate PointsTo(n: Node?, graph: set<Node>, o: Option<Obj>)
    reads graph
  {
    if n == null then o.None? else n in graph && o == Some(n.view)
  }

  ghost predicate ListsAs(s: Slice, graph: set<Node>, objs: Children)
    reads graph
  {
    if s.NilSlice? then objs.Nil?
    else
      && objs.List? && |s.nodes| == |objs.nodes|
      && forall a :: 0 <= a < |s.nodes| ==> s.nodes[a] in graph && s.nodes[a].view == objs.nodes[a]
  }

  /** The ids and foreign keys that the loops read off nodes are those of the objects the nodes show. */
  lemma ShownKeys(nodes: seq<Node>, graph: set<Node>, objs: seq<Obj>, e: Entity)
    requires Consistent(graph) && Shows(nodes, graph, objs)
    ensures IdsAre(nodes, ObjIds(objs))
    ensures e.one.Some? && (forall o :: o in objs ==> o.entity == e) ==> KeysAre(nodes, ObjKeys(e, objs))
  {
    forall i | 0 <= i < |nodes|
      ensures nodes[i].cells == objs[i].cells && nodes[i].entity == objs[i].entity && nodes[i].Scanned()
    {
      assert nodes[i].Mirrors(graph);
    }
  }

  lemma KeysOfLevel(nodes: seq<Node>, level: set<Node>, cells: seq<Row>, e: Entity)
    requires IsLevel(nodes, level, cells, e)
    ensures LevelIs(nodes, level) && |cells| == |nodes|
    ensures IdsAre(nodes, IdsOf(cells))
    ensures e.one.Some? ==> KeysAre(nodes, KeysOf(e, cells))
  {
    forall i | 0 <= i < |nodes|
      ensures nodes[i].id == IdOf(cells[i])
      ensures e.one.Some? ==> nodes[i].key == ForeignKey(e, cells[i])
    {
      assert nodes[i] in nodes;
    }
  }

  /** Assigned pointers show the neighbours of the join. */
  lemma OnePointer(e: Entity, cells: seq<Row>, i: nat, ns: seq<Node>, graph: set<Node>, objs: seq<Obj>)
    requires e.one.Some? && i < |cells| && Shows(ns, graph, objs)
    ensures PointsTo(Target(KeysOf(e, cells)[i], ObjIds(objs), ns, |ns|), graph, AttachOne(e, cells, i, objs))
  {
    TargetIsLast(KeysOf(e, cells)[i], ObjIds(objs), ns, |ns|);
    assert ObjIds(objs)[..|ns|] == ObjIds(objs);
  }

  /** Appended lists show the neighbours of the join. */
  lemma ManyList(id: Uuid, keys: seq<Option<Uuid>>, ns: seq<Node>, graph: set<Node>, objs: seq<Obj>)
    requires |keys| == |objs| && Shows(ns, graph, objs)
    ensures ListsAs(Slice(Appended(id, keys, ns, |ns|)), graph, List(Select(keys, objs, id)))
  {
    AppendedIsSelect(id, keys, ns, |ns|);
    assert keys[..|ns|] == keys && ns[..|ns|] == ns;
    SelectParallel(keys, ns, objs, id);
  }

  ghost predicate IsLevel(nodes: seq<Node>, level: set<Node>, cells: seq<Row>, e: Entity) {
    LevelIs(nodes, level) && CellsAre(nodes, cells) && forall n | n in nodes :: n.entity == e && n.Scanned()
  }

  /** Many-to-one: `loadDomain`, `loadTenant`, `loadService`, `loadDeployment`. */
  method LoadOne(query: Query, e: Entity, nodes: seq<Node>, ghost level: set<Node>, ghost cells: seq<Row>,
                 ghost child: Plan, db: Db)
    returns (err: Option<Error>, ghost ones: seq<Obj>, ghost graph: set<Node>)
    requires query.Valid() && query.path.None? && ValidDb(db) && e.one.Some?
    requires IsLevel(nodes, level, cells, e) && forall n | n in level :: n.one == null
    requires child == AddPred(query.Value(), ColumnIn("id", FirstKeys(KeysOf(e, cells))))
    modifies query.Repr, level`one
    ensures query.Valid() && query.Repr == old(query.Repr)
    ensures fresh(graph) && Consistent(graph)
    ensures if FirstKeys(KeysOf(e, cells)) == [] then err.None? && ones == [] && query.Value() == old(query.Value())
            else
              && query.Value() == After(child, db)
              && Run(child, db) == if err.Some? then Failure(err.value) else Success(ones)
    ensures err.None? ==> forall i | 0 <= i < |nodes| :: PointsTo(nodes[i].one, graph, AttachOne(e, cells, i, ones))
    decreases query.Repr, 6
  {
    hide *;
    err, ones, graph := None, [], {};
    ghost var asked := query.Value();
    KeysOfLevel(nodes, level, cells, e);
    var ids, nodeids := GroupByKey(nodes, KeysOf(e, cells));
    if |ids| > 0 {
      var r;
      r, ones, graph := RunKeyed(query, ColumnIn("id", ids), child, db);
      if r.Failure? {
        err := Some(r.error);
      } else {
        OneIdsWereAsked(asked, child, ids, db);
        err := AssignAll(nodes, level, cells, e, ids, nodeids, r.value, graph, ones);
      }
    } else {
      NothingAssigned(nodes, level, cells, e, graph);
    }
  }

  lemma NothingAssigned(nodes: seq<Node>, level: set<Node>, cells: seq<Row>, e: Entity, graph: set<Node>)
    requires e.one.Some? && IsLevel(nodes, level, cells, e) && forall n | n in level :: n.one == null
    ensures forall i | 0 <= i < |nodes| :: PointsTo(nodes[i].one, graph, AttachOne(e, cells, i, []))
    ensures Consistent({})
  {
  }

  method AssignAll(ghost nodes: seq<Node>, ghost level: set<Node>, ghost cells: seq<Row>, ghost e: Entity,
                   ghost ids: seq<Uuid>, nodeids: map<Uuid, seq<Node>>, neighbors: seq<Node>, ghost graph: set<Node>,
                   ghost ones: seq<Obj>)
    returns (err: Option<Error>)
    requires e.one.Some? && LevelIs(nodes, level) && |cells| == |nodes| && ids == FirstKeys(KeysOf(e, cells))
    requires nodeids == GroupOf(nodes, KeysOf(e, cells), |nodes|) && forall n | n in level :: n.one == null
    requires Consistent(graph) && Shows(neighbors, graph, ones) && graph !! level
    requires forall id :: id in ObjIds(ones) ==> id in ids
    modifies level`one
    ensures err.None?
    ensures forall i | 0 <= i < |nodes| :: PointsTo(nodes[i].one, graph, AttachOne(e, cells, i, ones))
  {
    ShownKeys(neighbors, graph, ones, e);
    err := AssignOne(nodes, level, KeysOf(e, cells), nodeids, neighbors, ObjIds(ones));
    NothingUnexpected(ids, ObjIds(ones), 0);
    forall i | 0 <= i < |nodes|
      ensures PointsTo(nodes[i].one, graph, AttachOne(e, cells, i, ones))
    {
      OnePointer(e, cells, i, neighbors, graph, ones);
    }
  }

  /** A sub-query is narrowed to the keys of its parents and executed. */
  method RunKeyed(query: Query, keyed: Pred, ghost child: Plan, db: Db)
    returns (r: Result<seq<Node>>, ghost objs: seq<Obj>, ghost graph: set<Node>)
    requires query.Valid() && query.path.None? && ValidDb(db) && child == AddPred(query.Value(), keyed)
    modifies query.Repr
    ensures query.Valid() && query.Repr == old(query.Repr)
    ensures query.Value() == After(child, db)
    ensures fresh(graph) && Consistent(graph)
    ensures Run(child, db) == if r.Failure? then Failure(r.error) else Success(objs)
    ensures r.Success? ==> Shows(r.value, graph, objs)
    decreases query.Repr, 5
  {
    query.Where([keyed]);
    assert query.Value() == child;
    r, objs, graph := query.All(db);
  }

  lemma OneIdsWereAsked(c: Plan, child: Plan, ids: seq<Uuid>, db: Db)
    requires WellFormed(c) && c.sel.path.None? && ValidDb(db)
    requires child == AddPred(c, ColumnIn("id", ids)) && Run(child, db).Success?
    ensures forall k :: k in ObjIds(Run(child, db).value) ==> k in ids
  {
    SpecHoldsId(c.sel, c.one.Some?);
    LoadedKeysWereAsked(c, "id", ids, db);
    RunNodes(child, db);
    var objs := Run(child, db).value;
    forall i | 0 <= i < |objs|
      ensures ObjIds(objs)[i] in ids
    {
      assert objs[i] in objs;
    }
  }

  /** One-to-many: `loadCertificates`, `loadVersions`. */
  method LoadMany(query: Query, e: Entity, nodes: seq<Node>, ghost level: set<Node>, ghost cells: seq<Row>,
                  ghost child: Plan, db: Db)
    returns (err: Option<Error>, ghost manys: seq<Obj>, ghost graph: set<Node>)
    requires query.Valid() && query.path.None? && ValidDb(db) && query.entity.one.Some?
    requires IsLevel(nodes, level, cells, e)
    requires child == AddPred(SelectKey(query.Value()), ColumnIn(query.entity.one.value.column, IdsOf(cells)))
    modifies query.Repr, level`many
    ensures query.Valid() && query.Repr == old(query.Repr)
    ensures fresh(graph) && Consistent(graph)
    ensures query.Value() == After(child, db)
    ensures Run(child, db) == if err.Some? then Failure(err.value) else Success(manys)
    ensures err.None? ==> forall i | 0 <= i < |nodes| ::
                            ListsAs(nodes[i].many, graph, List(AttachMany(query.entity, cells, i, manys)))
    decreases query.Repr, 6
  {
    hide *;
    var column := query.entity.one.value.column;
    ghost var asked := query.Value();
    KeysOfLevel(nodes, level, cells, e);
    var fks, nodeids := IndexById(nodes, IdsOf(cells), level);
    query.SelectForeignKey();
    var r;
    r, manys, graph := RunKeyed(query, ColumnIn(column, fks), child, db);
    if r.Failure? {
      err := Some(r.error);
    } else {
      LoadedManys(asked, child, IdsOf(cells), db);
      err := AppendAll(nodes, level, cells, nodeids, query.entity, r.value, graph, manys);
    }
  }

  method AppendAll(ghost nodes: seq<Node>, ghost level: set<Node>, ghost cells: seq<Row>, nodeids: map<Uuid, Node>,
                   ghost f: Entity, neighbors: seq<Node>, ghost graph: set<Node>, ghost manys: seq<Obj>)
    returns (err: Option<Error>)
    requires f.one.Some? && LevelIs(nodes, level) && |cells| == |nodes| && IdsAre(nodes, IdsOf(cells))
    requires nodeids == IndexOf(nodes, IdsOf(cells), |nodes|) && forall n | n in level :: n.many == Slice([])
    requires Consistent(graph) && Shows(neighbors, graph, manys) && graph !! level
    requires forall o :: o in manys ==> o.entity == f && Holds(ColumnIn(f.one.value.column, IdsOf(cells)), o.cells)
    modifies level`many
    ensures err.None?
    ensures forall i | 0 <= i < |nodes| :: ListsAs(nodes[i].many, graph, List(AttachMany(f, cells, i, manys)))
  {
    ghost var ids, keys := IdsOf(cells), ObjKeys(f, manys);
    ShownKeys(neighbors, graph, manys, f);
    HeldKeys(f, ids, manys);
    IndexHolds(nodes, level, ids);
    err := AssignMany(level, nodeids, neighbors, ids, keys, ObjIds(manys));
    NothingMisplaced(ids, keys, ObjIds(manys), 0);
    forall i | 0 <= i < |nodes|
      ensures ListsAs(nodes[i].many, graph, List(AttachMany(f, cells, i, manys)))
    {
      IndexedLists(nodes, level, ids, i);
      ManyList(ids[i], keys, neighbors, graph, manys);
    }
  }

  lemma EmptyGraph()
    ensures Consistent({}) && Shows([], {}, [])
  {
  }

  /** Records what each node of a finished level now shows. */
  ghost method Publish(nodes: seq<Node>, level: set<Node>, p: Plan, cells: seq<Row>, ones: seq<Obj>, manys: seq<Obj>,
                       g1: set<Node>, g2: set<Node>)
    returns (graph: set<Node>)
    requires WellFormed(p) && IsLevel(nodes, level, cells, p.sel.entity)
    requires Consistent(g1) && Consistent(g2) && level !! g1 && level !! g2
    requires forall n | n in level :: n.oneLoaded == p.one.Some? && n.manyLoaded == p.many.Some?
    requires forall i | 0 <= i < |nodes| ::
               PointsTo(nodes[i].one, g1, if p.one.None? then None else AttachOne(p.sel.entity, cells, i, ones))
    requires forall i | 0 <= i < |nodes| ::
               ListsAs(
                 nodes[i].many,
                 g2,
                 if p.many.None? then Nil else List(AttachMany(p.many.value.sel.entity, cells, i, manys)))
    modifies level`view
    ensures graph == level + g1 + g2
    ensures Consistent(graph) && Shows(nodes, graph, AttachAll(EdgesOf(p), cells, ones, manys))
  {
    var objs := AttachAll(EdgesOf(p), cells, ones, manys);
    graph := level + g1 + g2;
    forall i | 0 <= i < |nodes| {
      nodes[i].view := objs[i];
    }
    forall n | n in graph
      ensures n.Mirrors(graph)
    {
      if n in g1 {
        assert old(n.Mirrors(g1));
      } else if n in g2 {
        assert old(n.Mirrors(g2));
      }
    }
  }
}
