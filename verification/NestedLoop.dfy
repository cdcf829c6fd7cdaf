/**
  Exactly when eager loading is the nested-loop join, for every tree of requests:
  windows on sub-queries at any level, traversals, and rows that are read twice.
 */
module NestedLoop {
  import opened Sql
  import opened Schema
  import opened Plan
  import opened Join
  import opened Projection
  import opened Terminal
  import opened Edges
  import opened Traversal
  import opened Limits

  /**
    At every level that is run, the window of a many-to-one sub-query is harmless to
    its batch and that of a one-to-many sub-query commutes with the distribution.
   */
  ghost predicate FitsEverywhere(p: Plan, db: Db)
    requires WellFormed(p)
    decreases Depth(p)
  {
    var cells := Cells(p, db);
    && (p.one.Some? && OneKeys(p, cells) != [] ==>
          && Harmless(|AllTargets(p, db)|, OffsetOf(p.one.value), LimitOf(p.one.value))
          && FitsEverywhere(OneChild(p, cells), db))
    && (p.many.Some? && cells != [] ==>
          && FitsWindow(
               ObjKeys(p.many.value.sel.entity, AllChildren(p, db)), OffsetOf(p.many.value), LimitOf(p.many.value))
          && FitsEverywhere(ManyChild(p, cells), db))
  }

  /** An earlier copy of a node that was read twice gets an empty list instead of its children. */
  function Shadowed(o: Obj, cells: seq<Row>, i: nat): Obj
    requires i < |cells|
  {
    if o.many.Nil? || i == LastIndex(IdsOf(cells), IdOf(cells[i])) then o else o.(many := List([]))
  }

  // ---------------------------------------------------------------------
  // One level
  // ---------------------------------------------------------------------

  lemma RunHasNaiveCells(c: Plan, db: Db)
    requires WellFormed(c) && Run(c, db).Success?
    ensures SameCells(Run(c, db).value, Naive(c, db))
  {
    RunCells(c, db);
    var rows := RawRows(c, db);
    assert Naive(c, db) == NaiveRows(c, rows, db);
  }

  lemma TargetsOfBatch(p: Plan, db: Db)
    requires WellFormed(p) && p.one.Some?
    ensures var keys, all := OneKeys(p, Cells(p, db)), AllTargets(p, db);
            Cut(all, OffsetOf(p.one.value), LimitOf(p.one.value)) ==
            if keys == [] then [] else Naive(OneChild(p, Cells(p, db)), db)
  {
    hide Naive;
    if OneKeys(p, Cells(p, db)) != [] {
      NaiveIsCut(OneChild(p, Cells(p, db)), db);
    }
  }

  /** The neighbours are right exactly if the window is harmless and the sub-query's own graph is right. */
  lemma NeighboursIff(p: Plan, ones: seq<Obj>, db: Db)
    requires WellFormed(p) && FieldsValid(p) && ValidDb(db) && p.one.Some?
    requires RunOne(p, Cells(p, db), db) == Success(ones)
    ensures (forall i | 0 <= i < |Cells(p, db)| ::
               AttachOne(p.sel.entity, Cells(p, db), i, ones) == NaiveOne(p, Cells(p, db)[i], db)) <==>
            (OneKeys(p, Cells(p, db)) != [] ==>
               && Harmless(|AllTargets(p, db)|, OffsetOf(p.one.value), LimitOf(p.one.value))
               && FitsEverywhere(OneChild(p, Cells(p, db)), db))
    decreases Depth(p), 0
  {
    hide Run, Naive, NaiveOne, Cells, ValidDb, FieldsValid, Cut, AttachOne, FitsEverywhere, OneKeys, OneChild;
    TargetsOfBatch(p, db);
    if OneKeys(p, Cells(p, db)) != [] {
      RunHasNaiveCells(OneChild(p, Cells(p, db)), db);
      OneChildFields(p, Cells(p, db));
      RunIsNaiveIff(OneChild(p, Cells(p, db)), db);
    }
    OneBatchIff(p, ones, db);
  }

  lemma OneChildFields(p: Plan, cells: seq<Row>)
    requires WellFormed(p) && FieldsValid(p) && p.one.Some?
    ensures FieldsValid(OneChild(p, cells)) && OneChild(p, cells).sel.path.None?
  {
  }

  /** The lists are right exactly if the window commutes and the sub-query's own graph is right. */
  lemma ListsIff(p: Plan, manys: seq<Obj>, db: Db)
    requires WellFormed(p) && FieldsValid(p) && ValidDb(db) && p.many.Some?
    requires RunMany(p, Cells(p, db), db) == Success(manys)
    ensures var m, cells := p.many.value, Cells(p, db);
            (forall i | 0 <= i < |cells| ::
               Select(ObjKeys(m.sel.entity, manys), manys, IdOf(cells[i])) == NaiveMany(p, cells[i], db)) <==>
            && FitsWindow(ObjKeys(m.sel.entity, AllChildren(p, db)), OffsetOf(m), LimitOf(m))
            && FitsEverywhere(ManyChild(p, cells), db)
    decreases Depth(p), 0
  {
    hide Run, Naive, NaiveMany, Cells, ValidDb, FieldsValid, FitsEverywhere, FitsWindow, Select, AllChildren;
    var child := ManyChild(p, Cells(p, db));
    RunHasNaiveCells(child, db);
    ManyChildFields(p, Cells(p, db));
    RunIsNaiveIff(child, db);
    ManyBatchIff(p, manys, db);
  }

  /** Every node finds the last copy of itself. */
  lemma LastCopy(cells: seq<Row>, i: nat) returns (at: nat)
    requires i < |cells|
    ensures i <= at < |cells| && IdOf(cells[at]) == IdOf(cells[i])
    ensures at == LastIndex(IdsOf(cells), IdOf(cells[i]))
  {
    var ids := IdsOf(cells);
    assert ids[i] == IdOf(cells[i]);
    assert LastIndex(ids, ids[i]) >= i;
    at := LastIndex(ids, ids[i]);
    assert ids[at] == IdOf(cells[at]);
  }

  lemma AttachedIff(p: Plan, cells: seq<Row>, i: nat, ones: seq<Obj>, manys: seq<Obj>, db: Db)
    requires WellFormed(p) && i < |cells|
    ensures Attach(EdgesOf(p), cells, i, ones, manys) == Shadowed(NaiveObj(p, cells[i], db), cells, i) <==>
            && (p.one.Some? ==> AttachOne(p.sel.entity, cells, i, ones) == NaiveOne(p, cells[i], db))
            && (p.many.Some? && i == LastIndex(IdsOf(cells), IdOf(cells[i])) ==>
                  var e := p.many.value.sel.entity;
                  Select(ObjKeys(e, manys), manys, IdOf(cells[i])) == NaiveMany(p, cells[i], db))
  {
    hide NaiveOne, NaiveMany, AttachOne, Select, LastIndex;
  }

  lemma SameIdSameList(p: Plan, a: Row, b: Row, db: Db)
    requires WellFormed(p) && p.many.Some? && IdOf(a) == IdOf(b)
    ensures NaiveMany(p, a, db) == NaiveMany(p, b, db)
  {
  }

  ghost predicate AllAttached(p: Plan, cells: seq<Row>, ones: seq<Obj>, manys: seq<Obj>, db: Db)
    requires WellFormed(p)
  {
    forall i | 0 <= i < |cells| ::
      Attach(EdgesOf(p), cells, i, ones, manys) == Shadowed(NaiveObj(p, cells[i], db), cells, i)
  }

  /** All nodes are right exactly if all neighbours and all lists are. */
  lemma AllAttachedIff(p: Plan, cells: seq<Row>, ones: seq<Obj>, manys: seq<Obj>, db: Db)
    requires WellFormed(p)
    ensures AllAttached(p, cells, ones, manys, db) <==>
            && (p.one.Some? ==> forall i | 0 <= i < |cells| ::
                  AttachOne(p.sel.entity, cells, i, ones) == NaiveOne(p, cells[i], db))
            && (p.many.Some? ==> forall i | 0 <= i < |cells| ::
                  var e := p.many.value.sel.entity;
                  Select(ObjKeys(e, manys), manys, IdOf(cells[i])) == NaiveMany(p, cells[i], db))
  {
    hide NaiveOne, NaiveMany, NaiveObj, AttachOne, Select, LastIndex, Attach, Shadowed, IdOf, ObjKeys, IdsOf;
    forall i | 0 <= i < |cells| {
      AttachedIff(p, cells, i, ones, manys, db);
    }
    if AllAttached(p, cells, ones, manys, db) && p.many.Some? {
      var e := p.many.value.sel.entity;
      forall i | 0 <= i < |cells|
        ensures Select(ObjKeys(e, manys), manys, IdOf(cells[i])) == NaiveMany(p, cells[i], db)
      {
        var at := LastCopy(cells, i);
        SameIdSameList(p, cells[i], cells[at], db);
        assert Attach(EdgesOf(p), cells, at, ones, manys) == Shadowed(NaiveObj(p, cells[at], db), cells, at);
      }
    }
  }

  // ---------------------------------------------------------------------
  // The whole graph
  // ---------------------------------------------------------------------

  ghost predicate RunIsShadowedNaive(p: Plan, db: Db)
    requires WellFormed(p)
  {
    && Run(p, db).Success?
    && |Run(p, db).value| == |Naive(p, db)| == |Cells(p, db)|
    && forall i | 0 <= i < |Cells(p, db)| :: Run(p, db).value[i] == Shadowed(Naive(p, db)[i], Cells(p, db), i)
  }

  lemma NaiveUnfolds(p: Plan, db: Db)
    requires WellFormed(p)
    ensures |Naive(p, db)| == |Cells(p, db)|
    ensures forall i | 0 <= i < |Cells(p, db)| :: Naive(p, db)[i] == NaiveObj(p, Cells(p, db)[i], db)
  {
    var rows := RawRows(p, db);
    assert Naive(p, db) == NaiveRows(p, rows, db);
  }

  /**
    Eager loading against the reference, for every tree of requests over every store,
    traversals included: up to the lists of nodes that were read twice, the two agree
    exactly if the windows fit at every level.
   */
  lemma {:induction false} RunIsNestedLoopIff(p: Plan, db: Db)
    requires WellFormed(p) && FieldsValid(p) && ValidDb(db)
    ensures RunIsShadowedNaive(p, db) <==> FitsEverywhere(p, db)
    decreases Depth(p), 1
  {
    hide Naive, NaiveOne, NaiveMany, NaiveObj, Cells, ValidDb, Select, FitsWindow, Harmless, AttachOne;
    hide AllTargets, AllChildren, Shadowed, Attach, Run, OneKeys;
    var cells := Cells(p, db);
    ValidFieldsRun(p, db);
    RunCells(p, db);
    NaiveUnfolds(p, db);
    NoKeysOfNothing(p, db);
    if cells != [] {
      PartsSucceed(p, db);
      var ones, manys := RunOne(p, cells, db).value, RunMany(p, cells, db).value;
      RunUnfolds(p, ones, manys, db);
      if p.one.Some? {
        NeighboursIff(p, ones, db);
      }
      if p.many.Some? {
        ListsIff(p, manys, db);
      }
      AllAttachedIff(p, cells, ones, manys, db);
      assert RunIsShadowedNaive(p, db) <==> AllAttached(p, cells, ones, manys, db);
    }
  }

  lemma NoKeysOfNothing(p: Plan, db: Db)
    requires WellFormed(p)
    ensures p.one.Some? && Cells(p, db) == [] ==> OneKeys(p, Cells(p, db)) == []
  {
  }

  lemma PartsSucceed(p: Plan, db: Db)
    requires WellFormed(p) && FieldsValid(p)
    ensures InvalidFields(p.sel) == []
    ensures RunOne(p, Cells(p, db), db).Success? && RunMany(p, Cells(p, db), db).Success?
  {
    hide Run;
    if p.one.Some? {
      OneChildFields(p, Cells(p, db));
      ValidFieldsRun(OneChild(p, Cells(p, db)), db);
    }
    if p.many.Some? {
      ManyChildFields(p, Cells(p, db));
      ValidFieldsRun(ManyChild(p, Cells(p, db)), db);
    }
  }

  /**
    A query that reads no row twice loads exactly the nested-loop join if and only if
    the windows of its sub-queries fit at every level.
   */
  lemma {:induction false} RunIsNaiveIff(p: Plan, db: Db)
    requires WellFormed(p) && FieldsValid(p) && ValidDb(db) && ReadsOnce(p, db)
    ensures Run(p, db) == Success(Naive(p, db)) <==> FitsEverywhere(p, db)
    decreases Depth(p), 2
  {
    hide Run, Naive, Cells, ValidDb, FieldsValid, FitsEverywhere, ReadsOnce, LastIndex;
    RunIsNestedLoopIff(p, db);
    ValidFieldsRun(p, db);
    RunCells(p, db);
    NaiveUnfolds(p, db);
    ReadsOnceIds(p, db);
    forall i | 0 <= i < |Cells(p, db)|
      ensures Shadowed(Naive(p, db)[i], Cells(p, db), i) == Naive(p, db)[i]
    {
      var at := LastCopy(Cells(p, db), i);
      assert IdsOf(Cells(p, db))[i] == IdsOf(Cells(p, db))[at];
    }
    if RunIsShadowedNaive(p, db) {
      assert Run(p, db).value == Naive(p, db);
    }
  }

  /** Without limits and offsets on sub-queries everything fits. */
  lemma {:induction false} UnlimitedFits(p: Plan, db: Db)
    requires WellFormed(p) && ChildrenUnlimited(p)
    ensures FitsEverywhere(p, db)
    decreases Depth(p)
  {
    hide Cells, Naive, AllTargets, AllChildren, OneKeys;
    var cells := Cells(p, db);
    if p.one.Some? {
      NoWindow(p.one.value);
      UnlimitedFits(OneChild(p, cells), db);
    }
    if p.many.Some? {
      NoWindow(p.many.value);
      UnlimitedFits(ManyChild(p, cells), db);
    }
  }

  lemma NoWindow(c: Plan)
    requires WellFormed(c) && Unlimited(c.sel)
    ensures OffsetOf(c) == 0 && LimitOf(c) == 0
  {
  }

  /** So without them a query that reads no row twice loads exactly the nested-loop join, at any depth. */
  lemma RunIsNaive(p: Plan, db: Db)
    requires WellFormed(p) && FieldsValid(p) && ValidDb(db) && ReadsOnce(p, db) && ChildrenUnlimited(p)
    ensures Run(p, db) == Success(Naive(p, db))
  {
    UnlimitedFits(p, db);
    RunIsNaiveIff(p, db);
  }

  // ---------------------------------------------------------------------
  // One edge of the loaded graph
  // ---------------------------------------------------------------------

  /** The list of node `i` is what querying for that node alone finds. */
  ghost predicate ListAgrees(p: Plan, db: Db, i: nat)
    requires WellFormed(p) && p.many.Some? && i < |Cells(p, db)|
  {
    && Run(p, db).Success? && i < |Run(p, db).value|
    && Run(p, db).value[i].many == List(NaiveMany(p, Cells(p, db)[i], db))
  }

  ghost predicate NeighbourAgrees(p: Plan, db: Db, i: nat)
    requires WellFormed(p) && p.one.Some? && i < |Cells(p, db)|
  {
    && Run(p, db).Success? && i < |Run(p, db).value|
    && Run(p, db).value[i].one == NaiveOne(p, Cells(p, db)[i], db)
  }

  lemma RunAttaches(p: Plan, db: Db, i: nat)
    requires WellFormed(p) && FieldsValid(p) && i < |Cells(p, db)|
    ensures Run(p, db).Success? && |Run(p, db).value| == |Cells(p, db)|
    ensures RunOne(p, Cells(p, db), db).Success? && RunMany(p, Cells(p, db), db).Success?
    ensures Run(p, db).value[i] ==
            Attach(
              EdgesOf(p), Cells(p, db), i, RunOne(p, Cells(p, db), db).value, RunMany(p, Cells(p, db), db).value)
  {
    hide Run, RunOne, RunMany, FieldsValid, Cells, Attach;
    PartsSucceed(p, db);
    RunUnfolds(p, RunOne(p, Cells(p, db), db).value, RunMany(p, Cells(p, db), db).value, db);
  }

  /**
    Exactly when an offset and a limit on a one-to-many sub-query mean what they
    would mean for each node by itself: when they would not cut the batch, when
    the batch is one parent's, or, if there are both, when the page is one parent's
    and no other parent has more nodes than are skipped; and the windows below it fit.
   */
  lemma WindowAgreesIff(p: Plan, db: Db)
    requires WellFormed(p) && FieldsValid(p) && ValidDb(db) && ReadsOnce(p, db) && p.many.Some?
    ensures var m, cells := p.many.value, Cells(p, db);
            (forall i | 0 <= i < |cells| :: ListAgrees(p, db, i)) <==>
            && FitsWindow(ObjKeys(m.sel.entity, AllChildren(p, db)), OffsetOf(m), LimitOf(m))
            && FitsEverywhere(ManyChild(p, cells), db)
  {
    hide Run, Naive, NaiveMany, Cells, ValidDb, FieldsValid, FitsEverywhere, FitsWindow, Select, AllChildren;
    hide ReadsOnce, LastIndex;
    var e, cells := p.many.value.sel.entity, Cells(p, db);
    PartsSucceed(p, db);
    var manys := RunMany(p, cells, db).value;
    ListsIff(p, manys, db);
    ReadsOnceIds(p, db);
    forall i | 0 <= i < |cells|
      ensures ListAgrees(p, db, i) <==>
              Select(ObjKeys(e, manys), manys, IdOf(cells[i])) == NaiveMany(p, cells[i], db)
    {
      var at := LastCopy(cells, i);
      assert IdsOf(cells)[i] == IdsOf(cells)[at];
      RunAttaches(p, db, i);
    }
  }

  /**
    On a many-to-one sub-query a limit is harmless exactly when it cuts nothing off
    the batch, and an offset exactly when it leaves nothing of it; and the windows
    below it must fit.
   */
  lemma OneWindowAgreesIff(p: Plan, db: Db)
    requires WellFormed(p) && FieldsValid(p) && ValidDb(db) && p.one.Some?
    ensures var cells := Cells(p, db);
            (forall i | 0 <= i < |cells| :: NeighbourAgrees(p, db, i)) <==>
            (OneKeys(p, cells) != [] ==>
               && Harmless(|AllTargets(p, db)|, OffsetOf(p.one.value), LimitOf(p.one.value))
               && FitsEverywhere(OneChild(p, cells), db))
  {
    hide Run, Naive, NaiveOne, Cells, ValidDb, FieldsValid, FitsEverywhere, AttachOne, AllTargets, OneKeys, OneChild;
    PartsSucceed(p, db);
    var ones := RunOne(p, Cells(p, db), db).value;
    NeighboursIff(p, ones, db);
    forall i | 0 <= i < |Cells(p, db)|
      ensures NeighbourAgrees(p, db, i) <==>
              AttachOne(p.sel.entity, Cells(p, db), i, ones) == NaiveOne(p, Cells(p, db)[i], db)
    {
      RunAttaches(p, db, i);
    }
  }

  // ---------------------------------------------------------------------
  // Rows that come twice
  // ---------------------------------------------------------------------

  /** The rows that point back to `cells` and pass the sub-query's predicates. */
  function ChildRows(m: Plan, cells: Row, db: Db): seq<Row>
    requires m.sel.entity.one.Some?
  {
    Filter(m.sel.preds + [ColumnIn(m.sel.entity.one.value.column, [IdOf(cells)])], db(m.sel.entity))
  }

  /** The query reads `r` more than once, and `r` has more children than the sub-query's offset skips. */
  ghost predicate RepeatsParent(p: Plan, db: Db, r: Row)
    requires WellFormed(p)
  {
    && p.many.Some?
    && multiset(RawRows(p, db))[r] > 1
    && |ChildRows(p.many.value, r, db)| > OffsetOf(p.many.value)
  }

  lemma ChildrenById(m: Plan, a: Row, b: Row, db: Db)
    requires m.sel.entity.one.Some? && IdOf(a) == IdOf(b)
    ensures ChildRows(m, a, db) == ChildRows(m, b, db)
  {
  }

  /** Querying for a node's children alone finds some exactly if the offset leaves some. */
  lemma ListIsFoundIff(p: Plan, cells: Row, db: Db)
    requires WellFormed(p) && p.many.Some? && ValidDb(db)
    ensures NaiveMany(p, cells, db) != [] <==> |ChildRows(p.many.value, cells, db)| > OffsetOf(p.many.value)
  {
    hide NaiveMany, ValidDb, RawRows, Cut, Sort;
    var m := p.many.value;
    var alone := Alone(m, IdOf(cells));
    NaiveManyRows(p, cells, db);
    RowsAreCut(alone, db);
    RawIsSortedFilter(Uncut(alone), db);
    SortIsSorted(m.sel.order, ChildRows(m, cells, db));
    assert |RawRows(Uncut(alone), db)| == |ChildRows(m, cells, db)| by {
      assert multiset(RawRows(Uncut(alone), db)) == multiset(ChildRows(m, cells, db));
      assert |multiset(RawRows(Uncut(alone), db))| == |RawRows(Uncut(alone), db)|;
    }
  }

  ghost predicate NothingShadowed(p: Plan, db: Db)
    requires WellFormed(p)
  {
    && |Naive(p, db)| == |Cells(p, db)|
    && forall i | 0 <= i < |Cells(p, db)| :: Shadowed(Naive(p, db)[i], Cells(p, db), i) == Naive(p, db)[i]
  }

  /** A row read twice whose children the reference finds is shadowed. */
  lemma RepeatedParentIsShadowed(p: Plan, db: Db, r: Row)
    requires WellFormed(p) && ValidDb(db) && StartsInTable(p, db) && RepeatsParent(p, db, r)
    ensures !NothingShadowed(p, db)
  {
    hide Naive, NaiveMany, ChildRows, RawRows, Cells, ValidDb, StartsInTable;
    var raw, cells := RawRows(p, db), Cells(p, db);
    CountsTwice(raw, r);
    var i, j :| 0 <= i < j < |raw| && raw[i] == r && raw[j] == r;
    SameIdSameRaw(p, db, i, j);
    CellIds(p, db);
    assert IdsOf(cells)[i] == IdOf(cells[i]) && IdsOf(raw)[i] == IdOf(raw[i]);
    ChildrenById(p.many.value, r, cells[i], db);
    ListIsFoundIff(p, cells[i], db);
    NaiveList(p, db, i);
    assert LastIndex(IdsOf(cells), IdOf(cells[i])) >= j;
  }

  lemma UnrepeatedParentIsKept(p: Plan, db: Db, i: nat)
    requires WellFormed(p) && ValidDb(db) && StartsInTable(p, db)
    requires i < |Cells(p, db)| && !RepeatsParent(p, db, RawRows(p, db)[i])
    ensures i < |Naive(p, db)|
    ensures Shadowed(Naive(p, db)[i], Cells(p, db), i) == Naive(p, db)[i]
  {
    hide Naive, NaiveMany, ChildRows, RawRows, Cells, ValidDb, StartsInTable;
    var raw, cells := RawRows(p, db), Cells(p, db);
    var at := LastCopy(cells, i);
    NaiveList(p, db, i);
    if p.many.Some? && at != i {
      assert IdsOf(cells)[i] == IdsOf(cells)[at];
      SameIdSameRaw(p, db, i, at);
      CountsTwice(raw, raw[i]);
      CellIds(p, db);
      assert IdsOf(cells)[i] == IdOf(cells[i]) && IdsOf(raw)[i] == IdOf(raw[i]);
      ChildrenById(p.many.value, raw[i], cells[i], db);
      ListIsFoundIff(p, cells[i], db);
    }
  }

  lemma ShadowedIsAList(p: Plan, db: Db, i: nat)
    requires WellFormed(p) && FieldsValid(p) && i < |Cells(p, db)|
    ensures Run(p, db).Success? && |Run(p, db).value| == |Cells(p, db)|
    ensures Shadowed(Run(p, db).value[i], Cells(p, db), i) == Run(p, db).value[i]
  {
    hide Run, RunOne, RunMany, FieldsValid, Cells, AttachOne, Select, LastIndex;
    RunAttaches(p, db, i);
  }

  /**
    Whatever was said about DISTINCT, a query loads the nested-loop join if and only if
    the windows fit and it does not read a row twice that has children past the offset.
   */
  lemma TraversalIsNaiveIff(p: Plan, db: Db)
    requires WellFormed(p) && FieldsValid(p) && ValidDb(db) && StartsInTable(p, db)
    ensures Run(p, db) == Success(Naive(p, db)) <==>
            FitsEverywhere(p, db) && forall r :: !RepeatsParent(p, db, r)
  {
    hide Run, Naive, Cells, ValidDb, FieldsValid, FitsEverywhere, StartsInTable, RepeatsParent, Shadowed, RawRows;
    RunIsNestedLoopIff(p, db);
    ValidFieldsRun(p, db);
    RunCells(p, db);
    NaiveUnfolds(p, db);
    forall i | 0 <= i < |Cells(p, db)| {
      ShadowedIsAList(p, db, i);
    }
    if NothingShadowed(p, db) {
      if RunIsShadowedNaive(p, db) {
        assert Run(p, db).value == Naive(p, db);
      }
      if r :| RepeatsParent(p, db, r) {
        RepeatedParentIsShadowed(p, db, r);
        assert false;
      }
    } else {
      var i :| 0 <= i < |Cells(p, db)| && Shadowed(Naive(p, db)[i], Cells(p, db), i) != Naive(p, db)[i];
      if !RepeatsParent(p, db, RawRows(p, db)[i]) {
        UnrepeatedParentIsKept(p, db, i);
        assert false;
      }
    }
  }

  /**
    For `Unique(false)` without a limit or offset of the query's own, in terms of
    the traversal: no row that it yields twice passes the predicates and has children
    past the offset of their sub-query.
   */
  lemma UndistinctTraversalIff(p: Plan, db: Db)
    requires WellFormed(p) && FieldsValid(p) && ValidDb(db) && StartsInTable(p, db)
    requires !ReadsDistinct(p.sel) && Unlimited(p.sel)
    ensures Run(p, db) == Success(Naive(p, db)) <==>
            && FitsEverywhere(p, db)
            && (p.many.Some? ==>
                  forall r :: multiset(From(p.sel, db))[r] > 1 && AllHold(p.sel.preds, r) ==>
                    |ChildRows(p.many.value, r, db)| <= OffsetOf(p.many.value))
  {
    hide FitsEverywhere, Run, Naive, ValidDb, FieldsValid, StartsInTable, ChildRows;
    TraversalIsNaiveIff(p, db);
    var from := From(p.sel, db);
    SortIsSorted(p.sel.order, Filter(p.sel.preds, from));
    forall r
      ensures multiset(RawRows(p, db))[r] == if AllHold(p.sel.preds, r) then multiset(from)[r] else 0
    {
      FilterCounts(p.sel.preds, from, r);
    }
    if p.many.Some? {
      forall r
        ensures RepeatsParent(p, db, r) <==>
                && multiset(from)[r] > 1 && AllHold(p.sel.preds, r)
                && |ChildRows(p.many.value, r, db)| > OffsetOf(p.many.value)
      {
      }
    }
  }

  // ---------------------------------------------------------------------
  // The first node
  // ---------------------------------------------------------------------

  lemma UncutTwice(p: Plan, limit: Option<nat>, db: Db)
    requires WellFormed(p)
    ensures Uncut(WithLimit(p, limit)) == Uncut(p)
  {
  }

  /** Without limits and offsets below it, `First` is the first node of `All` with everything that hangs on it. */
  lemma FirstIsFirstOfAll(p: Plan, db: Db)
    requires WellFormed(p) && FieldsValid(p) && ValidDb(db) && ReadsOnce(p, db) && ChildrenUnlimited(p)
    ensures var all := Run(WithLimit(p, None), db);
            && all.Success?
            && First(p, db) == if all.value == [] then Failure(NotFound) else Success(all.value[0])
  {
    hide Run, Naive, ValidDb;
    RunIsNaive(WithLimit(p, None), db);
    RunIsNaive(WithLimit(p, Some(1)), db);
    UncutTwice(p, None, db);
    UncutTwice(p, Some(1), db);
    NaiveIsCut(WithLimit(p, None), db);
    NaiveIsCut(WithLimit(p, Some(1)), db);
  }
}
