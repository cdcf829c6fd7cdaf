/**
  What one level of a request reads and shows: which rows, how often, in which
  order, and which cells of them.
 */
module Rows {
  import opened Sql
  import opened Schema
  import opened Plan
  import opened Join
  import opened Projection
  import opened Terminal
  import opened Traversal
  import opened Limits

  // ---------------------------------------------------------------------
  // Which rows, and how often
  // ---------------------------------------------------------------------

  lemma {:induction false} OnceEach(rows: seq<Row>, r: Row)
    requires DistinctIds(rows)
    ensures multiset(rows)[r] == if r in rows then 1 else 0
  {
    if rows != [] {
      assert rows == [rows[0]] + rows[1..];
      assert DistinctIds(rows[1..]);
      OnceEach(rows[1..], r);
    }
  }

  lemma DistinctKeepsMembers(columns: seq<string>, rows: seq<Row>, table: seq<Row>)
    requires "id" in columns && DistinctIds(table) && DrawnFrom(rows, table)
    ensures forall r :: r in Distinct(columns, rows) <==> r in rows
  {
    DistinctIsExact(columns, rows);
    forall r | r in rows
      ensures r in Distinct(columns, rows)
    {
      assert ShowsTuple(columns, Distinct(columns, rows), r);
      var x :| x in Distinct(columns, rows) && Project(columns, x) == Project(columns, r);
      SameIdInProjection(columns, x, r);
      SameIdSameRow(table, x, r);
    }
  }

  /** How often a query without limit and offset reads the row. */
  function Reads(p: Plan, db: Db, r: Row): nat {
    if !AllHold(p.sel.preds, r) then 0
    else if ReadsDistinct(p.sel) then if r in From(p.sel, db) then 1 else 0
    else multiset(From(p.sel, db))[r]
  }

  lemma KeptRows(p: Plan, columns: seq<string>, db: Db, r: Row)
    requires ValidDb(db) && StartsInTable(p, db) && "id" in columns
    ensures var kept := Filter(p.sel.preds, From(p.sel, db));
            multiset(if ReadsDistinct(p.sel) then Distinct(columns, kept) else kept)[r] == Reads(p, db, r)
  {
    var kept := Filter(p.sel.preds, From(p.sel, db));
    FilterCounts(p.sel.preds, From(p.sel, db), r);
    if ReadsDistinct(p.sel) {
      DistinctYieldsIds(columns, kept, db(p.sel.entity));
      DistinctKeepsMembers(columns, kept, db(p.sel.entity));
      OnceEach(Distinct(columns, kept), r);
    }
  }

  /** The order the request asks for, term by term. */
  ghost predicate Ordered(terms: seq<OrderTerm>, rows: seq<Row>) {
    forall i, j, t | 0 <= i < j < |rows| && 0 <= t < |terms| && TiedBefore(terms, t, rows[i], rows[j]) ::
      InOrder(terms[t], rows[i], rows[j])
  }

  lemma SortedIsOrdered(terms: seq<OrderTerm>, rows: seq<Row>)
    requires Sorted(terms, rows)
    ensures Ordered(terms, rows)
  {
    forall i, j, t | 0 <= i < j < |rows| && 0 <= t < |terms| && TiedBefore(terms, t, rows[i], rows[j])
      ensures InOrder(terms[t], rows[i], rows[j])
    {
      AtMostIsLexicographic(terms, rows[i], rows[j]);
    }
  }

  lemma AllRows(p: Plan, db: Db)
    requires WellFormed(p)
    ensures var kept, columns := Filter(p.sel.preds, From(p.sel, db)), SpecColumns(p.sel, p.one.Some?);
            RawRows(Uncut(p), db) ==
            Sort(p.sel.order, if ReadsDistinct(p.sel) then Distinct(columns, kept) else kept)
  {
    hide Distinct, Sort, Filter;
  }

  /**
    What a query reads, for any request over a valid store: without its limit and
    offset every row from which it starts and which passes its predicates, once if it
    is DISTINCT and otherwise as often as it comes, in the order asked for.
   */
  lemma RowsAreExact(p: Plan, db: Db)
    requires WellFormed(p) && ValidDb(db) && StartsInTable(p, db)
    ensures forall r :: multiset(RawRows(Uncut(p), db))[r] == Reads(p, db, r)
    ensures Ordered(p.sel.order, RawRows(Uncut(p), db))
  {
    hide Distinct, Sort, Filter, Reads, Sorted, Ordered;
    var kept, columns := Filter(p.sel.preds, From(p.sel, db)), SpecColumns(p.sel, p.one.Some?);
    var read := if ReadsDistinct(p.sel) then Distinct(columns, kept) else kept;
    AllRows(p, db);
    SpecHoldsId(p.sel, p.one.Some?);
    SortIsSorted(p.sel.order, read);
    SortedIsOrdered(p.sel.order, RawRows(Uncut(p), db));
    forall r
      ensures multiset(read)[r] == Reads(p, db, r)
    {
      KeptRows(p, columns, db, r);
    }
  }

  lemma CutElements<T>(s: seq<T>, o: nat, l: nat)
    ensures |Cut(s, o, l)| == if |s| <= o then 0 else if l == 0 || |s| - o <= l then |s| - o else l
    ensures forall k | 0 <= k < |Cut(s, o, l)| :: Cut(s, o, l)[k] == s[o + k]
  {
  }

  /** The offset skips that many rows, and the limit, unless it is zero, is how many there are at most. */
  lemma WindowIsExact(p: Plan, db: Db)
    requires WellFormed(p)
    ensures var all, o, l := RawRows(Uncut(p), db), OffsetOf(p), LimitOf(p);
            && |RawRows(p, db)| == (if |all| <= o then 0 else if l == 0 || |all| - o <= l then |all| - o else l)
            && forall k | 0 <= k < |RawRows(p, db)| :: RawRows(p, db)[k] == all[o + k]
  {
    hide RawRows, Cut;
    RowsAreCut(p, db);
    CutElements(RawRows(Uncut(p), db), OffsetOf(p), LimitOf(p));
  }

  // ---------------------------------------------------------------------
  // Which cells
  // ---------------------------------------------------------------------

  /** The columns a node shows: all of them, or the id, the selected ones, and the key of an edge that is loaded. */
  predicate Shown(p: Plan, c: string) {
    if p.sel.fields == [] then IsColumn(p.sel.entity, c)
    else
      || c == "id" || c in p.sel.fields
      || (p.one.Some? && p.sel.entity.one.Some? && c == p.sel.entity.one.value.column)
  }

  lemma ColumnsShown(p: Plan)
    requires WellFormed(p)
    ensures forall c :: c in SpecColumns(p.sel, p.one.Some?) <==> Shown(p, c)
  {
    ColumnsAreExact(p.sel.entity);
  }

  /** The cells of a row that a node shows, with the values of the row. */
  ghost predicate ShowsRow(p: Plan, cells: Row, r: Row) {
    && (forall c :: c in cells <==> Shown(p, c) && c in r)
    && (forall c | c in cells :: cells[c] == r[c])
  }

  /** The nodes of a run are the rows that the query reads, in order, each with the cells asked for. */
  lemma NodesShowRows(p: Plan, db: Db)
    requires WellFormed(p) && Run(p, db).Success?
    ensures |Run(p, db).value| == |RawRows(p, db)|
    ensures forall i | 0 <= i < |RawRows(p, db)| ::
              && Run(p, db).value[i].entity == p.sel.entity
              && ShowsRow(p, Run(p, db).value[i].cells, RawRows(p, db)[i])
  {
    hide Run, RawRows;
    RunCells(p, db);
    RunNodes(p, db);
    ColumnsShown(p);
    forall i | 0 <= i < |RawRows(p, db)|
      ensures Run(p, db).value[i].entity == p.sel.entity
    {
      assert Run(p, db).value[i] in Run(p, db).value;
    }
  }

  /** The foreign key of a scanned row: that of the row if it was read, and otherwise nil or the zero uuid. */
  ghost predicate HasKeyOf(e: Entity, shown: bool, cells: Row, r: Row) {
    e.one.Some? ==>
      var column, key := e.one.value.column, ForeignKey(e, cells);
      if shown then column in r && (if r[column].Id? then key == Some(r[column].id) else key == None)
      else key == if e.one.value.nullable then None else Some(NIL_UUID)
  }

  lemma KeyOfCells(p: Plan, cells: Row, r: Row)
    requires ValidRow(p.sel.entity, r) && ShowsRow(p, cells, r)
    ensures p.sel.entity.one.Some? ==> HasKeyOf(p.sel.entity, Shown(p, p.sel.entity.one.value.column), cells, r)
  {
  }

  /** The ids and the foreign keys of the nodes are those of the rows, as far as they were selected. */
  lemma NodesHaveKeys(p: Plan, db: Db)
    requires WellFormed(p) && ValidDb(db) && StartsInTable(p, db) && Run(p, db).Success?
    ensures |Run(p, db).value| == |RawRows(p, db)|
    ensures forall i | 0 <= i < |RawRows(p, db)| ::
              && IdOf(Run(p, db).value[i].cells) == IdOf(RawRows(p, db)[i])
              && (p.sel.entity.one.Some? ==>
                    HasKeyOf(
                      p.sel.entity, Shown(p, p.sel.entity.one.value.column), Run(p, db).value[i].cells,
                      RawRows(p, db)[i]))
  {
    hide Run, RawRows, HasKeyOf, Shown, ShowsRow;
    NodesShowRows(p, db);
    RunCells(p, db);
    CellIds(p, db);
    forall i | 0 <= i < |RawRows(p, db)|
      ensures IdOf(Run(p, db).value[i].cells) == IdOf(RawRows(p, db)[i])
      ensures p.sel.entity.one.Some? ==>
                HasKeyOf(
                  p.sel.entity, Shown(p, p.sel.entity.one.value.column), Run(p, db).value[i].cells, RawRows(p, db)[i])
    {
      var r := RawRows(p, db)[i];
      assert r in RawRows(p, db) && ValidRow(p.sel.entity, r);
      assert IdsOf(Cells(p, db))[i] == IdsOf(RawRows(p, db))[i];
      KeyOfCells(p, Run(p, db).value[i].cells, r);
    }
  }

  /**
    The ids of the nodes, for a query without a limit and an offset of its own: those
    of the rows it starts from that pass its predicates, each once if it is DISTINCT.
   */
  lemma NodeIdsAreExact(p: Plan, db: Db)
    requires WellFormed(p) && ValidDb(db) && StartsInTable(p, db) && Unlimited(p.sel) && Run(p, db).Success?
    ensures forall id :: id in ObjIds(Run(p, db).value) <==>
                           exists r :: r in From(p.sel, db) && AllHold(p.sel.preds, r) && IdOf(r) == id
    ensures ReadsDistinct(p.sel) ==> AllDifferent(ObjIds(Run(p, db).value))
  {
    hide Run, RawRows, ValidDb, AllHold;
    var ids, raw := ObjIds(Run(p, db).value), RawRows(p, db);
    UnlimitedReadsAll(p, db);
    RunCells(p, db);
    CellIds(p, db);
    assert ids == IdsOf(raw);
    forall r | r in raw
      ensures IdOf(r) in ids
    {
      var i :| 0 <= i < |raw| && raw[i] == r;
      assert IdsOf(raw)[i] == IdOf(r);
    }
    forall i | 0 <= i < |ids|
      ensures raw[i] in raw && ids[i] == IdOf(raw[i])
    {
    }
    if ReadsDistinct(p.sel) {
      DistinctRows(p, db);
    }
  }

  lemma UnlimitedReadsAll(p: Plan, db: Db)
    requires WellFormed(p) && ValidDb(db) && StartsInTable(p, db) && Unlimited(p.sel)
    ensures forall r :: r in RawRows(p, db) <==> r in From(p.sel, db) && AllHold(p.sel.preds, r)
  {
    hide RawRows;
    RowsAreExact(p, db);
    RowsAreCut(p, db);
    CutNothing(RawRows(Uncut(p), db));
    assert RawRows(p, db) == RawRows(Uncut(p), db);
    forall r
      ensures r in RawRows(p, db) <==> Reads(p, db, r) > 0
    {
      assert r in RawRows(p, db) <==> multiset(RawRows(p, db))[r] > 0;
    }
  }

  // ---------------------------------------------------------------------
  // Invalid selections
  // ---------------------------------------------------------------------

  lemma {:induction false} FirstInvalid(e: Entity, fields: seq<string>) returns (k: nat)
    requires InvalidAmong(e, fields) != []
    ensures k < |fields| && fields[k] == InvalidAmong(e, fields)[0] && !IsColumn(e, fields[k])
    ensures forall j | 0 <= j < k :: IsColumn(e, fields[j])
  {
    ColumnsAreExact(e);
    if fields[0] !in Columns(e) {
      k := 0;
    } else {
      k := FirstInvalid(e, fields[1..]);
      k := k + 1;
    }
  }

  /** A run reports the first selected name that is not the id, the foreign key or an attribute, if there is one. */
  lemma InvalidFieldIsExact(p: Plan, db: Db)
    requires WellFormed(p)
    ensures (forall f | f in p.sel.fields :: IsColumn(p.sel.entity, f)) <==> InvalidFields(p.sel) == []
    ensures forall k | 0 <= k < |p.sel.fields| && !IsColumn(p.sel.entity, p.sel.fields[k])
                       && (forall j | 0 <= j < k :: IsColumn(p.sel.entity, p.sel.fields[j])) ::
              Run(p, db) == Failure(InvalidField(p.sel.fields[k]))
  {
    ColumnsAreExact(p.sel.entity);
    var fields, bad := p.sel.fields, InvalidFields(p.sel);
    assert forall f | f in bad :: f in fields;
    if bad != [] {
      assert bad[0] in bad;
      var at := FirstInvalid(p.sel.entity, fields);
    } else {
      assert forall f | f in fields :: f !in bad;
    }
  }

  // ---------------------------------------------------------------------
  // Columns sent
  // ---------------------------------------------------------------------

  /** The columns without `c` keep their order. */
  lemma WithoutGrows(c: string, fields: seq<string>, last: string)
    ensures Without(c, fields + [last]) == Without(c, fields) + if last == c then [] else [last]
  {
    assert (fields + [last])[..|fields|] == fields;
  }

  lemma {:induction false} WithoutIsExact(c: string, fields: seq<string>, f: string)
    ensures multiset(Without(c, fields))[f] == if f == c then 0 else multiset(fields)[f]
    decreases |fields|
  {
    if fields != [] {
      hide Without;
      var init, last := fields[..|fields| - 1], fields[|fields| - 1];
      WithoutIsExact(c, init, f);
      assert fields == init + [last];
      WithoutGrows(c, init, last);
    }
  }

  /**
    The columns of a specification with a selection: the id first and once, every other
    selected column as often as it was selected, and the key of a loaded edge at least once.
   */
  lemma ColumnsSentAreExact(p: Plan)
    requires WellFormed(p) && p.sel.fields != []
    ensures var columns := SpecOf(p.sel, p.one.Some?).columns;
            && columns[0] == "id" && multiset(columns)["id"] == 1
            && forall f | f != "id" ::
                 multiset(columns)[f] ==
                 if p.one.Some? && f == p.sel.entity.one.value.column && f !in p.sel.fields then 1
                 else multiset(p.sel.fields)[f]
  {
    var plain, columns := ["id"] + Without("id", p.sel.fields), SpecColumns(p.sel, p.one.Some?);
    forall f
      ensures multiset(plain)[f] == if f == "id" then 1 else multiset(p.sel.fields)[f]
    {
      WithoutIsExact("id", p.sel.fields, f);
    }
    if |columns| > |plain| {
      assert columns == plain + [columns[|plain|]];
      assert columns[|plain|] in columns;
    }
  }

  /**
    A projected one-to-many sub-query selects its foreign key as well, once; it shows
    nothing else besides what was asked for, and is not changed otherwise.
   */
  lemma SelectKeyIsExact(c: Plan)
    requires WellFormed(c) && c.sel.entity.one.Some?
    ensures forall x :: Shown(SelectKey(c), x) <==> Shown(c, x) || x == c.sel.entity.one.value.column
    ensures SelectKey(c) == c.(sel := c.sel.(fields := SelectKey(c).sel.fields))
    ensures forall f | f != c.sel.entity.one.value.column || f in c.sel.fields ::
              multiset(SelectKey(c).sel.fields)[f] == multiset(c.sel.fields)[f]
  {
    var fields, more := c.sel.fields, SelectKey(c).sel.fields;
    if |more| > |fields| {
      assert more == fields + [more[|fields|]];
      assert more[|fields|] in more;
    }
  }

  // ---------------------------------------------------------------------
  // Failures below
  // ---------------------------------------------------------------------

  /** The invalid names at all levels that a run reaches, in the order it reaches them. */
  function Faults(p: Plan, db: Db): seq<string>
    requires WellFormed(p)
    decreases Depth(p)
  {
    if InvalidFields(p.sel) != [] then InvalidFields(p.sel)
    else
      var cells := Cells(p, db);
      (if p.one.Some? && OneKeys(p, cells) != [] then Faults(OneChild(p, cells), db) else [])
      + (if p.many.Some? && cells != [] then Faults(ManyChild(p, cells), db) else [])
  }

  lemma NoKeysWithoutCells(p: Plan, cells: seq<Row>)
    requires WellFormed(p) && p.one.Some? && cells == []
    ensures OneKeys(p, cells) == []
  {
  }

  /** A run fails exactly if some level that it reaches selects an unknown column, and reports the first one. */
  lemma {:induction false} RunFailsAtFirstFault(p: Plan, db: Db)
    requires WellFormed(p)
    ensures Run(p, db).Failure? <==> Faults(p, db) != []
    ensures Faults(p, db) != [] ==> Run(p, db) == Failure(InvalidField(Faults(p, db)[0]))
    decreases Depth(p)
  {
    hide Cells, OneKeys, OneChild, ManyChild;
    if InvalidFields(p.sel) == [] {
      var cells := Cells(p, db);
      if p.one.Some? && cells == [] {
        NoKeysWithoutCells(p, cells);
      }
      if p.one.Some? && OneKeys(p, cells) != [] {
        RunFailsAtFirstFault(OneChild(p, cells), db);
      }
      if p.many.Some? && cells != [] {
        RunFailsAtFirstFault(ManyChild(p, cells), db);
      }
    }
  }
}
