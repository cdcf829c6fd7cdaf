/**
  The part of a generated schema that eager loading depends on: the columns of
  an entity, the edge that follows its own foreign key, and the edge that follows
  the foreign key of another entity back to it. Everything proved about queries
  holds for every such schema; `Catalog` lists the entities of the repository.
 */
module Schema {
  import opened Sql

  /** A many-to-one edge: `column` of the owning table holds the id of a row of `target`. */
  datatype OneEdge = OneEdge(target: string, column: string, nullable: bool)

  /** `many` names the entity whose own `one` edge points back here. */
  datatype EntityDecl = EntityDecl(name: string, one: Option<OneEdge>, many: Option<string>, attributes: seq<string>)

  predicate WellKeyed(e: EntityDecl) {
    "id" !in e.attributes && (e.one.Some? ==> e.one.value.column != "id")
  }

  type Entity = e: EntityDecl | WellKeyed(e) witness EntityDecl("", None, None, [])

  /** The far end of the many-to-one edge of `e`. */
  predicate OneFits(e: Entity, target: Entity) {
    e.one.Some? && e.one.value.target == target.name
  }

  /** The far end of the one-to-many edge of `e`. */
  predicate ManyFits(e: Entity, child: Entity) {
    e.many == Some(child.name) && OneFits(child, e)
  }

  function Columns(e: Entity): (columns: seq<string>)
    ensures columns != [] && columns[0] == "id"
    ensures forall i :: 0 < i < |columns| ==> columns[i] != "id"
    ensures e.one.Some? ==> e.one.value.column in columns
  {
    var keyed := if e.one.Some? then ["id", e.one.value.column] else ["id"];
    assert e.one.Some? ==> (keyed + e.attributes)[1] == e.one.value.column;
    keyed + e.attributes
  }

  predicate IsColumn(e: Entity, c: string) {
    c == "id" || (e.one.Some? && c == e.one.value.column) || c in e.attributes
  }

  /** The columns are the id, the foreign key and the attributes, and nothing else. */
  lemma ColumnsAreExact(e: Entity)
    ensures forall c :: c in Columns(e) <==> IsColumn(e, c)
  {
    var keyed := if e.one.Some? then ["id", e.one.value.column] else ["id"];
    assert forall c :: c in keyed + e.attributes <==> c in keyed || c in e.attributes;
    assert keyed[0] == "id";
  }

  /**
    The foreign-key field of a node whose scanned cells are `cells`. A required
    key that was not selected keeps the zero uuid; a nullable one is a nil pointer.
   */
  function ForeignKey(e: Entity, cells: Row): Option<Uuid>
    requires e.one.Some?
  {
    var edge := e.one.value;
    if edge.column in cells && cells[edge.column].Id? then Some(cells[edge.column].id)
    else if edge.nullable then None
    else Some(NIL_UUID)
  }

  type Db = Entity -> seq<Row>

  ghost predicate ValidRow(e: Entity, r: Row) {
    e.one.Some? ==>
      && e.one.value.column in r
      && (r[e.one.value.column].Id? || (e.one.value.nullable && r[e.one.value.column].Null?))
  }

  ghost predicate ValidDb(db: Db) {
    forall e: Entity :: DistinctIds(db(e)) && forall r | r in db(e) :: ValidRow(e, r)
  }
}
