/**
  The in-memory half of eager loading: nodes are shared mutable objects, and the
  `load...` methods group them in maps and write their edges in place.
 */
module Loader {
  import opened Sql
  import opened Schema
  import opened Plan

  /** An edge slice of a node: nil until the edge is loaded. */
  datatype Slice = NilSlice | Slice(nodes: seq<Node>)

  class Node {
    const entity: Entity
    const cells: Row
    /** The `ID` field and the foreign-key field, as scanned. */
    const id: Uuid
    const key: Option<Uuid>
    const oneLoaded: bool
    const manyLoaded: bool
    var one: Node?
    var many: Slice

    /** The object graph hanging off this node, as a value. */
    ghost var view: Obj

    constructor (entity: Entity, cells: Row, oneLoaded: bool, manyLoaded: bool)
      ensures this.entity == entity && this.cells == cells && Scanned()
      ensures this.oneLoaded == oneLoaded && this.manyLoaded == manyLoaded
      ensures one == null && many == NilSlice
    {
      this.entity, this.cells := entity, cells;
      id, key := IdOf(cells), if entity.one.Some? then ForeignKey(entity, cells) else None;
      this.oneLoaded, this.manyLoaded := oneLoaded, manyLoaded;
      one, many := null, NilSlice;
    }

    ghost predicate Scanned() {
      id == IdOf(cells) && (entity.one.Some? ==> key == ForeignKey(entity, cells))
    }

    /** `view` is what a reader following the pointers of this node would see. */
    ghost predicate Mirrors(graph: set<Node>)
      requires this in graph
      reads graph
    {
      && Scanned()
      && view == Obj(entity, cells, oneLoaded, view.one, manyLoaded, view.many)
      && (if one == null then view.one.None? else one in graph && view.one == Some(one.view))
      && (if many.NilSlice? then view.many.Nil?
          else
            && view.many.List?
            && |view.many.nodes| == |many.nodes|
            && forall j :: 0 <= j < |many.nodes| ==>
                 many.nodes[j] in graph && view.many.nodes[j] == many.nodes[j].view)
    }
  }

  /** A closed object graph in which every node's view is up to date. */
  ghost predicate Consistent(graph: set<Node>)
    reads graph
  {
    forall n | n in graph :: n.Mirrors(graph)
  }

  ghost predicate KeysAre(nodes: seq<Node>, keys: seq<Option<Uuid>>) {
    && |keys| == |nodes|
    && forall i | 0 <= i < |nodes| :: keys[i] == nodes[i].key
  }

  ghost predicate IdsAre(nodes: seq<Node>, ids: seq<Uuid>) {
    |ids| == |nodes| && forall i | 0 <= i < |nodes| :: ids[i] == nodes[i].id
  }

  ghost predicate Injective(nodes: seq<Node>) {
    forall i, j | 0 <= i < j < |nodes| :: nodes[i] != nodes[j]
  }

  /** `level` is the set of the nodes of one query. */
  ghost predicate LevelIs(nodes: seq<Node>, level: set<Node>) {
    Injective(nodes) && (forall n | n in nodes :: n in level) && (forall n | n in level :: n in nodes)
  }

  ghost predicate CellsAre(nodes: seq<Node>, cells: seq<Row>) {
    |nodes| == |cells| && forall i | 0 <= i < |nodes| :: nodes[i].cells == cells[i]
  }

  // ---------------------------------------------------------------------
  // Facts about Select and LastIndex over prefixes
  // ---------------------------------------------------------------------

  lemma {:induction false} SelectMembers<T>(keys: seq<Option<Uuid>>, xs: seq<T>, k: Uuid)
    requires |keys| == |xs|
    ensures forall x :: x in Select(keys, xs, k) <==>
                          exists i :: 0 <= i < |keys| && keys[i] == Some(k) && xs[i] == x
    decreases |keys|
  {
    if keys != [] {
      var n := |keys| - 1;
      SelectMembers(keys[..n], xs[..n], k);
      forall x | exists i :: 0 <= i < n && keys[i] == Some(k) && xs[i] == x
        ensures x in Select(keys[..n], xs[..n], k)
      {
        var i :| 0 <= i < n && keys[i] == Some(k) && xs[i] == x;
        assert keys[..n][i] == Some(k) && xs[..n][i] == x;
      }
    }
  }

  /** `Select` picks the same positions from any two lists of one length. */
  lemma {:induction false} SelectParallel<A, B>(keys: seq<Option<Uuid>>, xs: seq<A>, ys: seq<B>, k: Uuid)
    requires |keys| == |xs| == |ys|
    ensures |Select(keys, xs, k)| == |Select(keys, ys, k)|
    ensures forall a :: 0 <= a < |Select(keys, xs, k)| ==>
              exists i :: 0 <= i < |keys| && xs[i] == Select(keys, xs, k)[a] && ys[i] == Select(keys, ys, k)[a]
    decreases |keys|
  {
    if keys != [] {
      var n := |keys| - 1;
      SelectParallel(keys[..n], xs[..n], ys[..n], k);
      var sx, sy := Select(keys[..n], xs[..n], k), Select(keys[..n], ys[..n], k);
      forall a | 0 <= a < |Select(keys, xs, k)|
        ensures exists i :: 0 <= i < |keys| && xs[i] == Select(keys, xs, k)[a] && ys[i] == Select(keys, ys, k)[a]
      {
        if a < |sx| {
          var i :| 0 <= i < n && xs[..n][i] == sx[a] && ys[..n][i] == sy[a];
          assert xs[i] == Select(keys, xs, k)[a] && ys[i] == Select(keys, ys, k)[a];
        } else {
          assert xs[n] == Select(keys, xs, k)[a] && ys[n] == Select(keys, ys, k)[a];
        }
      }
    }
  }

  lemma LastIndexFinds(ids: seq<Uuid>, k: Uuid)
    ensures LastIndex(ids, k) >= 0 <==> k in ids
  {
    if k in ids {
      var i :| 0 <= i < |ids| && ids[i] == k;
      assert i <= LastIndex(ids, k);
    }
  }

  // ---------------------------------------------------------------------
  // Many-to-one
  // ---------------------------------------------------------------------

  /** The first `j` nodes grouped by foreign key. */
  ghost function GroupOf(nodes: seq<Node>, keys: seq<Option<Uuid>>, j: nat): map<Uuid, seq<Node>>
    requires j <= |keys| == |nodes|
  {
    if j == 0 then map[]
    else
      var init, key := GroupOf(nodes, keys, j - 1), keys[j - 1];
      if key.None? then init
      else init[key.value := (if key.value in init then init[key.value] else []) + [nodes[j - 1]]]
  }

  lemma {:induction false} GroupIsSelect(nodes: seq<Node>, keys: seq<Option<Uuid>>, j: nat, k: Uuid)
    requires j <= |keys| == |nodes|
    ensures k in GroupOf(nodes, keys, j) <==> k in FirstKeys(keys[..j])
    ensures Select(keys[..j], nodes[..j], k) ==
            if k in GroupOf(nodes, keys, j) then GroupOf(nodes, keys, j)[k] else []
  {
    if j > 0 {
      assert keys[..j][..j - 1] == keys[..j - 1] && nodes[..j][..j - 1] == nodes[..j - 1];
      GroupIsSelect(nodes, keys, j - 1, k);
    }
  }

  /** Keys are listed in order of first occurrence: a node more adds at most its own key, at the end. */
  lemma KeysInOrder(keys: seq<Option<Uuid>>, key: Option<Uuid>)
    ensures FirstKeys(keys + [key]) ==
            FirstKeys(keys) + if key.Some? && key !in keys then [key.value] else []
  {
    assert (keys + [key])[..|keys|] == keys;
  }

  /**
    The first loop of `loadDomain` and its kind: nodes are grouped by foreign key,
    each key is listed once in order of first occurrence, and nodes whose nullable
    key is nil are skipped.
   */
  method GroupByKey(nodes: seq<Node>, ghost keys: seq<Option<Uuid>>)
    returns (ids: seq<Uuid>, nodeids: map<Uuid, seq<Node>>)
    requires KeysAre(nodes, keys)
    ensures ids == FirstKeys(keys)
    ensures nodeids == GroupOf(nodes, keys, |nodes|)
  {
    ids, nodeids := [], map[];
    for i := 0 to |nodes|
      invariant ids == FirstKeys(keys[..i])
      invariant nodeids == GroupOf(nodes, keys, i)
    {
      assert keys[..i + 1][..i] == keys[..i];
      if nodes[i].key.None? {
        continue;
      }
      var fk := nodes[i].key.value;
      GroupIsSelect(nodes, keys, i, fk);
      if fk !in nodeids {
        ids := ids + [fk];
        nodeids := nodeids[fk := []];
      }
      nodeids := nodeids[fk := nodeids[fk] + [nodes[i]]];
    }
    assert keys[..|nodes|] == keys;
  }

  /** The error of the second loop from neighbour `j` on: the first neighbour that no node asked for. */
  ghost function UnexpectedFrom(asked: seq<Uuid>, nids: seq<Uuid>, j: nat): Option<Error>
    requires j <= |nids|
    decreases |nids| - j
  {
    if j == |nids| then None
    else if nids[j] !in asked then Some(UnexpectedForeignKey(nids[j]))
    else UnexpectedFrom(asked, nids, j + 1)
  }

  lemma {:induction false} NothingUnexpected(asked: seq<Uuid>, nids: seq<Uuid>, j: nat)
    requires j <= |nids| && forall id :: id in nids ==> id in asked
    ensures UnexpectedFrom(asked, nids, j) == None
    decreases |nids| - j
  {
    if j < |nids| {
      assert nids[j] in nids;
      NothingUnexpected(asked, nids, j + 1);
    }
  }

  /** The error names the first neighbour that nobody asked for. */
  lemma {:induction false} FirstUnexpected(asked: seq<Uuid>, nids: seq<Uuid>, j: nat, k: nat)
    requires j <= k < |nids| && nids[k] !in asked && forall i | j <= i < k :: nids[i] in asked
    ensures UnexpectedFrom(asked, nids, j) == Some(UnexpectedForeignKey(nids[k]))
    decreases k - j
  {
    if j < k {
      FirstUnexpected(asked, nids, j + 1, k);
    }
  }

  /** The neighbour a node with key `key` points to once the first `j` neighbours have been assigned. */
  ghost function Target(key: Option<Uuid>, nids: seq<Uuid>, ns: seq<Node>, j: nat): Node?
    requires j <= |nids| == |ns|
  {
    if j == 0 then null
    else if key == Some(nids[j - 1]) then ns[j - 1]
    else Target(key, nids, ns, j - 1)
  }

  lemma {:induction false} TargetIsLast(key: Option<Uuid>, nids: seq<Uuid>, ns: seq<Node>, j: nat)
    requires j <= |nids| == |ns|
    ensures var at := if key.None? then -1 else LastIndex(nids[..j], key.value);
            Target(key, nids, ns, j) == if at < 0 then null else ns[at]
  {
    if j > 0 {
      assert nids[..j][..j - 1] == nids[..j - 1];
      TargetIsLast(key, nids, ns, j - 1);
    }
  }

  lemma TargetSteps(keys: seq<Option<Uuid>>, nids: seq<Uuid>, ns: seq<Node>)
    requires |nids| == |ns|
    ensures forall i | 0 <= i < |keys| :: Target(keys[i], nids, ns, 0) == null
    ensures forall i, j | 0 <= i < |keys| && 0 <= j < |ns| ::
              Target(keys[i], nids, ns, j + 1) ==
              if keys[i] == Some(nids[j]) then ns[j] else Target(keys[i], nids, ns, j)
  {
  }

  lemma UnexpectedStep(asked: seq<Uuid>, nids: seq<Uuid>, j: nat)
    requires j <= |nids|
    ensures UnexpectedFrom(asked, nids, j) ==
            if j == |nids| then None
            else if nids[j] !in asked then Some(UnexpectedForeignKey(nids[j]))
            else UnexpectedFrom(asked, nids, j + 1)
  {
  }

  /** The second loop: every neighbour is assigned to all nodes of its group. */
  method AssignOne(ghost nodes: seq<Node>, ghost level: set<Node>, ghost keys: seq<Option<Uuid>>,
                   nodeids: map<Uuid, seq<Node>>, neighbors: seq<Node>, ghost nids: seq<Uuid>)
    returns (err: Option<Error>)
    requires |keys| == |nodes| && LevelIs(nodes, level)
    requires nodeids == GroupOf(nodes, keys, |nodes|) && IdsAre(neighbors, nids)
    requires forall n :: n in level ==> n.one == null
    modifies level`one
    ensures err == UnexpectedFrom(FirstKeys(keys), nids, 0)
    ensures err.None? ==>
              forall i :: 0 <= i < |nodes| ==> nodes[i].one == Target(keys[i], nids, neighbors, |neighbors|)
  {
    hide Select, GroupOf, FirstKeys, Target, UnexpectedFrom;
    TargetSteps(keys, nids, neighbors);
    for j := 0 to |neighbors|
      invariant UnexpectedFrom(FirstKeys(keys), nids, 0) == UnexpectedFrom(FirstKeys(keys), nids, j)
      invariant forall i :: 0 <= i < |nodes| ==> nodes[i].one == Target(keys[i], nids, neighbors, j)
    {
      var n := neighbors[j];
      UnexpectedStep(FirstKeys(keys), nids, j);
      GroupIsSelect(nodes, keys, |nodes|, n.id);
      assert keys[..|nodes|] == keys && nodes[..|nodes|] == nodes;
      if n.id !in nodeids {
        return Some(UnexpectedForeignKey(n.id));
      }
      AssignGroup(nodes, level, keys, nodeids[n.id], n, n.id);
    }
    UnexpectedStep(FirstKeys(keys), nids, |nids|);
    err := None;
  }

  method AssignGroup(ghost nodes: seq<Node>, ghost level: set<Node>, ghost keys: seq<Option<Uuid>>, group: seq<Node>,
                     n: Node, ghost k: Uuid)
    requires |keys| == |nodes| && LevelIs(nodes, level) && group == Select(keys, nodes, k)
    modifies level`one
    ensures forall i :: 0 <= i < |nodes| ==> nodes[i].one == if keys[i] == Some(k) then n else old(nodes[i].one)
  {
    SelectMembers(keys, nodes, k);
    for a := 0 to |group|
      invariant forall b :: 0 <= b < a ==> group[b].one == n
      invariant forall i :: 0 <= i < |nodes| ==>
                  nodes[i].one == old(nodes[i].one) || (keys[i] == Some(k) && nodes[i].one == n)
    {
      assert group[a] in group;
      ghost var i :| 0 <= i < |nodes| && keys[i] == Some(k) && nodes[i] == group[a];
      group[a].one := n;
    }
    forall i | 0 <= i < |nodes| && keys[i] == Some(k)
      ensures nodes[i].one == n
    {
      assert nodes[i] in group;
    }
  }

  // ---------------------------------------------------------------------
  // One-to-many
  // ---------------------------------------------------------------------

  /** The first `j` nodes indexed by id; of several nodes with one id the last is kept. */
  ghost function IndexOf(nodes: seq<Node>, ids: seq<Uuid>, j: nat): map<Uuid, Node>
    requires j <= |ids| == |nodes|
  {
    if j == 0 then map[] else IndexOf(nodes, ids, j - 1)[ids[j - 1] := nodes[j - 1]]
  }

  lemma {:induction false} IndexIsLast(nodes: seq<Node>, ids: seq<Uuid>, j: nat, k: Uuid)
    requires j <= |ids| == |nodes|
    ensures k in IndexOf(nodes, ids, j) <==> LastIndex(ids[..j], k) >= 0
    ensures k in IndexOf(nodes, ids, j) ==> IndexOf(nodes, ids, j)[k] == nodes[LastIndex(ids[..j], k)]
  {
    if j > 0 {
      assert ids[..j][..j - 1] == ids[..j - 1];
      IndexIsLast(nodes, ids, j - 1, k);
    }
  }

  /** The first loop of `loadVersions` and its kind: nodes are indexed by id, and their slices become empty. */
  method IndexById(nodes: seq<Node>, ghost ids: seq<Uuid>, ghost level: set<Node>)
    returns (fks: seq<Uuid>, nodeids: map<Uuid, Node>)
    requires IdsAre(nodes, ids) && LevelIs(nodes, level)
    modifies level`many
    ensures fks == ids && nodeids == IndexOf(nodes, ids, |nodes|)
    ensures forall n :: n in level ==> n.many == Slice([])
  {
    fks, nodeids := [], map[];
    for i := 0 to |nodes|
      invariant fks == ids[..i] && nodeids == IndexOf(nodes, ids, i)
      invariant forall l :: 0 <= l < i ==> nodes[l].many == Slice([])
    {
      fks := fks + [nodes[i].id];
      nodeids := nodeids[nodes[i].id := nodes[i]];
      nodes[i].many := Slice([]);
    }
    assert ids[..|nodes|] == ids;
  }

  /** The list of the node indexed under `id` once the first `j` neighbours have been appended. */
  ghost function Appended(id: Uuid, nkeys: seq<Option<Uuid>>, ns: seq<Node>, j: nat): seq<Node>
    requires j <= |nkeys| == |ns|
  {
    if j == 0 then []
    else Appended(id, nkeys, ns, j - 1) + if nkeys[j - 1] == Some(id) then [ns[j - 1]] else []
  }

  lemma {:induction false} AppendedIsSelect(id: Uuid, nkeys: seq<Option<Uuid>>, ns: seq<Node>, j: nat)
    requires j <= |nkeys| == |ns|
    ensures Appended(id, nkeys, ns, j) == Select(nkeys[..j], ns[..j], id)
  {
    if j > 0 {
      assert nkeys[..j][..j - 1] == nkeys[..j - 1] && ns[..j][..j - 1] == ns[..j - 1];
      AppendedIsSelect(id, nkeys, ns, j - 1);
    }
  }

  /** The error of the second loop from neighbour `j` on: a neighbour without a key, or with one that no node has. */
  ghost function MisplacedFrom(ids: seq<Uuid>, nkeys: seq<Option<Uuid>>, nids: seq<Uuid>, j: nat): Option<Error>
    requires j <= |nkeys| == |nids|
    decreases |nkeys| - j
  {
    if j == |nkeys| then None
    else if nkeys[j].None? then Some(NilForeignKey(nids[j]))
    else if nkeys[j].value !in ids then Some(UnexpectedForeignKey(nkeys[j].value))
    else MisplacedFrom(ids, nkeys, nids, j + 1)
  }

  lemma {:induction false} NothingMisplaced(ids: seq<Uuid>, nkeys: seq<Option<Uuid>>, nids: seq<Uuid>, j: nat)
    requires j <= |nkeys| == |nids| && forall key :: key in nkeys ==> key.Some? && key.value in ids
    ensures MisplacedFrom(ids, nkeys, nids, j) == None
    decreases |nkeys| - j
  {
    if j < |nkeys| {
      assert nkeys[j] in nkeys;
      NothingMisplaced(ids, nkeys, nids, j + 1);
    }
  }

  /** The error is about the first neighbour without a key, by its id, or with a key that no node has, by the key. */
  lemma {:induction false} FirstMisplaced(ids: seq<Uuid>, nkeys: seq<Option<Uuid>>, nids: seq<Uuid>, j: nat, k: nat)
    requires j <= k < |nkeys| == |nids| && (nkeys[k].None? || nkeys[k].value !in ids)
    requires forall i | j <= i < k :: nkeys[i].Some? && nkeys[i].value in ids
    ensures MisplacedFrom(ids, nkeys, nids, j) ==
            Some(if nkeys[k].Some? then UnexpectedForeignKey(nkeys[k].value) else NilForeignKey(nids[k]))
    decreases k - j
  {
    if j < k {
      FirstMisplaced(ids, nkeys, nids, j + 1, k);
    }
  }

  /** The second loop: every neighbour is appended to the node its foreign key names. */
  method AssignMany(ghost level: set<Node>, nodeids: map<Uuid, Node>, neighbors: seq<Node>,
                    ghost ids: seq<Uuid>, ghost nkeys: seq<Option<Uuid>>, ghost nids: seq<Uuid>)
    returns (err: Option<Error>)
    requires KeysAre(neighbors, nkeys) && IdsAre(neighbors, nids)
    requires forall k | k in nodeids :: nodeids[k] in level && nodeids[k].id == k
    requires forall k :: k in nodeids <==> k in ids
    requires forall n | n in level :: n.many == Slice([])
    modifies level`many
    ensures err == MisplacedFrom(ids, nkeys, nids, 0)
    ensures err.None? ==> forall k | k in nodeids ::
                            nodeids[k].many == Slice(Appended(k, nkeys, neighbors, |neighbors|))
    ensures err.None? ==> forall n | n in level && n !in nodeids.Values :: n.many == Slice([])
  {
    for j := 0 to |neighbors|
      invariant MisplacedFrom(ids, nkeys, nids, 0) == MisplacedFrom(ids, nkeys, nids, j)
      invariant forall k | k in nodeids :: nodeids[k].many == Slice(Appended(k, nkeys, neighbors, j))
      invariant forall n | n in level && n !in nodeids.Values :: n.many == Slice([])
    {
      var n := neighbors[j];
      if n.key.None? {
        return Some(NilForeignKey(n.id));
      }
      var fk := n.key.value;
      if fk !in nodeids {
        return Some(UnexpectedForeignKey(fk));
      }
      var node := nodeids[fk];
      assert node in nodeids.Values;
      node.many := Slice(node.many.nodes + [n]);
    }
    err := None;
  }

  /** Which list each node ends up with: only the last of several nodes with one id is indexed. */
  lemma IndexedLists(nodes: seq<Node>, level: set<Node>, ids: seq<Uuid>, i: nat)
    requires i < |ids| == |nodes| && LevelIs(nodes, level) && IdsAre(nodes, ids)
    ensures var m := IndexOf(nodes, ids, |nodes|);
            && ids[i] in m
            && (i == LastIndex(ids, ids[i]) <==> m[ids[i]] == nodes[i])
            && (i != LastIndex(ids, ids[i]) ==> nodes[i] !in m.Values)
  {
    var m := IndexOf(nodes, ids, |nodes|);
    assert ids[..|nodes|] == ids;
    IndexIsLast(nodes, ids, |nodes|, ids[i]);
    LastIndexFinds(ids, ids[i]);
    if i != LastIndex(ids, ids[i]) {
      forall k | k in m
        ensures m[k] != nodes[i]
      {
        IndexIsLast(nodes, ids, |nodes|, k);
      }
    }
  }

  lemma IndexHolds(nodes: seq<Node>, level: set<Node>, ids: seq<Uuid>)
    requires |ids| == |nodes| && LevelIs(nodes, level) && IdsAre(nodes, ids)
    ensures var m := IndexOf(nodes, ids, |nodes|);
            && (forall k :: k in m <==> k in ids)
            && (forall k | k in m :: m[k] in level && m[k].id == k)
  {
    var m := IndexOf(nodes, ids, |nodes|);
    assert ids[..|nodes|] == ids;
    forall k
      ensures k in m <==> k in ids
      ensures k in m ==> m[k] in level && m[k].id == k
    {
      IndexIsLast(nodes, ids, |nodes|, k);
      LastIndexFinds(ids, k);
    }
  }
}
