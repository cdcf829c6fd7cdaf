/**
  When a limit and an offset on a sub-query do what they say for each parent. The
  batch is cut as a whole, the nested-loop join cuts every parent's list; this is
  exactly when the two come to the same. Zero stands for no limit and no offset.
 */
module Limits {
  import opened Sql
  import opened Schema
  import opened Plan
  import opened Join
  import opened Projection
  import opened Terminal
  import opened Edges
  import opened Traversal

  function Take<T>(s: seq<T>, n: nat): seq<T> {
    if |s| <= n then s else s[..n]
  }

  function Drop<T>(s: seq<T>, n: nat): seq<T> {
    if |s| <= n then [] else s[n..]
  }

  predicate OneKey(keys: seq<Option<Uuid>>) {
    forall i | 0 <= i < |keys| :: keys[i] == keys[0]
  }

  // ---------------------------------------------------------------------
  // Cutting before and after the distribution
  // ---------------------------------------------------------------------

  lemma SelectSnoc<T>(keys: seq<Option<Uuid>>, xs: seq<T>, key: Option<Uuid>, x: T, k: Uuid)
    requires |keys| == |xs|
    ensures Select(keys + [key], xs + [x], k) == Select(keys, xs, k) + if key == Some(k) then [x] else []
  {
    assert (keys + [key])[..|keys|] == keys && (xs + [x])[..|xs|] == xs;
  }

  lemma {:induction false} SelectParts<T>(
    keys: seq<Option<Uuid>>, xs: seq<T>, moreKeys: seq<Option<Uuid>>, more: seq<T>, k: Uuid)
    requires |keys| == |xs| && |moreKeys| == |more|
    ensures Select(keys + moreKeys, xs + more, k) == Select(keys, xs, k) + Select(moreKeys, more, k)
    decreases |more|
  {
    hide Select;
    if more == [] {
      assert keys + moreKeys == keys && xs + more == xs;
      SelectNothing(moreKeys, more, k);
    } else {
      var m := |more| - 1;
      var initKeys, init := moreKeys[..m], more[..m];
      SelectParts(keys, xs, initKeys, init, k);
      SelectSnoc(initKeys, init, moreKeys[m], more[m], k);
      SelectSnoc(keys + initKeys, xs + init, moreKeys[m], more[m], k);
      assert moreKeys == initKeys + [moreKeys[m]] && more == init + [more[m]];
      assert keys + moreKeys == (keys + initKeys) + [moreKeys[m]] && xs + more == (xs + init) + [more[m]];
    }
  }

  lemma SelectConcat<T>(keys: seq<Option<Uuid>>, xs: seq<T>, n: nat, k: Uuid)
    requires n <= |keys| == |xs|
    ensures Select(keys, xs, k) == Select(keys[..n], xs[..n], k) + Select(keys[n..], xs[n..], k)
  {
    assert keys == keys[..n] + keys[n..] && xs == xs[..n] + xs[n..];
    SelectParts(keys[..n], xs[..n], keys[n..], xs[n..], k);
  }

  lemma {:induction false} SelectEverything<T>(keys: seq<Option<Uuid>>, xs: seq<T>, k: Uuid)
    requires |keys| == |xs|
    ensures |Select(keys, xs, k)| == |xs| <==> forall i | 0 <= i < |keys| :: keys[i] == Some(k)
    ensures |Select(keys, xs, k)| == |xs| ==> Select(keys, xs, k) == xs
    ensures Select(keys, xs, k) == [] <==> Some(k) !in keys
    decreases |keys|
  {
    if keys != [] {
      var n := |keys| - 1;
      SelectEverything(keys[..n], xs[..n], k);
      assert keys == keys[..n] + [keys[n]] && xs == xs[..n] + [xs[n]];
    }
  }

  /** With one key, or with none to cut, cutting and distributing commute. */
  lemma CutsOfOneKey<T>(keys: seq<Option<Uuid>>, xs: seq<T>, n: nat, k: Uuid)
    requires |keys| == |xs| && OneKey(keys)
    ensures Select(Take(keys, n), Take(xs, n), k) == Take(Select(keys, xs, k), n)
    ensures Select(Drop(keys, n), Drop(xs, n), k) == Drop(Select(keys, xs, k), n)
  {
    SelectEverything(keys, xs, k);
    SelectEverything(Take(keys, n), Take(xs, n), k);
    SelectEverything(Drop(keys, n), Drop(xs, n), k);
  }

  ghost predicate TakesCommute<T>(keys: seq<Option<Uuid>>, xs: seq<T>, n: nat)
    requires |keys| == |xs|
  {
    forall k | Some(k) in keys :: Select(Take(keys, n), Take(xs, n), k) == Take(Select(keys, xs, k), n)
  }

  ghost predicate DropsCommute<T>(keys: seq<Option<Uuid>>, xs: seq<T>, n: nat)
    requires |keys| == |xs|
  {
    forall k | Some(k) in keys :: Select(Drop(keys, n), Drop(xs, n), k) == Drop(Select(keys, xs, k), n)
  }

  /** If the batch is longer than the limit, its first part is one parent's, and the others get nothing. */
  lemma TakesOverrun<T>(keys: seq<Option<Uuid>>, xs: seq<T>, n: nat)
    requires |keys| == |xs| > n > 0 && forall i | 0 <= i < |keys| :: keys[i].Some?
    requires TakesCommute(keys, xs, n)
    ensures OneKey(keys)
  {
    hide Select;
    var k := keys[n].value;
    assert keys[n] in keys;
    SelectConcat(keys, xs, n, k);
    SelectEverything(keys[..n], xs[..n], k);
    SelectEverything(keys[n..], xs[n..], k);
    assert keys[n..][0] == Some(k);
    assert forall i | 0 <= i < n :: keys[..n][i] == Some(k);
    forall j | 0 <= j < |keys|
      ensures keys[j] == Some(k)
    {
      if keys[j] != Some(k) {
        NothingTaken(keys, xs, n, k, j);
        assert false;
      }
    }
  }

  lemma NothingTaken<T>(keys: seq<Option<Uuid>>, xs: seq<T>, n: nat, k: Uuid, j: nat)
    requires |keys| == |xs| > n > 0 && j < |keys| && keys[j].Some? && keys[j] != Some(k)
    requires forall i | 0 <= i < n :: keys[i] == Some(k)
    ensures !TakesCommute(keys, xs, n) && !DropsCommute(keys, xs, n)
  {
    var other := keys[j].value;
    assert keys[j] in keys;
    SelectConcat(keys, xs, n, other);
    SelectEverything(keys, xs, other);
    SelectEverything(keys[..n], xs[..n], other);
    assert Some(other) !in keys[..n];
  }

  lemma DropLeaves<T>(a: seq<T>, b: seq<T>, n: nat)
    requires |a| <= n && b != [] && b == Drop(a + b, n)
    ensures |a| == n
  {
  }

  lemma FullPrefix<T>(keys: seq<Option<Uuid>>, xs: seq<T>, n: nat, k: Uuid)
    requires n <= |keys| == |xs| && |Select(keys[..n], xs[..n], k)| == n
    ensures forall i | 0 <= i < n :: keys[i] == Some(k)
  {
    SelectEverything(keys[..n], xs[..n], k);
    assert forall i | 0 <= i < n :: keys[..n][i] == Some(k);
  }

  lemma DropsOverrun<T>(keys: seq<Option<Uuid>>, xs: seq<T>, n: nat)
    requires |keys| == |xs| > n > 0 && forall i | 0 <= i < |keys| :: keys[i].Some?
    requires DropsCommute(keys, xs, n)
    ensures OneKey(keys)
  {
    var last := |keys| - 1;
    var k := keys[last].value;
    DroppedFill(keys, xs, n, k);
    forall j | 0 <= j < |keys|
      ensures keys[j] == Some(k)
    {
      if keys[j] != Some(k) {
        NothingTaken(keys, xs, n, k, j);
        assert false;
      }
    }
  }

  /** If the last node is still there after the cut, all that was cut off was its parent's. */
  lemma DroppedFill<T>(keys: seq<Option<Uuid>>, xs: seq<T>, n: nat, k: Uuid)
    requires |keys| == |xs| > n > 0 && keys[|keys| - 1] == Some(k)
    requires DropsCommute(keys, xs, n)
    ensures forall i | 0 <= i < n :: keys[i] == Some(k)
  {
    hide Select;
    assert Some(k) in keys;
    SelectConcat(keys, xs, n, k);
    SelectEverything(keys[n..], xs[n..], k);
    assert keys[n..][|keys| - 1 - n] == Some(k);
    DropLeaves(Select(keys[..n], xs[..n], k), Select(keys[n..], xs[n..], k), n);
    FullPrefix(keys, xs, n, k);
  }

  lemma CommuteIff<T>(keys: seq<Option<Uuid>>, xs: seq<T>, n: nat)
    requires |keys| == |xs| && n > 0 && forall i | 0 <= i < |keys| :: keys[i].Some?
    ensures TakesCommute(keys, xs, n) <==> |xs| <= n || OneKey(keys)
    ensures DropsCommute(keys, xs, n) <==> |xs| <= n || OneKey(keys)
  {
    if OneKey(keys) {
      forall k
        ensures Select(Take(keys, n), Take(xs, n), k) == Take(Select(keys, xs, k), n)
        ensures Select(Drop(keys, n), Drop(xs, n), k) == Drop(Select(keys, xs, k), n)
      {
        CutsOfOneKey(keys, xs, n, k);
      }
    } else if |xs| > n {
      if TakesCommute(keys, xs, n) {
        TakesOverrun(keys, xs, n);
      }
      if DropsCommute(keys, xs, n) {
        DropsOverrun(keys, xs, n);
      }
    }
  }

  // ---------------------------------------------------------------------
  // Offset and limit together
  // ---------------------------------------------------------------------

  function Count(keys: seq<Option<Uuid>>, k: Uuid): (n: nat)
    ensures n <= |keys|
    decreases |keys|
  {
    if keys == [] then 0
    else Count(keys[..|keys| - 1], k) + if keys[|keys| - 1] == Some(k) then 1 else 0
  }

  lemma {:induction false} SelectCounts<T>(keys: seq<Option<Uuid>>, xs: seq<T>, k: Uuid)
    requires |keys| == |xs|
    ensures |Select(keys, xs, k)| == Count(keys, k)
    decreases |keys|
  {
    if keys != [] {
      SelectCounts(keys[..|keys| - 1], xs[..|keys| - 1], k);
    }
  }

  ghost predicate AllDifferent<T(!new)>(xs: seq<T>) {
    forall i, j | 0 <= i < j < |xs| :: xs[i] != xs[j]
  }

  lemma {:induction false} SelectDifferent<T(!new)>(keys: seq<Option<Uuid>>, xs: seq<T>, k: Uuid)
    requires |keys| == |xs| && AllDifferent(xs)
    ensures AllDifferent(Select(keys, xs, k)) && forall x | x in Select(keys, xs, k) :: x in xs
    decreases |keys|
  {
    if keys != [] {
      var n := |keys| - 1;
      SelectDifferent(keys[..n], xs[..n], k);
      var init := Select(keys[..n], xs[..n], k);
      forall i | 0 <= i < |init|
        ensures init[i] != xs[n]
      {
        assert init[i] in xs[..n];
      }
    }
  }

  /** Skip `o`, then keep `l`; a zero limit keeps everything. */
  function Cut<T>(s: seq<T>, o: nat, l: nat): (cut: seq<T>)
    ensures |cut| == var rest := if |s| <= o then 0 else |s| - o; if l == 0 || rest <= l then rest else l
  {
    var rest := if o == 0 then s else Drop(s, o);
    if l == 0 then rest else Take(rest, l)
  }

  /** For the key `k`, cutting and distributing commute. */
  predicate CommutesAt<T(==)>(keys: seq<Option<Uuid>>, xs: seq<T>, o: nat, l: nat, k: Uuid)
    requires |keys| == |xs|
  {
    Select(Cut(keys, o, l), Cut(xs, o, l), k) == Cut(Select(keys, xs, k), o, l)
  }

  /** Everything up to the end of the page has one key, and the other keys do not get past the offset. */
  ghost predicate OnePage(keys: seq<Option<Uuid>>, o: nat, l: nat) {
    && (forall i | 0 <= i < |keys| && i < o + l :: keys[i] == keys[0])
    && (forall k | keys != [] && keys[0] != Some(k) :: Count(keys, k) <= o)
  }

  /** Cutting the batch is as good as cutting every list. */
  ghost predicate FitsWindow(keys: seq<Option<Uuid>>, o: nat, l: nat) {
    if o == 0 && l == 0 then true
    else if o == 0 then |keys| <= l || OneKey(keys)
    else if l == 0 then |keys| <= o || OneKey(keys)
    else |keys| <= o || OnePage(keys, o, l)
  }

  /** The first node of a page is the first of its parent's page only if the offset skipped that parent's nodes. */
  lemma FirstOfPage<T(!new)>(a: seq<T>, b: seq<T>, o: nat, l: nat)
    requires |a| <= o && l > 0 && b != [] && AllDifferent(b)
    requires o < |a + b| ==> (a + b)[o] == b[0]
    requires o < |a + b|
    ensures |a| == o
  {
    assert (a + b)[o] == b[o - |a|];
  }

  lemma SplitWindow<T>(keys: seq<Option<Uuid>>, xs: seq<T>, o: nat, l: nat, k: Uuid)
    requires |keys| == |xs| > o && l > 0
    ensures Cut(keys, o, l) == Take(keys[o..], l) && Cut(xs, o, l) == Take(xs[o..], l)
    ensures Select(Take(keys[o..], l), Take(xs[o..], l), k) <= Select(keys[o..], xs[o..], k)
  {
    var n := |Take(keys[o..], l)|;
    assert o == 0 ==> keys[o..] == keys && xs[o..] == xs;
    assert Take(keys[o..], l) == keys[o..][..n] && Take(xs[o..], l) == xs[o..][..n];
    SelectConcat(keys[o..], xs[o..], n, k);
  }

  lemma SelectHead<T>(keys: seq<Option<Uuid>>, xs: seq<T>, k: Uuid)
    requires |keys| == |xs| > 0 && keys[0] == Some(k)
    ensures Select(keys, xs, k) != [] && Select(keys, xs, k)[0] == xs[0]
  {
    SelectConcat(keys, xs, 1, k);
    assert keys[..1] == [Some(k)] && xs[..1] == [xs[0]];
    SelectEverything(keys[..1], xs[..1], k);
  }

  /** If pages commute, the skipped part belongs to the parent of the first node on the page. */
  lemma PageSkipsOneParent<T(!new)>(keys: seq<Option<Uuid>>, xs: seq<T>, o: nat, l: nat)
    requires |keys| == |xs| > o > 0 && l > 0 && AllDifferent(xs) && keys[o].Some?
    requires CommutesAt(keys, xs, o, l, keys[o].value)
    ensures forall i | 0 <= i <= o :: keys[i] == keys[o]
  {
    hide Select;
    var k := keys[o].value;
    SelectConcat(keys, xs, o, k);
    SplitWindow(keys, xs, o, l, k);
    SelectHead(Take(keys[o..], l), Take(xs[o..], l), k);
    SelectEverything(keys[..o], xs[..o], k);
    SelectDifferent(keys[o..], xs[o..], k);
    FirstOfPage(Select(keys[..o], xs[..o], k), Select(keys[o..], xs[o..], k), o, l);
    FullPrefix(keys, xs, o, k);
  }

  lemma PageStartsAt<T>(all: seq<T>, o: nat, l: nat)
    requires o < |all| && o > 0 && l > 0
    ensures Cut(all, o, l) != [] && Cut(all, o, l)[0] == all[o]
  {
  }

  lemma PrefixIsNoLaterPage<T(!new)>(all: seq<T>, page: seq<T>, o: nat, l: nat)
    requires o > 0 && l > 0 && AllDifferent(all) && page <= all && page == Cut(all, o, l)
    ensures page == [] && |all| <= o
  {
    if o < |all| {
      PageStartsAt(all, o, l);
      assert false;
    }
  }

  /** Nor does any other parent have a node on the page, or more than the offset in all. */
  lemma PageOfOthersIsEmpty<T(!new)>(keys: seq<Option<Uuid>>, xs: seq<T>, o: nat, l: nat, k: Uuid)
    requires |keys| == |xs| > o > 0 && l > 0 && AllDifferent(xs)
    requires forall i | 0 <= i < o :: keys[i] != Some(k)
    requires CommutesAt(keys, xs, o, l, k)
    ensures Some(k) !in Cut(keys, o, l) && Count(keys, k) <= o
  {
    hide Select;
    SelectConcat(keys, xs, o, k);
    SplitWindow(keys, xs, o, l, k);
    assert Some(k) !in keys[..o];
    SelectEverything(keys[..o], xs[..o], k);
    SelectDifferent(keys[o..], xs[o..], k);
    SelectEverything(Cut(keys, o, l), Cut(xs, o, l), k);
    SelectCounts(keys, xs, k);
    var all, page := Select(keys[o..], xs[o..], k), Select(Cut(keys, o, l), Cut(xs, o, l), k);
    assert Select(keys, xs, k) == all;
    PrefixIsNoLaterPage(all, page, o, l);
  }

  lemma PagesOverrun<T(!new)>(keys: seq<Option<Uuid>>, xs: seq<T>, o: nat, l: nat)
    requires |keys| == |xs| > o > 0 && l > 0 && AllDifferent(xs) && forall i | 0 <= i < |keys| :: keys[i].Some?
    requires forall k | Some(k) in keys :: CommutesAt(keys, xs, o, l, k)
    ensures OnePage(keys, o, l)
  {
    hide CommutesAt, Select;
    assert keys[o] in keys;
    PageSkipsOneParent(keys, xs, o, l);
    forall k | keys[0] != Some(k)
      ensures Some(k) !in Cut(keys, o, l) && Count(keys, k) <= o
    {
      if Some(k) in keys {
        PageOfOthersIsEmpty(keys, xs, o, l, k);
      } else {
        SelectNothing(keys, xs, k);
        SelectCounts(keys, xs, k);
        assert forall i | 0 <= i < |Cut(keys, o, l)| :: Cut(keys, o, l)[i] == keys[o + i];
      }
    }
    forall i | 0 <= i < |keys| && i < o + l
      ensures keys[i] == keys[0]
    {
      if i >= o {
        assert Cut(keys, o, l)[i - o] == keys[i];
        var k := keys[i].value;
        assert keys[i] == Some(k) && Some(k) in Cut(keys, o, l);
      }
    }
  }

  lemma PagesCommute<T>(keys: seq<Option<Uuid>>, xs: seq<T>, o: nat, l: nat, k: Uuid)
    requires |keys| == |xs| && o > 0 && l > 0 && (|keys| <= o || OnePage(keys, o, l))
    ensures CommutesAt(keys, xs, o, l, k)
  {
    hide Select;
    var page, pageKeys := Cut(xs, o, l), Cut(keys, o, l);
    SelectCounts(keys, xs, k);
    SelectEverything(pageKeys, page, k);
    if |keys| > o {
      forall i | 0 <= i < |pageKeys|
        ensures pageKeys[i] == keys[0]
      {
        assert pageKeys[i] == keys[o + i];
      }
      if keys[0] == Some(k) {
        var n := if |keys| <= o + l then |keys| else o + l;
        SelectConcat(keys, xs, n, k);
        SelectEverything(keys[..n], xs[..n], k);
        SelectEverything(keys[n..], xs[n..], k);
        assert forall i | 0 <= i < n :: keys[..n][i] == Some(k);
        PageOfPrefix(xs, n, Select(keys[n..], xs[n..], k), o, l);
      }
    }
  }

  lemma PageOfPrefix<T>(xs: seq<T>, n: nat, more: seq<T>, o: nat, l: nat)
    requires o < |xs| && o > 0 && l > 0 && n == if |xs| <= o + l then |xs| else o + l
    requires |xs| <= o + l ==> more == []
    ensures Cut(xs[..n] + more, o, l) == Cut(xs, o, l)
  {
  }

  /** When cutting the batch comes to the same as cutting every list. */
  lemma AllCommuteIff<T(!new)>(keys: seq<Option<Uuid>>, xs: seq<T>, o: nat, l: nat)
    requires |keys| == |xs| && AllDifferent(xs) && forall i | 0 <= i < |keys| :: keys[i].Some?
    ensures (forall k | Some(k) in keys :: CommutesAt(keys, xs, o, l, k)) <==> FitsWindow(keys, o, l)
  {
    hide Select, OneKey, OnePage;
    if o > 0 && l > 0 {
      if FitsWindow(keys, o, l) {
        forall k ensures CommutesAt(keys, xs, o, l, k) {
          PagesCommute(keys, xs, o, l, k);
        }
      } else if forall k | Some(k) in keys :: CommutesAt(keys, xs, o, l, k) {
        PagesOverrun(keys, xs, o, l);
        assert false;
      }
    } else if o > 0 || l > 0 {
      OneSidedCommuteIff(keys, xs, o, l);
    }
  }

  lemma OneSidedCommuteIff<T>(keys: seq<Option<Uuid>>, xs: seq<T>, o: nat, l: nat)
    requires |keys| == |xs| && (o == 0) != (l == 0) && forall i | 0 <= i < |keys| :: keys[i].Some?
    ensures (forall k | Some(k) in keys :: CommutesAt(keys, xs, o, l, k)) <==> |keys| <= o + l || OneKey(keys)
  {
    hide Select, OneKey;
    CommuteIff(keys, xs, o + l);
    if forall k | Some(k) in keys :: CommutesAt(keys, xs, o, l, k) {
      forall k | Some(k) in keys
        ensures l == 0 ==> Select(Drop(keys, o), Drop(xs, o), k) == Drop(Select(keys, xs, k), o)
        ensures o == 0 ==> Select(Take(keys, l), Take(xs, l), k) == Take(Select(keys, xs, k), l)
      {
        assert CommutesAt(keys, xs, o, l, k);
      }
    }
  }

  // ---------------------------------------------------------------------
  // The one-to-many edge
  // ---------------------------------------------------------------------

  /** The offset and the limit that reach the database. */
  function OffsetOf(p: Plan): nat {
    if p.sel.offset.Some? then p.sel.offset.value else 0
  }

  function LimitOf(p: Plan): nat {
    if p.sel.limit.Some? then p.sel.limit.value else 0
  }

  /** The same query without offset and limit. */
  function Uncut(p: Plan): (q: Plan)
    ensures WellFormed(q) == WellFormed(p) && Depth(q) == Depth(p)
    ensures Unlimited(q.sel)
  {
    p.(sel := p.sel.(offset := None, limit := None))
  }

  lemma WindowIsCut(rows: seq<Row>, o: nat, l: nat)
    ensures Window(NonZero(o), NonZero(l), rows) == Cut(rows, o, l)
  {
  }

  lemma NodesAreCut(spec: QuerySpec, from: seq<Row>)
    ensures QueryNodes(spec, from) ==
            Cut(QueryNodes(spec.(offset := 0, limit := 0), from), spec.offset, spec.limit)
  {
    hide Window, Cut;
    var all := Selector(spec.columns, spec.unique, spec.preds, spec.order, None, None);
    var cut := Selector(spec.columns, spec.unique, spec.preds, spec.order, NonZero(spec.offset), NonZero(spec.limit));
    assert Unwindowed(cut, from) == Unwindowed(all, from);
    WindowIsCut(Unwindowed(all, from), spec.offset, spec.limit);
    WindowIsCut(Unwindowed(all, from), 0, 0);
    CutNothing(Unwindowed(all, from));
  }

  lemma CutNothing<T>(s: seq<T>)
    ensures Cut(s, 0, 0) == s
  {
  }

  lemma RowsAreCut(c: Plan, db: Db)
    requires WellFormed(c)
    ensures RawRows(c, db) == Cut(RawRows(Uncut(c), db), OffsetOf(c), LimitOf(c))
  {
    hide QueryNodes, Cut;
    var spec := SpecOf(c.sel, c.one.Some?);
    assert SpecOf(Uncut(c).sel, c.one.Some?) == spec.(offset := 0, limit := 0);
    NodesAreCut(spec, From(c.sel, db));
  }

  lemma NaiveIgnoresWindow(c: Plan, rows: seq<Row>, db: Db)
    requires WellFormed(c)
    ensures NaiveRows(Uncut(c), rows, db) == NaiveRows(c, rows, db)
  {
    var columns, q := SpecColumns(c.sel, c.one.Some?), Uncut(c);
    forall i | 0 <= i < |rows|
      ensures NaiveObj(q, Project(columns, rows[i]), db) == NaiveObj(c, Project(columns, rows[i]), db)
    {
    }
  }

  lemma NaiveIsCut(c: Plan, db: Db)
    requires WellFormed(c)
    ensures Naive(c, db) == Cut(Naive(Uncut(c), db), OffsetOf(c), LimitOf(c))
  {
    var rows := RawRows(Uncut(c), db);
    RowsAreCut(c, db);
    NaiveIgnoresWindow(c, rows, db);
    NaiveRowsCut(c, rows, OffsetOf(c), LimitOf(c), db);
  }

  lemma NaiveRowsCut(c: Plan, rows: seq<Row>, o: nat, l: nat, db: Db)
    requires WellFormed(c)
    ensures NaiveRows(c, Cut(rows, o, l), db) == Cut(NaiveRows(c, rows, db), o, l)
  {
    hide NaiveObj;
  }

  /** All nodes that the one-to-many sub-query would load without its offset and limit. */
  function AllChildren(p: Plan, db: Db): seq<Obj>
    requires WellFormed(p) && p.many.Some?
  {
    Naive(Uncut(ManyChild(p, Cells(p, db))), db)
  }

  lemma ListAlone(p: Plan, db: Db, i: nat)
    requires WellFormed(p) && ValidDb(db) && p.many.Some? && i < |Cells(p, db)|
    ensures var m, id := p.many.value, IdOf(Cells(p, db)[i]);
            var all := AllChildren(p, db);
            && NaiveMany(p, Cells(p, db)[i], db) == Naive(Alone(m, id), db)
            && Naive(Uncut(Alone(m, id)), db) == Select(ObjKeys(m.sel.entity, all), all, id)
  {
    var m, cells := p.many.value, Cells(p, db);
    var q := p.(one := None, many := Some(Uncut(m)));
    assert ManyChild(q, cells) == Uncut(ManyChild(p, cells));
    ManyAgrees(q, cells, i, db);
    var pred := ColumnIn(m.sel.entity.one.value.column, [IdOf(cells[i])]);
    assert AddPred(SelectKey(q.many.value), pred) == Uncut(Alone(m, IdOf(cells[i])));
  }

  /** The nodes that querying for the children of node `i` alone finds: all its children, cut. */
  lemma ListAloneIsCut(p: Plan, db: Db, i: nat)
    requires WellFormed(p) && ValidDb(db) && p.many.Some? && i < |Cells(p, db)|
    ensures var m, all := p.many.value, AllChildren(p, db);
            NaiveMany(p, Cells(p, db)[i], db) ==
            Cut(Select(ObjKeys(m.sel.entity, all), all, IdOf(Cells(p, db)[i])), OffsetOf(m), LimitOf(m))
  {
    hide Naive, NaiveMany, Select, Cells, ValidDb;
    ListAlone(p, db, i);
    NaiveIsCut(Alone(p.many.value, IdOf(Cells(p, db)[i])), db);
  }

  lemma KeysOfCut(e: Entity, objs: seq<Obj>, o: nat, l: nat)
    requires e.one.Some?
    ensures ObjKeys(e, Cut(objs, o, l)) == Cut(ObjKeys(e, objs), o, l)
  {
  }

  lemma KeysAreParents(p: Plan, db: Db)
    requires WellFormed(p) && ValidDb(db) && p.many.Some?
    ensures forall key :: key in ObjKeys(p.many.value.sel.entity, AllChildren(p, db)) ==>
              key.Some? && key.value in IdsOf(Cells(p, db))
  {
    var ids, c, all := IdsOf(Cells(p, db)), Uncut(p.many.value), AllChildren(p, db);
    var column := c.sel.entity.one.value.column;
    var child := AddPred(SelectKey(c), ColumnIn(column, ids));
    assert child == Uncut(ManyChild(p, Cells(p, db)));
    SelectKeyHoldsKey(c, c.one.Some?);
    LoadedKeysWereAsked(SelectKey(c), column, ids, db);
    forall a | 0 <= a < |all|
      ensures Holds(ColumnIn(column, ids), all[a].cells)
    {
      assert all[a].cells == Cells(child, db)[a] && Cells(child, db)[a] in Cells(child, db);
    }
    HeldKeys(c.sel.entity, ids, all);
  }

  lemma ChildrenAreDifferent(p: Plan, db: Db)
    requires WellFormed(p) && ValidDb(db) && p.many.Some?
    ensures AllDifferent(ObjIds(AllChildren(p, db)))
  {
    var child := Uncut(ManyChild(p, Cells(p, db)));
    TableQueryDistinct(child, db);
    ObjIdsOfNaive(child, RawRows(child, db), db);
  }

  lemma CutsOfNothing<T>(keys: seq<Option<Uuid>>, xs: seq<T>, o: nat, l: nat, k: Uuid)
    requires |keys| == |xs|
    ensures Some(k) !in keys ==> CommutesAt(keys, xs, o, l, k)
  {
    SelectEverything(keys, xs, k);
    SelectEverything(Cut(keys, o, l), Cut(xs, o, l), k);
  }

  /** The nodes have the same cells; what hangs on them may differ. */
  predicate SameCells(a: seq<Obj>, b: seq<Obj>) {
    |a| == |b| && forall i | 0 <= i < |a| :: a[i].cells == b[i].cells
  }

  lemma {:induction false} SelectIds(keys: seq<Option<Uuid>>, objs: seq<Obj>, k: Uuid)
    requires |keys| == |objs|
    ensures ObjIds(Select(keys, objs, k)) == Select(keys, ObjIds(objs), k)
    decreases |keys|
  {
    if keys != [] {
      var n := |keys| - 1;
      SelectIds(keys[..n], objs[..n], k);
      assert ObjIds(objs)[..n] == ObjIds(objs[..n]);
    }
  }

  lemma CutIds(objs: seq<Obj>, o: nat, l: nat)
    ensures ObjIds(Cut(objs, o, l)) == Cut(ObjIds(objs), o, l)
  {
  }

  /** The lists of all keys together determine what was distributed. */
  lemma {:induction false} ListsDetermine<T>(keys: seq<Option<Uuid>>, xs: seq<T>, ys: seq<T>)
    requires |keys| == |xs| == |ys| && forall i | 0 <= i < |keys| :: keys[i].Some?
    requires forall k | Some(k) in keys :: Select(keys, xs, k) == Select(keys, ys, k)
    ensures xs == ys
    decreases |keys|
  {
    if keys != [] {
      var n := |keys| - 1;
      assert keys[n] in keys;
      forall k | Some(k) in keys[..n]
        ensures Select(keys[..n], xs[..n], k) == Select(keys[..n], ys[..n], k)
      {
        assert Some(k) in keys;
        var a, b := Select(keys[..n], xs[..n], k), Select(keys[..n], ys[..n], k);
        if keys[n] == Some(k) {
          assert a + [xs[n]] == b + [ys[n]];
          assert (a + [xs[n]])[..|a + [xs[n]]| - 1] == a && (b + [ys[n]])[..|b + [ys[n]]| - 1] == b;
        }
      }
      ListsDetermine(keys[..n], xs[..n], ys[..n]);
      LastSelected(keys, xs);
      LastSelected(keys, ys);
      assert xs == xs[..n] + [xs[n]] && ys == ys[..n] + [ys[n]];
    }
  }

  lemma LastSelected<T>(keys: seq<Option<Uuid>>, xs: seq<T>)
    requires |keys| == |xs| > 0 && keys[|keys| - 1].Some?
    ensures var s := Select(keys, xs, keys[|keys| - 1].value); s != [] && s[|s| - 1] == xs[|xs| - 1]
  {
  }

  lemma DifferentIds(objs: seq<Obj>)
    requires AllDifferent(ObjIds(objs))
    ensures AllDifferent(objs)
  {
    forall i, j | 0 <= i < j < |objs|
      ensures objs[i] != objs[j]
    {
      assert ObjIds(objs)[i] != ObjIds(objs)[j];
    }
  }

  /** Every parent gets the cut of all its children exactly if cutting commutes and the batch is all, cut. */
  lemma DistributedIff(
    keys: seq<Option<Uuid>>, all: seq<Obj>, batch: seq<Obj>, ids: seq<Uuid>, o: nat, l: nat)
    requires |keys| == |all| && forall key | key in keys :: key.Some? && key.value in ids
    requires AllDifferent(ObjIds(all)) && SameCells(batch, Cut(all, o, l))
    ensures (forall k | k in ids :: Select(Cut(keys, o, l), batch, k) == Cut(Select(keys, all, k), o, l)) <==>
            FitsWindow(keys, o, l) && batch == Cut(all, o, l)
  {
    hide Select, Cut, FitsWindow, AllDifferent;
    assert forall i | 0 <= i < |keys| :: keys[i] in keys;
    DifferentIds(all);
    AllCommuteIff(keys, all, o, l);
    if forall k | k in ids :: Select(Cut(keys, o, l), batch, k) == Cut(Select(keys, all, k), o, l) {
      DistributedIds(keys, all, batch, ids, o, l);
      AllCommuteIff(keys, ObjIds(all), o, l);
      assert FitsWindow(keys, o, l);
      CutKeys(keys, o, l);
      forall k | Some(k) in Cut(keys, o, l)
        ensures Select(Cut(keys, o, l), batch, k) == Select(Cut(keys, o, l), Cut(all, o, l), k)
      {
        assert CommutesAt(keys, all, o, l, k);
      }
      ListsDetermine(Cut(keys, o, l), batch, Cut(all, o, l));
    } else if FitsWindow(keys, o, l) && batch == Cut(all, o, l) {
      var k :| k in ids && Select(Cut(keys, o, l), batch, k) != Cut(Select(keys, all, k), o, l);
      CutsOfNothing(keys, all, o, l, k);
      assert false;
    }
  }

  lemma CutKeys(keys: seq<Option<Uuid>>, o: nat, l: nat)
    requires forall i | 0 <= i < |keys| :: keys[i].Some?
    ensures forall i | 0 <= i < |Cut(keys, o, l)| :: Cut(keys, o, l)[i].Some?
    ensures forall key | key in Cut(keys, o, l) :: key in keys
  {
  }

  /** What the parents get tells their children's ids, whatever hangs on the children. */
  lemma DistributedIds(
    keys: seq<Option<Uuid>>, all: seq<Obj>, batch: seq<Obj>, ids: seq<Uuid>, o: nat, l: nat)
    requires |keys| == |all| && forall key | key in keys :: key.Some? && key.value in ids
    requires SameCells(batch, Cut(all, o, l))
    requires forall k | k in ids :: Select(Cut(keys, o, l), batch, k) == Cut(Select(keys, all, k), o, l)
    ensures forall k | Some(k) in keys :: CommutesAt(keys, ObjIds(all), o, l, k)
  {
    hide Select, Cut;
    assert ObjIds(batch) == ObjIds(Cut(all, o, l));
    forall k | Some(k) in keys
      ensures CommutesAt(keys, ObjIds(all), o, l, k)
    {
      SelectIds(Cut(keys, o, l), batch, k);
      SelectIds(keys, all, k);
      CutIds(all, o, l);
      CutIds(Select(keys, all, k), o, l);
    }
  }

  /**
    One-to-many, for a batch with the right nodes and anything hanging on them: every
    node is given what querying for it alone finds exactly if the window commutes with
    the distribution and the batch is the reference's.
   */
  lemma ManyBatchIff(p: Plan, batch: seq<Obj>, db: Db)
    requires WellFormed(p) && ValidDb(db) && p.many.Some?
    requires SameCells(batch, Naive(ManyChild(p, Cells(p, db)), db))
    ensures var m, cells := p.many.value, Cells(p, db);
            (forall i | 0 <= i < |cells| ::
               Select(ObjKeys(m.sel.entity, batch), batch, IdOf(cells[i])) == NaiveMany(p, cells[i], db)) <==>
            && FitsWindow(ObjKeys(m.sel.entity, AllChildren(p, db)), OffsetOf(m), LimitOf(m))
            && batch == Naive(ManyChild(p, cells), db)
  {
    hide Naive, NaiveMany, Select, Cells, ValidDb, AllChildren, Cut, FitsWindow, AllDifferent;
    var m, cells, all := p.many.value, Cells(p, db), AllChildren(p, db);
    var keys, o, l := ObjKeys(m.sel.entity, all), OffsetOf(m), LimitOf(m);
    ManyBatchIsCut(p, db);
    KeysAreParents(p, db);
    ChildrenAreDifferent(p, db);
    DistributedIff(keys, all, batch, IdsOf(cells), o, l);
    BatchKeys(m.sel.entity, all, batch, o, l);
    forall i | 0 <= i < |cells|
      ensures NaiveMany(p, cells[i], db) == Cut(Select(keys, all, IdsOf(cells)[i]), o, l)
    {
      ListAloneIsCut(p, db, i);
    }
    if forall i | 0 <= i < |cells| ::
        Select(ObjKeys(m.sel.entity, batch), batch, IdOf(cells[i])) == NaiveMany(p, cells[i], db) {
      forall k | k in IdsOf(cells)
        ensures Select(Cut(keys, o, l), batch, k) == Cut(Select(keys, all, k), o, l)
      {
        var i :| 0 <= i < |cells| && IdsOf(cells)[i] == k;
        assert IdOf(cells[i]) == k;
      }
    }
  }

  lemma ManyBatchIsCut(p: Plan, db: Db)
    requires WellFormed(p) && p.many.Some?
    ensures var m := p.many.value;
            Naive(ManyChild(p, Cells(p, db)), db) == Cut(AllChildren(p, db), OffsetOf(m), LimitOf(m))
  {
    hide Naive, Cut;
    NaiveIsCut(ManyChild(p, Cells(p, db)), db);
  }

  lemma BatchKeys(e: Entity, all: seq<Obj>, batch: seq<Obj>, o: nat, l: nat)
    requires e.one.Some? && SameCells(batch, Cut(all, o, l))
    ensures ObjKeys(e, batch) == Cut(ObjKeys(e, all), o, l)
  {
    KeysOfCut(e, all, o, l);
    assert ObjKeys(e, batch) == ObjKeys(e, Cut(all, o, l));
  }

  // ---------------------------------------------------------------------
  // The many-to-one edge
  // ---------------------------------------------------------------------

  /** All neighbours that the many-to-one sub-query would load without its offset and limit. */
  function AllTargets(p: Plan, db: Db): seq<Obj>
    requires WellFormed(p) && p.one.Some?
  {
    if OneKeys(p, Cells(p, db)) == [] then [] else Naive(Uncut(OneChild(p, Cells(p, db))), db)
  }

  /** Asking for one key alone finds what the uncut batch has for it, cut once more. */
  lemma FoundAlone(p: Plan, db: Db, i: nat, k: Uuid)
    requires WellFormed(p) && ValidDb(db) && p.one.Some?
    requires i < |Cells(p, db)| && ForeignKey(p.sel.entity, Cells(p, db)[i]) == Some(k)
    ensures OneKeys(p, Cells(p, db)) != []
    ensures var c, all := p.one.value, AllTargets(p, db);
            var at := LastIndex(ObjIds(all), k);
            Naive(AddPred(c, ColumnIn("id", [k])), db) ==
            Cut(if at < 0 then [] else [all[at]], OffsetOf(c), LimitOf(c))
  {
    hide Naive, ValidDb, LastIndex, Cells;
    var c, cells, pred := p.one.value, Cells(p, db), ColumnIn("id", [k]);
    assert KeysOf(p.sel.entity, cells)[i].value in OneKeys(p, cells);
    var q := p.(one := Some(Uncut(c)), many := None);
    assert OneChild(q, cells) == Uncut(OneChild(p, cells));
    OneAgrees(q, cells, i, db);
    assert AddPred(q.one.value, pred) == Uncut(AddPred(c, pred));
    NaiveIsCut(AddPred(c, pred), db);
  }

  lemma NeighbourAlone(p: Plan, db: Db, i: nat)
    requires WellFormed(p) && ValidDb(db) && p.one.Some? && i < |Cells(p, db)|
    ensures NaiveOne(p, Cells(p, db)[i], db) ==
            if OffsetOf(p.one.value) > 0 then None
            else AttachOne(p.sel.entity, Cells(p, db), i, AllTargets(p, db))
  {
    hide Naive, ValidDb, LastIndex, Cells, AllTargets;
    var key := ForeignKey(p.sel.entity, Cells(p, db)[i]);
    if key.Some? {
      FoundAlone(p, db, i, key.value);
    }
  }

  /** Every neighbour of the batch was asked for by some node, and none is there twice. */
  lemma TargetsWereAsked(p: Plan, db: Db, a: nat) returns (i: nat)
    requires WellFormed(p) && ValidDb(db) && p.one.Some? && a < |AllTargets(p, db)|
    ensures i < |Cells(p, db)|
    ensures ForeignKey(p.sel.entity, Cells(p, db)[i]) == Some(ObjIds(AllTargets(p, db))[a])
  {
    var cells, c := Cells(p, db), Uncut(p.one.value);
    var keys, all := OneKeys(p, cells), AllTargets(p, db);
    var child := AddPred(c, ColumnIn("id", keys));
    assert child == Uncut(OneChild(p, cells));
    SpecHoldsId(c.sel, c.one.Some?);
    LoadedKeysWereAsked(c, "id", keys, db);
    assert Cells(child, db)[a] in Cells(child, db) && all[a].cells == Cells(child, db)[a];
    assert Some(ObjIds(all)[a]) in KeysOf(p.sel.entity, cells);
    i :| 0 <= i < |cells| && KeysOf(p.sel.entity, cells)[i] == Some(ObjIds(all)[a]);
  }

  lemma TargetsAreDistinct(p: Plan, db: Db)
    requires WellFormed(p) && ValidDb(db) && p.one.Some?
    ensures AllDifferent(ObjIds(AllTargets(p, db)))
  {
    if OneKeys(p, Cells(p, db)) != [] {
      var child := Uncut(OneChild(p, Cells(p, db)));
      TableQueryDistinct(child, db);
      ObjIdsOfNaive(child, RawRows(child, db), db);
    }
  }

  /** The neighbour found depends on the ids of the batch only, apart from what hangs on it. */
  lemma AttachedById(e: Entity, cells: seq<Row>, i: nat, ones: seq<Obj>, a: nat)
    requires e.one.Some? && i < |cells| && a < |ones| && AllDifferent(ObjIds(ones))
    requires ForeignKey(e, cells[i]) == Some(ObjIds(ones)[a])
    ensures AttachOne(e, cells, i, ones) == Some(ones[a])
  {
    var ids := ObjIds(ones);
    assert ids[LastIndex(ids, ids[a])] == ids[a];
  }

  lemma NotAttached(e: Entity, cells: seq<Row>, i: nat, ones: seq<Obj>, k: Uuid)
    requires e.one.Some? && i < |cells| && ForeignKey(e, cells[i]) == Some(k) && k !in ObjIds(ones)
    ensures AttachOne(e, cells, i, ones) == None
  {
  }

  /** How many neighbours the batch may have for the window to be harmless. */
  predicate Harmless(n: nat, o: nat, l: nat) {
    if o > 0 then n <= o else l == 0 || n <= l
  }

  /** The first neighbour that a limit cuts off, or an offset leaves, shows the difference. */
  lemma CutShows(e: Entity, cells: seq<Row>, all: seq<Obj>, i: nat, o: nat, l: nat, batch: seq<Obj>)
    requires e.one.Some? && i < |cells| && !Harmless(|all|, o, l) && AllDifferent(ObjIds(all))
    requires SameCells(batch, Cut(all, o, l))
    requires ForeignKey(e, cells[i]) == Some(ObjIds(all)[if o > 0 then o else l])
    ensures AttachOne(e, cells, i, batch).Some? <==> o > 0
    ensures AttachOne(e, cells, i, all).Some?
  {
    hide AttachOne;
    var n := if o > 0 then o else l;
    var k := ObjIds(all)[n];
    assert forall a | 0 <= a < |batch| :: ObjIds(batch)[a] == ObjIds(all)[o + a];
    AttachedById(e, cells, i, all, n);
    if o == 0 {
      NotAttached(e, cells, i, batch, k);
    } else {
      AttachedById(e, cells, i, batch, 0);
    }
  }

  lemma HarmlessCut<T>(all: seq<T>, o: nat, l: nat)
    requires Harmless(|all|, o, l)
    ensures Cut(all, o, l) == if o > 0 then [] else all
  {
  }

  /** A neighbour with something else hanging on it shows the difference as well. */
  lemma OtherNeighbourShows(p: Plan, batch: seq<Obj>, db: Db)
    requires WellFormed(p) && ValidDb(db) && p.one.Some? && OffsetOf(p.one.value) == 0
    requires SameCells(batch, AllTargets(p, db))
    requires forall i | 0 <= i < |Cells(p, db)| ::
               AttachOne(p.sel.entity, Cells(p, db), i, batch) == NaiveOne(p, Cells(p, db)[i], db)
    ensures batch == AllTargets(p, db)
  {
    hide Naive, NaiveOne, Cells, ValidDb, AllTargets, AttachOne;
    var all, cells, e := AllTargets(p, db), Cells(p, db), p.sel.entity;
    TargetsAreDistinct(p, db);
    assert ObjIds(batch) == ObjIds(all);
    forall a | 0 <= a < |all|
      ensures batch[a] == all[a]
    {
      var i := TargetsWereAsked(p, db, a);
      NeighbourAlone(p, db, i);
      AttachedById(e, cells, i, all, a);
      AttachedById(e, cells, i, batch, a);
    }
  }

  /**
    Many-to-one, for a batch with the right nodes and anything hanging on them: every
    node is given what querying for its key alone finds exactly if a limit cuts nothing
    off the batch, or an offset leaves nothing of it, and the batch is the reference's.
   */
  lemma OneBatchIff(p: Plan, batch: seq<Obj>, db: Db)
    requires WellFormed(p) && ValidDb(db) && p.one.Some?
    requires SameCells(batch, Cut(AllTargets(p, db), OffsetOf(p.one.value), LimitOf(p.one.value)))
    ensures (forall i | 0 <= i < |Cells(p, db)| ::
               AttachOne(p.sel.entity, Cells(p, db), i, batch) == NaiveOne(p, Cells(p, db)[i], db)) <==>
            && Harmless(|AllTargets(p, db)|, OffsetOf(p.one.value), LimitOf(p.one.value))
            && batch == Cut(AllTargets(p, db), OffsetOf(p.one.value), LimitOf(p.one.value))
  {
    hide Naive, NaiveOne, Cells, ValidDb, AllTargets, Cut, AttachOne;
    var all, cells, e := AllTargets(p, db), Cells(p, db), p.sel.entity;
    var o, l := OffsetOf(p.one.value), LimitOf(p.one.value);
    if !Harmless(|all|, o, l) {
      var i := TargetsWereAsked(p, db, if o > 0 then o else l);
      TargetsAreDistinct(p, db);
      CutShows(e, cells, all, i, o, l, batch);
      NeighbourAlone(p, db, i);
    } else {
      HarmlessCut(all, o, l);
      forall i | 0 <= i < |cells|
        ensures NaiveOne(p, cells[i], db) == AttachOne(e, cells, i, Cut(all, o, l))
      {
        NeighbourAlone(p, db, i);
        NoneOfNothing(e, cells, i);
      }
      if o == 0 && forall i | 0 <= i < |cells| :: AttachOne(e, cells, i, batch) == NaiveOne(p, cells[i], db) {
        OtherNeighbourShows(p, batch, db);
      }
    }
  }

  lemma NoneOfNothing(e: Entity, cells: seq<Row>, i: nat)
    requires e.one.Some? && i < |cells|
    ensures AttachOne(e, cells, i, []) == None
  {
  }
}
