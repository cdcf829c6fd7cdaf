/**
  Upserts. The builders append conflict options; when the insert is issued the
  options are run in order over one update set, in which the last write to a
  column wins, and the set is applied to the row that was already there.
 */
module Upsert {
  import opened Sql
  import opened Certificates

  // ---------------------------------------------------------------------
  // The update set
  // ---------------------------------------------------------------------

  /** What an update set says of a column: a value, the proposed one, the column itself, NULL, or a sum. */
  datatype Assign = Value(cell: Cell) | Excluded | Itself | Null | Plus(n: int)

  type UpdateSet = map<Column, Assign>

  datatype Edit = Edit(column: Column, assign: Assign)

  /** `PinIdentity` is the resolver that `UpdateNewValues` appends after `NewValues`. */
  datatype ConflictOption =
    | Target(columns: seq<Column>)
    | NewValues
    | KeepOld
    | With(edits: seq<Edit>)
    | PinIdentity
    | Nothing

  /** The columns a request writes. */
  function SpecColumns(spec: CreateSpec): set<Column> {
    spec.fields.Keys + (if spec.id.Some? then {ID} else {}) + (set i | 0 <= i < |spec.edges| :: spec.edges[i].column)
  }

  /** The columns of the insert: those that some row of it writes. */
  function InsertColumns(drafts: seq<Draft>): set<Column> {
    if drafts == [] then {} else SpecColumns(SpecOf(drafts[0])) + InsertColumns(drafts[1..])
  }

  predicate SomeId(drafts: seq<Draft>) {
    exists i :: 0 <= i < |drafts| && drafts[i].id.Some?
  }

  predicate SomeCreatedAt(drafts: seq<Draft>) {
    exists i :: 0 <= i < |drafts| && drafts[i].createdAt.Some?
  }

  function ApplyEdits(edits: seq<Edit>, update: UpdateSet): UpdateSet {
    if edits == [] then update else ApplyEdits(edits[1..], update[edits[0].column := edits[0].assign])
  }

  /**
    One option run over the update set. `seen` are the mutations as the pinning
    resolver finds them, `columns` the columns of the insert.
   */
  function Step(option: ConflictOption, update: UpdateSet, seen: seq<Draft>, columns: set<Column>): UpdateSet {
    match option
    case Target(_) | Nothing => update
    case NewValues => update + map c | c in columns :: Excluded
    case KeepOld => update + map c | c in columns :: Itself
    case With(edits) => ApplyEdits(edits, update)
    case PinIdentity =>
      update + (if SomeId(seen) then map[ID := Itself] else map[])
      + (if SomeCreatedAt(seen) then map[CreatedAt := Itself] else map[])
  }

  function Resolve(options: seq<ConflictOption>, update: UpdateSet, seen: seq<Draft>, columns: set<Column>): UpdateSet {
    if options == [] then update else Resolve(options[1..], Step(options[0], update, seen, columns), seen, columns)
  }

  type StoredRow = Column -> Cell

  function Sum(cell: Cell, n: int): Cell {
    Number(n + if cell.Number? then cell.number else 0)
  }

  function Updated(row: StoredRow, proposed: StoredRow, update: UpdateSet, c: Column): Cell {
    if c !in update then row(c)
    else
      match update[c]
      case Value(cell) => cell
      case Excluded => proposed(c)
      case Itself => row(c)
      case Null => SqlNull
      case Plus(n) => Sum(row(c), n)
  }

  predicate HasNothing(options: seq<ConflictOption>) {
    exists i :: 0 <= i < |options| && options[i].Nothing?
  }

  /** The row after the conflict. */
  function Resolved(
    options: seq<ConflictOption>, seen: seq<Draft>, inserted: seq<Draft>, row: StoredRow,
    proposed: StoredRow): StoredRow
  {
    if HasNothing(options) then row
    else
      var update := Resolve(options, map[], seen, InsertColumns(inserted));
      c => Updated(row, proposed, update, c)
  }

  // ---------------------------------------------------------------------
  // The builder
  // ---------------------------------------------------------------------

  /** A call of a generated method; the setters never name the id or `created_at`. */
  datatype Call = UpdateNewValues | Ignore | DoNothing | Update(edits: seq<Edit>)

  predicate Generated(call: Call) {
    call.Update? ==> forall i | 0 <= i < |call.edits| :: call.edits[i].column != ID && call.edits[i].column != CreatedAt
  }

  function OptionsOf(call: Call): seq<ConflictOption> {
    match call
    case UpdateNewValues => [NewValues, PinIdentity]
    case Ignore => [KeepOld]
    case DoNothing => [Nothing]
    case Update(edits) => [With(edits)]
  }

  function OptionsOfAll(calls: seq<Call>): seq<ConflictOption> {
    if calls == [] then [] else OptionsOfAll(calls[..|calls| - 1]) + OptionsOf(calls[|calls| - 1])
  }

  /** The upsert builder over one create, or over a bulk of them. */
  class Upserting {
    var conflict: seq<ConflictOption>

    /** The generated calls since the conflict target was given. */
    ghost var calls: seq<Call>
    ghost var given: seq<ConflictOption>

    ghost predicate Valid()
      reads this
    {
      conflict == given + OptionsOfAll(calls)
    }

    constructor ()
      ensures Valid() && conflict == [] && calls == [] && given == []
    {
      conflict, calls, given := [], [], [];
    }

    /** Raw options replace what was there. */
    method OnConflict(options: seq<ConflictOption>)
      modifies this
      ensures Valid() && conflict == options && calls == [] && given == options
    {
      conflict, calls, given := options, [], options;
    }

    /** A conflict target is appended. */
    method OnConflictColumns(columns: seq<Column>)
      requires Valid()
      modifies this
      ensures Valid() && conflict == old(conflict) + [Target(columns)] && calls == []
      ensures given == conflict
    {
      conflict := conflict + [Target(columns)];
      calls, given := [], conflict;
    }

    method Do(call: Call)
      requires Valid()
      modifies this
      ensures Valid() && calls == old(calls) + [call] && given == old(given)
    {
      assert OptionsOfAll(calls + [call]) == OptionsOfAll(calls) + OptionsOf(call) by {
        assert (calls + [call])[..|calls|] == calls;
      }
      match call {
        case UpdateNewValues =>
          conflict := conflict + [NewValues];
          conflict := conflict + [PinIdentity];
        case Ignore =>
          conflict := conflict + [KeepOld];
        case DoNothing =>
          conflict := conflict + [Nothing];
        case Update(edits) =>
          conflict := conflict + [With(edits)];
      }
      calls := calls + [call];
    }
  }

  /** The resolver of `UpdateNewValues`, over the mutations of all builders. */
  method RunPinIdentity(update: UpdateSet, seen: seq<Draft>) returns (r: UpdateSet)
    ensures r == Step(PinIdentity, update, seen, {})
  {
    r := update;
    for i := 0 to |seen|
      invariant r == Step(PinIdentity, update, seen[..i], {})
    {
      var before := seen[..i];
      assert seen[..i + 1] == before + [seen[i]];
      PinOneMore(update, before, seen[i]);
      if seen[i].id.Some? {
        r := r[ID := Itself];
      }
      if seen[i].createdAt.Some? {
        r := r[CreatedAt := Itself];
      }
    }
    assert seen[..|seen|] == seen;
  }

  lemma PinOneMore(update: UpdateSet, seen: seq<Draft>, d: Draft)
    ensures SomeId(seen + [d]) <==> SomeId(seen) || d.id.Some?
    ensures SomeCreatedAt(seen + [d]) <==> SomeCreatedAt(seen) || d.createdAt.Some?
  {
    assert (seen + [d])[|seen|] == d;
    assert forall i | 0 <= i < |seen| :: (seen + [d])[i] == seen[i];
  }

  // ---------------------------------------------------------------------
  // Laws
  // ---------------------------------------------------------------------

  lemma {:induction false} ResolveConcat(
    a: seq<ConflictOption>, b: seq<ConflictOption>, update: UpdateSet, seen: seq<Draft>, columns: set<Column>)
    ensures Resolve(a + b, update, seen, columns) == Resolve(b, Resolve(a, update, seen, columns), seen, columns)
  {
    if a == [] {
      assert a + b == b;
    } else {
      ResolveConcat(a[1..], b, Step(a[0], update, seen, columns), seen, columns);
      assert (a + b)[1..] == a[1..] + b;
    }
  }

  lemma ResolveFew(a: ConflictOption, b: ConflictOption, update: UpdateSet, seen: seq<Draft>, columns: set<Column>)
    ensures Resolve([a], update, seen, columns) == Step(a, update, seen, columns)
    ensures Resolve([a, b], update, seen, columns) == Step(b, Step(a, update, seen, columns), seen, columns)
  {
    hide Step;
    assert [a][1..] == [] && [b][1..] == [] && [a, b][1..] == [b];
    assert Resolve([b], Step(a, update, seen, columns), seen, columns) ==
           Step(b, Step(a, update, seen, columns), seen, columns);
  }

  /** The draft has a value for the column. */
  predicate DraftWrites(d: Draft, c: Column) {
    match c
    case ID => d.id.Some?
    case DomainID => d.domain.Some?
    case _ => DraftCell(d, c).Some?
  }

  predicate Writes(drafts: seq<Draft>, c: Column) {
    exists i :: 0 <= i < |drafts| && DraftWrites(drafts[i], c)
  }

  lemma SpecColumnsAreExact(d: Draft, c: Column)
    ensures c in SpecColumns(SpecOf(d)) <==> DraftWrites(d, c)
  {
    var spec := SpecOf(d);
    AllWritable(d, PLAIN_COLUMNS);
    assert c in spec.fields.Keys <==> DraftCell(d, c).Some?;
    if d.domain.Some? {
      assert spec.edges[0].column == DomainID;
    }
  }

  /** A column is in the insert exactly when some draft has a value for it. */
  lemma {:induction false} InsertColumnsAreExact(drafts: seq<Draft>, c: Column)
    ensures c in InsertColumns(drafts) <==> Writes(drafts, c)
  {
    if drafts != [] {
      hide SpecColumns, SpecOf, DraftWrites;
      InsertColumnsAreExact(drafts[1..], c);
      SpecColumnsAreExact(drafts[0], c);
      WritesStep(drafts, c);
    }
  }

  lemma WritesStep(drafts: seq<Draft>, c: Column)
    requires drafts != []
    ensures Writes(drafts, c) <==> DraftWrites(drafts[0], c) || Writes(drafts[1..], c)
  {
    hide DraftWrites;
    var rest := drafts[1..];
    assert forall i | 0 < i < |drafts| :: drafts[i] == rest[i - 1];
    assert forall i | 0 <= i < |rest| :: rest[i] == drafts[i + 1];
  }

  /** So the insert writes the id, or the creation time, exactly when some draft has it. */
  lemma IdentityColumns(drafts: seq<Draft>)
    ensures ID in InsertColumns(drafts) <==> SomeId(drafts)
    ensures CreatedAt in InsertColumns(drafts) <==> SomeCreatedAt(drafts)
  {
    hide InsertColumns;
    InsertColumnsAreExact(drafts, ID);
    InsertColumnsAreExact(drafts, CreatedAt);
    assert forall d: Draft :: DraftWrites(d, CreatedAt) <==> d.createdAt.Some?;
  }

  /** The resolver finds an id, and a creation time, whenever the insert writes one. */
  predicate Covers(seen: seq<Draft>, inserted: seq<Draft>) {
    (SomeId(inserted) ==> SomeId(seen)) && (SomeCreatedAt(inserted) ==> SomeCreatedAt(seen))
  }

  predicate KeepsIdentity(update: UpdateSet) {
    && (ID in update ==> update[ID] == Itself)
    && (CreatedAt in update ==> update[CreatedAt] == Itself)
  }

  predicate AllGenerated(calls: seq<Call>) {
    forall i | 0 <= i < |calls| :: Generated(calls[i])
  }

  lemma {:induction false} EditsKeepIdentity(edits: seq<Edit>, update: UpdateSet)
    requires KeepsIdentity(update) && Generated(Update(edits))
    ensures KeepsIdentity(ApplyEdits(edits, update))
  {
    if edits != [] {
      EditsKeepIdentity(edits[1..], update[edits[0].column := edits[0].assign]);
    }
  }

  lemma CallKeepsIdentity(call: Call, update: UpdateSet, seen: seq<Draft>, inserted: seq<Draft>)
    requires KeepsIdentity(update) && Generated(call) && Covers(seen, inserted)
    ensures KeepsIdentity(Resolve(OptionsOf(call), update, seen, InsertColumns(inserted)))
  {
    hide Resolve, InsertColumns, SomeId, SomeCreatedAt;
    IdentityColumns(inserted);
    ResolveFew(OptionsOf(call)[0], PinIdentity, update, seen, InsertColumns(inserted));
    if call.Update? {
      EditsKeepIdentity(call.edits, update);
    }
  }

  lemma {:induction false} CallsKeepIdentity(
    calls: seq<Call>, update: UpdateSet, seen: seq<Draft>, inserted: seq<Draft>)
    requires KeepsIdentity(update) && AllGenerated(calls) && Covers(seen, inserted)
    ensures KeepsIdentity(Resolve(OptionsOfAll(calls), update, seen, InsertColumns(inserted)))
  {
    if calls != [] {
      var before, last, columns := calls[..|calls| - 1], calls[|calls| - 1], InsertColumns(inserted);
      CallsKeepIdentity(before, update, seen, inserted);
      CallKeepsIdentity(last, Resolve(OptionsOfAll(before), update, seen, columns), seen, inserted);
      ResolveConcat(OptionsOfAll(before), OptionsOf(last), update, seen, columns);
    }
  }

  predicate OnlyTargets(options: seq<ConflictOption>) {
    forall i | 0 <= i < |options| :: options[i].Target?
  }

  lemma {:induction false} TargetsSetNothing(
    options: seq<ConflictOption>, update: UpdateSet, seen: seq<Draft>, columns: set<Column>)
    requires OnlyTargets(options)
    ensures Resolve(options, update, seen, columns) == update
  {
    if options != [] {
      TargetsSetNothing(options[1..], update, seen, columns);
    }
  }

  /**
    After any chain of generated calls, on one create or on a bulk, the row that was
    there keeps its id and its creation time.
   */
  lemma UpsertKeepsIdentity(
    targets: seq<ConflictOption>, calls: seq<Call>, seen: seq<Draft>, inserted: seq<Draft>, row: StoredRow,
    proposed: StoredRow)
    requires OnlyTargets(targets) && AllGenerated(calls) && Covers(seen, inserted)
    ensures var after := Resolved(targets + OptionsOfAll(calls), seen, inserted, row, proposed);
            after(ID) == row(ID) && after(CreatedAt) == row(CreatedAt)
  {
    var columns := InsertColumns(inserted);
    ResolveConcat(targets, OptionsOfAll(calls), map[], seen, columns);
    TargetsSetNothing(targets, map[], seen, columns);
    CallsKeepIdentity(calls, map[], seen, inserted);
  }

  ghost predicate NewValuesKeepIdentity(seen: seq<Draft>, inserted: seq<Draft>) {
    forall row: StoredRow, proposed: StoredRow ::
      var after := Resolved(OptionsOf(UpdateNewValues), seen, inserted, row, proposed);
      after(ID) == row(ID) && after(CreatedAt) == row(CreatedAt)
  }

  /** That the resolver runs late is what makes it so: it has to see what the insert writes. */
  lemma PinningIff(seen: seq<Draft>, inserted: seq<Draft>)
    ensures NewValuesKeepIdentity(seen, inserted) <==> Covers(seen, inserted)
  {
    hide Resolve, InsertColumns, SomeId, SomeCreatedAt;
    if Covers(seen, inserted) {
      CallKeepsIdentity(UpdateNewValues, map[], seen, inserted);
    } else {
      IdentityColumns(inserted);
      ResolveFew(NewValues, PinIdentity, map[], seen, InsertColumns(inserted));
      var row: StoredRow, proposed: StoredRow := (_ => SqlNull), (_ => Number(0));
      var after := Resolved(OptionsOf(UpdateNewValues), seen, inserted, row, proposed);
      assert after(ID) != row(ID) || after(CreatedAt) != row(CreatedAt);
    }
  }

  /** A resolver that looked before `defaults` had set the id would let the id be overwritten. */
  lemma EagerPinningFails(d: Draft, newID: Uuid)
    ensures NewValuesKeepIdentity([d], [Defaults(d, newID)]) <==> d.id.Some?
  {
    PinningIff([d], [Defaults(d, newID)]);
    assert [d][0] == d && [Defaults(d, newID)][0] == Defaults(d, newID);
  }

  /** The raw option has no pin: it replaces the id of the row whenever the insert writes one. */
  lemma RawNewValuesReplaceId(seen: seq<Draft>, inserted: seq<Draft>, row: StoredRow, proposed: StoredRow)
    ensures Resolved([NewValues], seen, inserted, row, proposed)(ID) ==
            if SomeId(inserted) then proposed(ID) else row(ID)
  {
    hide Resolve, InsertColumns, SomeId;
    IdentityColumns(inserted);
    ResolveFew(NewValues, PinIdentity, map[], seen, InsertColumns(inserted));
  }

  // ---------------------------------------------------------------------
  // What a chain means
  // ---------------------------------------------------------------------

  function LastEdit(edits: seq<Edit>, c: Column): Option<Assign> {
    if edits == [] then None
    else if edits[|edits| - 1].column == c then Some(edits[|edits| - 1].assign)
    else LastEdit(edits[..|edits| - 1], c)
  }

  function Says(call: Call, inserted: seq<Draft>, c: Column): Option<Assign> {
    match call
    case UpdateNewValues => if Writes(inserted, c) then Some(Excluded) else None
    case Ignore => if Writes(inserted, c) then Some(Itself) else None
    case DoNothing => None
    case Update(edits) => LastEdit(edits, c)
  }

  /** What the last call that mentions the column says of it. */
  function LastSays(calls: seq<Call>, inserted: seq<Draft>, c: Column): Option<Assign> {
    if calls == [] then None
    else
      var last := Says(calls[|calls| - 1], inserted, c);
      if last.Some? then last else LastSays(calls[..|calls| - 1], inserted, c)
  }

  function Lookup(update: UpdateSet, c: Column): Option<Assign> {
    if c in update then Some(update[c]) else None
  }

  function OrElse(a: Option<Assign>, b: Option<Assign>): Option<Assign> {
    if a.Some? then a else b
  }

  lemma {:induction false} EditsApplied(edits: seq<Edit>, update: UpdateSet, c: Column)
    ensures Lookup(ApplyEdits(edits, update), c) == OrElse(LastEdit(edits, c), Lookup(update, c))
  {
    if edits != [] {
      EditsApplied(edits[1..], update[edits[0].column := edits[0].assign], c);
      LastEditOfRest(edits, c);
    }
  }

  lemma {:induction false} LastEditOfRest(edits: seq<Edit>, c: Column)
    requires edits != []
    ensures LastEdit(edits, c) ==
            OrElse(LastEdit(edits[1..], c), if edits[0].column == c then Some(edits[0].assign) else None)
  {
    var n := |edits| - 1;
    if n > 0 && edits[n].column != c {
      LastEditOfRest(edits[..n], c);
      assert edits[..n][1..] == edits[1..][..n - 1];
    }
  }

  lemma CallApplied(call: Call, update: UpdateSet, seen: seq<Draft>, inserted: seq<Draft>, c: Column)
    requires c != ID && c != CreatedAt
    ensures Lookup(Resolve(OptionsOf(call), update, seen, InsertColumns(inserted)), c) ==
            OrElse(Says(call, inserted, c), Lookup(update, c))
  {
    hide Resolve, InsertColumns, Writes;
    InsertColumnsAreExact(inserted, c);
    ResolveFew(OptionsOf(call)[0], PinIdentity, update, seen, InsertColumns(inserted));
    if call.Update? {
      EditsApplied(call.edits, update, c);
    }
  }

  lemma {:induction false} CallsApplied(
    calls: seq<Call>, update: UpdateSet, seen: seq<Draft>, inserted: seq<Draft>, c: Column)
    requires c != ID && c != CreatedAt
    ensures Lookup(Resolve(OptionsOfAll(calls), update, seen, InsertColumns(inserted)), c) ==
            OrElse(LastSays(calls, inserted, c), Lookup(update, c))
  {
    if calls != [] {
      hide InsertColumns, Writes;
      var before, last, columns := calls[..|calls| - 1], calls[|calls| - 1], InsertColumns(inserted);
      CallsApplied(before, update, seen, inserted, c);
      CallApplied(last, Resolve(OptionsOfAll(before), update, seen, columns), seen, inserted, c);
      ResolveConcat(OptionsOfAll(before), OptionsOf(last), update, seen, columns);
    }
  }

  lemma HasNothingConcat(a: seq<ConflictOption>, b: seq<ConflictOption>)
    ensures HasNothing(a + b) <==> HasNothing(a) || HasNothing(b)
  {
    assert forall i | 0 <= i < |a| :: (a + b)[i] == a[i];
    assert forall i | 0 <= i < |b| :: (a + b)[|a| + i] == b[i];
  }

  lemma {:induction false} NothingIffCalled(calls: seq<Call>)
    ensures HasNothing(OptionsOfAll(calls)) <==> DoNothing in calls
  {
    if calls != [] {
      var before, last := calls[..|calls| - 1], calls[|calls| - 1];
      NothingIffCalled(before);
      assert calls == before + [last];
      HasNothingConcat(OptionsOfAll(before), OptionsOf(last));
      assert last == DoNothing ==> OptionsOf(last)[0].Nothing?;
    }
  }

  /** What a cell becomes. */
  function Meaning(a: Option<Assign>, before: Cell, proposed: Cell): Cell {
    match a
    case None => before
    case Some(Value(cell)) => cell
    case Some(Excluded) => proposed
    case Some(Itself) => before
    case Some(Null) => SqlNull
    case Some(Plus(n)) => Sum(before, n)
  }

  /**
    The whole row after a chain of generated calls: nothing changes if one of them
    is `DoNothing`; otherwise the id and the creation time stay, and any other
    column is what the last call that mentions it says.
   */
  lemma ChainMeaning(
    calls: seq<Call>, seen: seq<Draft>, inserted: seq<Draft>, row: StoredRow, proposed: StoredRow, c: Column)
    requires AllGenerated(calls) && Covers(seen, inserted)
    ensures Resolved(OptionsOfAll(calls), seen, inserted, row, proposed)(c) ==
            if DoNothing in calls || c == ID || c == CreatedAt then row(c)
            else Meaning(LastSays(calls, inserted, c), row(c), proposed(c))
  {
    NothingIffCalled(calls);
    if c == ID || c == CreatedAt {
      UpsertKeepsIdentity([], calls, seen, inserted, row, proposed);
      assert [] + OptionsOfAll(calls) == OptionsOfAll(calls);
    } else {
      CallsApplied(calls, map[], seen, inserted, c);
    }
  }

  /** `UpdateNewValues` takes over every value that some draft has, except the id and the creation time, and no more. */
  lemma NewValuesMeaning(
    seen: seq<Draft>, inserted: seq<Draft>, row: StoredRow, proposed: StoredRow, c: Column)
    requires Covers(seen, inserted)
    ensures Resolved(OptionsOf(UpdateNewValues), seen, inserted, row, proposed)(c) ==
            if c != ID && c != CreatedAt && Writes(inserted, c) then proposed(c) else row(c)
  {
    hide Resolved, Writes, Covers;
    var calls := [UpdateNewValues];
    assert calls[..0] == [] && OptionsOfAll([]) == [];
    assert OptionsOfAll(calls) == OptionsOf(UpdateNewValues);
    ChainMeaning(calls, seen, inserted, row, proposed, c);
    assert LastSays([], inserted, c) == None;
  }

  lemma LastCallSays(calls: seq<Call>, edits: seq<Edit>, inserted: seq<Draft>, c: Column)
    requires LastEdit(edits, c).Some?
    ensures LastSays(calls + [Update(edits)], inserted, c) == LastEdit(edits, c)
  {
  }

  /**
    A setter of the last call decides its column, whatever earlier calls said of it:
    the value, the proposed one, NULL, or the sum with the number that was there.
   */
  lemma LastEditDecides(
    calls: seq<Call>, edits: seq<Edit>, seen: seq<Draft>, inserted: seq<Draft>, row: StoredRow, proposed: StoredRow,
    c: Column)
    requires AllGenerated(calls + [Update(edits)]) && Covers(seen, inserted) && DoNothing !in calls
    requires LastEdit(edits, c).Some? && c != ID && c != CreatedAt
    ensures var a := LastEdit(edits, c).value;
            var after := Resolved(OptionsOfAll(calls + [Update(edits)]), seen, inserted, row, proposed)(c);
            && (a.Value? ==> after == a.cell)
            && (a.Excluded? ==> after == proposed(c))
            && (a.Itself? ==> after == row(c))
            && (a.Null? ==> after == SqlNull)
            && (a.Plus? && row(c).Number? ==> after == Number(row(c).number + a.n))
  {
    hide Resolved, Covers, LastSays, LastEdit, AllGenerated, OptionsOfAll;
    LastCallSays(calls, edits, inserted, c);
    ChainMeaning(calls + [Update(edits)], seen, inserted, row, proposed, c);
    assert DoNothing !in calls + [Update(edits)];
  }

  /** `Ignore` takes back what earlier calls said of the inserted columns, and of those only. */
  lemma IgnoreTakesBack(
    calls: seq<Call>, seen: seq<Draft>, inserted: seq<Draft>, row: StoredRow, proposed: StoredRow, c: Column)
    requires AllGenerated(calls) && Covers(seen, inserted)
    ensures Resolved(OptionsOfAll(calls + [Ignore]), seen, inserted, row, proposed)(c) ==
            if Writes(inserted, c) then row(c)
            else Resolved(OptionsOfAll(calls), seen, inserted, row, proposed)(c)
  {
    ChainMeaning(calls + [Ignore], seen, inserted, row, proposed, c);
    ChainMeaning(calls, seen, inserted, row, proposed, c);
    assert (calls + [Ignore])[..|calls|] == calls;
    assert DoNothing in calls + [Ignore] <==> DoNothing in calls;
  }
}
