/**
  Upserts through the save chains. While an insert is issued, the mutations of all
  builders hold what is being inserted; so the resolver of `UpdateNewValues`, which
  runs then, finds every id and creation time that the insert writes.
 */
module Identity {
  import opened Sql
  import opened Certificates
  import opened Chain
  import opened Upsert

  /** The resolver finds what the insert writes. */
  predicate SeesItsBatch(e: Event) {
    e.Inserted? && e.batch == Specs(e.seen)
  }

  lemma BulkSeesItsBatch(ms: seq<Member>, insert: Insert)
    requires NoNil(ms)
    ensures forall e | e in Inserts(RunBulk(ms, insert).events) :: SeesItsBatch(e)
  {
    if ms != [] {
      InsertsExactlyOnce(ms, insert);
    }
  }

  lemma SingleSeesItsBatch(m: Member, insert: Insert)
    requires Initialized(m.hooks)
    ensures forall e | e in Inserts(RunSingle(m.hooks, 0, FirstHand(m), insert).events) :: SeesItsBatch(e)
  {
    var _ := SingleIsNested(m, 0, FirstHand(m), insert);
  }

  /** What a conflict with `row` leaves, when the insert of `e` runs these options. */
  function AfterInsert(e: Event, options: seq<ConflictOption>, row: StoredRow, proposed: StoredRow): StoredRow
    requires e.Inserted?
  {
    Resolved(options, e.seen, e.seen, row, proposed)
  }

  /**
    Whatever the hooks of a bulk create do, and whichever generated upsert calls were
    made on it, a row that its insert meets keeps its id and creation time.
   */
  lemma BulkUpsertKeepsIdentity(
    ms: seq<Member>, insert: Insert, targets: seq<ConflictOption>, calls: seq<Call>, row: StoredRow,
    proposed: StoredRow)
    requires NoNil(ms) && OnlyTargets(targets) && AllGenerated(calls)
    ensures forall e | e in Inserts(RunBulk(ms, insert).events) ::
              && SeesItsBatch(e)
              && (var after := AfterInsert(e, targets + OptionsOfAll(calls), row, proposed);
                  after(ID) == row(ID) && after(CreatedAt) == row(CreatedAt))
  {
    BulkSeesItsBatch(ms, insert);
    forall e | e in Inserts(RunBulk(ms, insert).events)
      ensures var after := AfterInsert(e, targets + OptionsOfAll(calls), row, proposed);
              after(ID) == row(ID) && after(CreatedAt) == row(CreatedAt)
    {
      UpsertKeepsIdentity(targets, calls, e.seen, e.seen, row, proposed);
    }
  }

  lemma SingleUpsertKeepsIdentity(
    m: Member, insert: Insert, targets: seq<ConflictOption>, calls: seq<Call>, row: StoredRow, proposed: StoredRow)
    requires Initialized(m.hooks) && OnlyTargets(targets) && AllGenerated(calls)
    ensures forall e | e in Inserts(RunSingle(m.hooks, 0, FirstHand(m), insert).events) ::
              && SeesItsBatch(e)
              && (var after := AfterInsert(e, targets + OptionsOfAll(calls), row, proposed);
                  after(ID) == row(ID) && after(CreatedAt) == row(CreatedAt))
  {
    SingleSeesItsBatch(m, insert);
    forall e | e in Inserts(RunSingle(m.hooks, 0, FirstHand(m), insert).events)
      ensures var after := AfterInsert(e, targets + OptionsOfAll(calls), row, proposed);
              after(ID) == row(ID) && after(CreatedAt) == row(CreatedAt)
    {
      UpsertKeepsIdentity(targets, calls, e.seen, e.seen, row, proposed);
    }
  }

  // ---------------------------------------------------------------------
  // What defaults and check contribute
  // ---------------------------------------------------------------------

  /** Hooks that edit the mutation they are given; a mutation has no way to unset its id. */
  ghost predicate EditsInPlace(hooks: seq<Hook>) {
    && Initialized(hooks)
    && (forall k, d | 0 <= k < |hooks| :: !hooks[k].handOn(d).Replacement?)
    && (forall k, d: Draft | 0 <= k < |hooks| && d.id.Some? :: hooks[k].edit(d).id.Some?)
  }

  lemma {:induction false} InPlaceKeepsId(hooks: seq<Hook>, h: nat, hand: Hand)
    requires EditsInPlace(hooks) && h <= |hooks| && hand.given.id.Some?
    ensures Reaches(hooks, h, hand).Some? ==> Reaches(hooks, h, hand).value.given.id.Some?
    decreases |hooks| - h
  {
    if h < |hooks| && !hooks[h].handOn(hand.given).Refuse? {
      InPlaceKeepsId(hooks, h + 1, HandedOn(hooks[h], hand));
    }
  }

  /** With such hooks `defaults` gave every inserted draft an id, and `check` saw its creation time. */
  lemma HandedHasIdentity(m: Member)
    requires EditsInPlace(m.hooks) && m.draft.id.Some? && Passes(m)
    ensures Handed(m).id.Some? && Handed(m).createdAt.Some?
  {
    InPlaceHooksKeepOwn(m.hooks, 0, FirstHand(m));
    InPlaceKeepsId(m.hooks, 0, FirstHand(m));
  }

  /** So the resolver pins both columns in every insert of a bulk whose members went through `defaults`. */
  lemma BulkPinsBoth(ms: seq<Member>, insert: Insert)
    requires NoNil(ms) && ms != []
    requires forall k | 0 <= k < |ms| :: EditsInPlace(ms[k].hooks) && ms[k].draft == Defaults(ms[k].draft, NIL_UUID)
    ensures forall e | e in Inserts(RunBulk(ms, insert).events) ::
              && e.Inserted? && SomeId(e.seen) && SomeCreatedAt(e.seen)
              && forall i | 0 <= i < |e.seen| :: e.seen[i].id.Some? && e.seen[i].createdAt.Some?
  {
    hide Passes, RunChain;
    InsertsExactlyOnce(ms, insert);
    if AllPass(ms, 0) {
      var batch := Batch(ms, 0);
      forall k | 0 <= k < |ms|
        ensures batch[k].id.Some? && batch[k].createdAt.Some?
      {
        assert Passes(ms[0 + k]);
        HandedHasIdentity(ms[k]);
      }
      assert batch[0].id.Some?;
    }
  }
}
