/**
  The create builders: a single `Save` through `withHooks`, and the bulk `Save`
  whose closures call one another over shared slots. Both are proved against the
  chains of values in `Chain`.
 */
module Create {
  import opened Sql
  import opened Certificates
  import opened Chain

  class Mutation {
    var draft: Draft
    var done: bool

    constructor (draft: Draft)
      ensures this.draft == draft && !done
    {
      this.draft := draft;
      done := false;
    }
  }

  /** The database connection; `insert` is how it answers, and the log is what it and the hooks have seen. */
  class Driver {
    const insert: Insert
    ghost var log: seq<Event>

    constructor (insert: Insert)
      ensures this.insert == insert && log == []
    {
      this.insert := insert;
      log := [];
    }

    ghost method Record(e: Event)
      modifies `log
      ensures log == old(log) + [e]
    {
      log := log + [e];
    }

    /** `seen` is what a conflict resolver run by this insert finds in the builders' mutations. */
    method BatchCreate(specs: seq<CreateSpec>, seen: seq<Draft>) returns (err: Option<SaveError>)
      modifies `log
      ensures log == old(log) + [Inserted(specs, seen)] && err == insert(specs)
    {
      Record(Inserted(specs, seen));
      err := insert(specs);
    }
  }

  /** A chain of mutators: the body of a builder, wrapped by its hooks from `level` on. */
  datatype Mutator = Body | Wrapped(hook: Hook, level: nat, next: Mutator)

  /** The right fold over the hooks, the first one outermost. */
  function Wrapping(hooks: seq<Hook>, h: nat): Mutator
    requires h <= |hooks|
    decreases |hooks| - h
  {
    if h == |hooks| then Body else Wrapped(hooks[h], h, Wrapping(hooks, h + 1))
  }

  /** The loop of `withHooks`: from the last hook to the first; a nil hook is an error, and nothing has run. */
  method WrapOrFail(hooks: seq<Hook>) returns (mut: Mutator, err: Option<SaveError>)
    ensures err == if Initialized(hooks) then None else Some(Uninitialized)
    ensures err.None? ==> mut == Wrapping(hooks, 0)
  {
    mut := Body;
    for h := |hooks| downto 0
      invariant Initialized(hooks[h..])
      invariant mut == Wrapping(hooks, h)
    {
      if hooks[h].NilHook? {
        return mut, Some(Uninitialized);
      }
      mut := Wrapped(hooks[h], h, mut);
      assert hooks[h..] == [hooks[h]] + hooks[h + 1..];
    }
    assert hooks[0..] == hooks;
    err := None;
  }

  /** The inner loop of the bulk `Save`, which calls each hook unchecked: calling a nil one panics. */
  method WrapAll(hooks: seq<Hook>) returns (mut: Mutator, panicked: bool)
    ensures panicked <==> !Initialized(hooks)
    ensures !panicked ==> mut == Wrapping(hooks, 0)
  {
    mut := Body;
    for h := |hooks| downto 0
      invariant Initialized(hooks[h..])
      invariant mut == Wrapping(hooks, h)
    {
      if hooks[h].NilHook? {
        return mut, true;
      }
      mut := Wrapped(hooks[h], h, mut);
      assert hooks[h..] == [hooks[h]] + hooks[h + 1..];
    }
    assert hooks[0..] == hooks;
    panicked := false;
  }

  class Builder {
    var mutation: Mutation
    const hooks: seq<Hook>

    constructor (mutation: Mutation, hooks: seq<Hook>)
      ensures this.mutation == mutation && this.hooks == hooks
    {
      this.mutation := mutation;
      this.hooks := hooks;
    }

    method Defaults(newID: Uuid)
      modifies mutation`draft
      ensures mutation.draft == Certificates.Defaults(old(mutation.draft), newID)
    {
      var d := mutation.draft;
      if d.source.None? {
        d := d.(source := Some("manual"));
      }
      if d.status.None? {
        d := d.(status := Some("pending"));
      }
      if d.issuer.None? {
        d := d.(issuer := Some(""));
      }
      if d.serialNumber.None? {
        d := d.(serialNumber := Some(""));
      }
      if d.lastError.None? {
        d := d.(lastError := Some(""));
      }
      if d.renewAttempts.None? {
        d := d.(renewAttempts := Some(0));
      }
      if d.lastRenewError.None? {
        d := d.(lastRenewError := Some(""));
      }
      if d.id.None? {
        d := d.(id := Some(newID));
      }
      mutation.draft := d;
    }

    /** The builder's mutation is done exactly when the body succeeded, and then the node is what was stored. */
    ghost predicate Saved(out: Outcome, node: Certificate?)
      reads this, mutation, if node == null then {} else {node}
    {
      && (mutation.done <==> 0 in out.done)
      && (mutation.done ==>
            && node != null && |out.filled| == 1 && node.record == NodeOf(out.filled[0])
            && mutation.draft == out.filled[0].(id := Some(node.record.id)))
    }

    lemma NothingSaved()
      requires !mutation.done
      ensures Saved(Stopped([]), null)
    {
    }

    lemma SavedDependsOn(a: Outcome, b: Outcome, node: Certificate?)
      requires a.done == b.done && a.filled == b.filled
      ensures Saved(a, node) <==> Saved(b, node)
    {
    }

    /** `sqlSave`, on the builder's own mutation. */
    method SqlSave(driver: Driver) returns (node: Certificate?, err: Option<SaveError>, ghost out: Outcome)
      requires !mutation.done
      modifies driver`log, mutation
      ensures out == SingleBody(old(mutation.draft), driver.insert)
      ensures err == out.err && driver.log == old(driver.log) + out.events
      ensures Saved(out, node)
    {
      var d, f := mutation.draft, BodyFrame(0);
      driver.Record(Enter(f));
      var invalid := Check(d);
      node := null;
      if invalid.Some? {
        err := Some(Invalid(invalid.value));
        out := Stopped([]);
      } else {
        var spec;
        node, spec := CreateSpecOf(d);
        SpecIsUnique(spec, d);
        assert Specs([d]) == [spec];
        err := driver.BatchCreate([spec], [mutation.draft]);
        out := Outcome([InsertEvent([d])], err, [d], if err.None? then {0} else {});
        if err.None? {
          mutation.draft := d.(id := Some(node.record.id));
          mutation.done := true;
        }
      }
      driver.Record(Leave(f, err));
      out := Wrap(f, out, err);
    }

    /** The mutators that `withHooks` builds: the body copies the mutation it is handed over the builder's own. */
    method Invoke(h: nat, mut: Mutator, m: Mutation, driver: Driver)
      returns (node: Certificate?, err: Option<SaveError>, ghost out: Outcome)
      requires h <= |hooks| && Initialized(hooks) && mut == Wrapping(hooks, h)
      requires !mutation.done && !m.done
      modifies driver`log, mutation, m
      ensures var hand := Hand(old(mutation.draft), old(m.draft), m == mutation);
              out == RunSingle(hooks, h, hand, driver.insert)
      ensures err == out.err && driver.log == old(driver.log) + out.events
      ensures Saved(out, node)
      decreases |hooks| - h
    {
      hide SingleBody, RunSingle, Wrap, Wrapping, Saved;
      WrappingAt(hooks, h);
      SingleStep(hooks, h, Hand(mutation.draft, m.draft, m == mutation), driver.insert);
      match mut
      case Body =>
        mutation.draft, mutation.done := m.draft, m.done;
        node, err, out := SqlSave(driver);
      case Wrapped(hook, level, next) =>
        var given, f := m.draft, HookFrame(0, level);
        driver.Record(Enter(f));
        node := null;
        match hook.handOn(given) {
          case Refuse(e) =>
            err, out := Some(e), Stopped([]);
            NothingSaved();
          case Same =>
            m.draft := hook.edit(given);
            node, err, out := Invoke(h + 1, next, m, driver);
            err := hook.reply(err);
          case Replacement =>
            var other := new Mutation(hook.edit(given));
            node, err, out := Invoke(h + 1, next, other, driver);
            err := hook.reply(err);
        }
        driver.Record(Leave(f, err));
        WrapFields(f, out, err);
        SavedDependsOn(out, Wrap(f, out, err), node);
        out := Wrap(f, out, err);
    }
  }

  /** What a builder runs with: its mutation after `defaults`, and its hooks. */
  ghost function MemberOf(b: Builder, newID: Uuid): Member
    reads b, b.mutation
  {
    Member(Certificates.Defaults(b.mutation.draft, newID), b.hooks)
  }

  /** With hooks that edit nothing, what is inserted is what the caller set, and the defaults. */
  lemma SingleCreates(d: Draft, newID: Uuid, m: Member, insert: Insert)
    requires m.draft == Certificates.Defaults(d, newID) && EditsNothing(m.hooks)
    ensures forall e | e in Inserts(RunSingle(m.hooks, 0, FirstHand(m), insert).events) ::
              e.Inserted? && |e.batch| == 1 && Creates(d, newID, e.batch[0])
  {
    hide Certificates.Defaults, SpecOf, RunSingle, Creates;
    SingleInsertsOwn(m, insert);
    DefaultedRequest(d, newID);
  }

  /** A single `Save`. */
  method Save(b: Builder, newID: Uuid, driver: Driver)
    returns (node: Certificate?, err: Option<SaveError>, ghost out: Outcome)
    requires !b.mutation.done
    modifies driver`log, b.mutation
    ensures !Initialized(b.hooks) ==>
              node == null && err == Some(Uninitialized) && driver.log == old(driver.log) && !b.mutation.done
    ensures Initialized(b.hooks) ==>
              && out == RunSingle(b.hooks, 0, FirstHand(old(MemberOf(b, newID))), driver.insert)
              && err == out.err && driver.log == old(driver.log) + out.events
              && (b.mutation.done <==> 0 in out.done)
              && (b.mutation.done ==>
                    && |out.filled| == 1
                    && b.mutation.draft == out.filled[0].(id := Some(NodeOf(out.filled[0]).id)))
              && (err.None? ==> b.Saved(out, node))
    ensures EditsNothing(b.hooks) ==>
              forall e | e in Inserts(out.events) ::
                e.Inserted? && |e.batch| == 1 && Creates(old(b.mutation.draft), newID, e.batch[0])
  {
    hide RunSingle, SingleBody, Wrap, Wrapping, Certificates.Defaults, Creates;
    ghost var m, d := MemberOf(b, newID), b.mutation.draft;
    if EditsNothing(b.hooks) {
      SingleCreates(d, newID, m, driver.insert);
    }
    b.Defaults(newID);
    if |b.hooks| == 0 {
      SingleStep(b.hooks, 0, FirstHand(m), driver.insert);
      node, err, out := b.SqlSave(driver);
    } else {
      var mut, nilHook := WrapOrFail(b.hooks);
      if nilHook.Some? {
        return null, nilHook, Stopped([]);
      }
      node, err, out := b.Invoke(0, mut, b.mutation, driver);
    }
    if err.Some? {
      node := null;
    }
  }

  /** What the closures of one bulk `Save` share. */
  class Bulk {
    const builders: seq<Builder>
    const driver: Driver
    const specs: array<Option<CreateSpec>>
    const nodes: array<Certificate?>
    const mutators: array<Mutator>

    constructor (builders: seq<Builder>, driver: Driver)
      ensures this.builders == builders && this.driver == driver
      ensures fresh(specs) && fresh(nodes) && fresh(mutators)
      ensures specs.Length == nodes.Length == mutators.Length == |builders|
    {
      this.builders := builders;
      this.driver := driver;
      specs := new Option<CreateSpec>[|builders|](_ => None);
      nodes := new Certificate?[|builders|](_ => null);
      mutators := new Mutator[|builders|](_ => Body);
    }

    ghost function BuildersFrom(i: nat): set<Builder> {
      set k | i <= k < |builders| :: builders[k]
    }

    ghost function MutationsFrom(i: nat): set<Mutation>
      reads BuildersFrom(i)`mutation
    {
      set k | i <= k < |builders| :: builders[k].mutation
    }

    ghost predicate NoAlias() {
      mutators as object != specs as object && mutators as object != nodes as object
    }

    /** The slots and closures are in place, and no builder is there twice. */
    ghost predicate Wired()
      reads mutators
    {
      && NoAlias()
      && specs.Length == nodes.Length == mutators.Length == |builders|
      && (forall k | 0 <= k < |builders| ::
            Initialized(builders[k].hooks) && mutators[k] == Wrapping(builders[k].hooks, 0))
      && (forall k, l | 0 <= k < l < |builders| :: builders[k] != builders[l])
    }

    /** From builder `i` on, every builder has a mutation of its own that is not done. */
    ghost predicate Pending(i: nat)
      reads BuildersFrom(i)`mutation, MutationsFrom(i)`done
    {
      && (forall k, l | i <= k < l < |builders| :: builders[k].mutation != builders[l].mutation)
      && (forall k | i <= k < |builders| :: !builders[k].mutation.done)
    }

    /** The builders from `i` on are as `ms` says. */
    ghost predicate Holds(ms: seq<Member>, i: nat)
      reads BuildersFrom(i)`mutation, MutationsFrom(i)`draft
    {
      && |ms| == |builders|
      && (forall k | 0 <= k < |ms| :: ms[k].hooks == builders[k].hooks)
      && (forall k | i <= k < |ms| :: ms[k].draft == builders[k].mutation.draft)
    }

    /** The slots hold the requests and the nodes of the drafts. */
    ghost predicate Filled(drafts: seq<Draft>)
      reads specs, nodes, (set k | 0 <= k < nodes.Length && nodes[k] != null :: nodes[k])`record
    {
      && |drafts| <= specs.Length == nodes.Length
      && forall k | 0 <= k < |drafts| ::
           specs[k] == Some(SpecOf(drafts[k])) && nodes[k] != null && nodes[k].record == NodeOf(drafts[k])
    }

    ghost function BuildersTo(i: nat): set<Builder> {
      set k | 0 <= k < i && k < |builders| :: builders[k]
    }

    ghost function MutationsTo(i: nat): set<Mutation>
      reads BuildersTo(i)`mutation
    {
      set k | 0 <= k < i && k < |builders| :: builders[k].mutation
    }

    /** The builders before `i` hold the drafts of their slots, in mutations that no later builder has. */
    ghost predicate Slotted(i: nat, filled: seq<Draft>)
      reads BuildersTo(i)`mutation, MutationsTo(i)`draft, BuildersFrom(i)`mutation
    {
      Held(i, filled) && MutationsTo(i) !! MutationsFrom(i)
    }

    ghost predicate Held(i: nat, filled: seq<Draft>)
      reads BuildersTo(i)`mutation, MutationsTo(i)`draft
    {
      |filled| == i <= |builders| && forall k | 0 <= k < i :: builders[k].mutation.draft == filled[k]
    }

    lemma SlottedStep(i: nat, filled: seq<Draft>)
      requires i < |builders| && Held(i, filled)
      requires MutationsTo(i) !! MutationsFrom(i + 1) && builders[i].mutation !in MutationsFrom(i + 1)
      ensures Slotted(i + 1, filled + [builders[i].mutation.draft])
    {
    }

    /** From builder `i` on, the mutations marked done are those in `done`, and their id is that of the node. */
    ghost predicate DoneAs(i: nat, done: set<nat>, drafts: seq<Draft>)
      reads BuildersFrom(i)`mutation, MutationsFrom(i)`done, MutationsFrom(i)`draft
    {
      forall k | i <= k < |builders| ::
        && (builders[k].mutation.done <==> k in done)
        && (k in done && k < |drafts| ==>
              builders[k].mutation.draft == drafts[k].(id := Some(NodeOf(drafts[k]).id)))
    }

    /** Builder `i` is about to be given `m`, and the ones after it have not been touched. */
    ghost predicate Waiting(i: nat, m: Mutation, ms: seq<Member>)
      reads mutators, BuildersFrom(i)`mutation, BuildersFrom(i + 1)`mutation
      reads MutationsFrom(i)`done, MutationsFrom(i + 1)`draft, m`done
    {
      && i < |builders| == |ms| && NoNil(ms)
      && Wired() && Pending(i) && Holds(ms, i + 1)
      && !m.done && m !in MutationsFrom(i + 1)
    }

    /** Builder `j`, if there is one, has not been touched. */
    ghost predicate NextWaiting(j: nat, ms: seq<Member>)
      requires j <= |builders| == |ms|
      reads mutators, BuildersFrom(j)`mutation, BuildersFrom(j + 1)`mutation
      reads MutationsFrom(j)`done, MutationsFrom(j)`draft, MutationsFrom(j + 1)`draft
    {
      j < |builders| ==>
        && builders[j] in BuildersFrom(j)
        && builders[j].mutation in MutationsFrom(j)
        && Waiting(j, builders[j].mutation, ms)
        && ms[j].draft == builders[j].mutation.draft
    }

    ghost predicate Ready(i: nat, m: Mutation, ms: seq<Member>, filled: seq<Draft>)
      reads mutators, BuildersFrom(i)`mutation, BuildersFrom(i + 1)`mutation
      reads MutationsFrom(i)`done, MutationsFrom(i + 1)`draft, m`done
      reads specs, nodes, (set k | 0 <= k < nodes.Length && nodes[k] != null :: nodes[k])`record
      reads BuildersTo(i)`mutation, MutationsTo(i)`draft
    {
      Waiting(i, m, ms) && |filled| == i && Filled(filled) && Slotted(i, filled) && m !in MutationsTo(i)
    }

    lemma ReadyFacts(i: nat, m: Mutation, ms: seq<Member>, filled: seq<Draft>)
      requires Ready(i, m, ms, filled)
      ensures i < |builders| == |ms| && NoNil(ms) && ms[i].hooks == builders[i].hooks && Initialized(ms[i].hooks)
      ensures !m.done && m !in MutationsFrom(i + 1) && m !in MutationsTo(i)
      ensures Filled(filled) && DoneAs(i, {}, filled)
      ensures Held(i, filled) && MutationsTo(i) !! MutationsFrom(i + 1)
      ensures builders[i] !in BuildersTo(i)
    {
    }

    lemma ReadyFor(i: nat, m: Mutation, other: Mutation, ms: seq<Member>, filled: seq<Draft>)
      requires Ready(i, m, ms, filled) && !other.done && other !in MutationsFrom(i + 1) && other !in MutationsTo(i)
      ensures Ready(i, other, ms, filled)
    {
    }

    /** A hook's own mutation. */
    method Replace(i: nat, m: Mutation, draft: Draft, ghost ms: seq<Member>, ghost filled: seq<Draft>)
      returns (other: Mutation)
      requires Ready(i, m, ms, filled)
      ensures fresh(other) && other.draft == draft
      ensures Ready(i, other, ms, filled)
      ensures MutationsFrom(i) == old(MutationsFrom(i))
    {
      ReadyFacts(i, m, ms, filled);
      other := new Mutation(draft);
      assert Held(i, filled);
      ReadyFor(i, m, other, ms, filled);
    }

    lemma NextWaits(i: nat, m: Mutation, ms: seq<Member>, filled: seq<Draft>)
      requires Ready(i, m, ms, filled)
      ensures |filled| == i && NoAlias()
      ensures builders[i] in BuildersFrom(i) && builders[i] !in BuildersFrom(i + 1)
      ensures builders[i] !in BuildersFrom(i + 2) && BuildersFrom(i + 1) <= BuildersFrom(i)
      ensures MutationsFrom(i + 1) <= MutationsFrom(i)
      ensures specs.Length == nodes.Length == mutators.Length == |builders|
      ensures NextWaiting(i + 1, ms)
    {
    }

    lemma NextReady(j: nat, ms: seq<Member>, slots: seq<Draft>)
      requires j < |builders| == |ms| && NextWaiting(j, ms)
      requires |slots| == j && Filled(slots) && Slotted(j, slots)
      ensures mutators.Length == |builders| && mutators[j] == Wrapping(builders[j].hooks, 0)
      ensures Ready(j, builders[j].mutation, ms, slots)
      ensures builders[j].mutation in MutationsFrom(j)
      ensures ms[j].hooks == builders[j].hooks
      ensures FirstHand(ms[j]) == Hand(builders[j].mutation.draft, builders[j].mutation.draft, true)
    {
    }

    lemma NoneDone(i: nat, drafts: seq<Draft>)
      requires |builders| <= i
      ensures DoneAs(i, {}, drafts) && MutationsFrom(i) == {}
    {
    }

    lemma FirstMutation(i: nat)
      requires i < |builders|
      ensures MutationsFrom(i) == {builders[i].mutation} + MutationsFrom(i + 1)
    {
    }

    lemma DoneStep(i: nat, done: set<nat>, now: set<nat>, drafts: seq<Draft>)
      requires i < |builders| && DoneAs(i + 1, done, drafts) && i !in done && i < |drafts|
      requires now == if builders[i].mutation.done then done + {i} else done
      requires builders[i].mutation.done ==>
                 builders[i].mutation.draft == drafts[i].(id := Some(NodeOf(drafts[i]).id))
      ensures DoneAs(i, now, drafts)
    {
    }

    method Mutate(i: nat, h: nat, mut: Mutator, m: Mutation, ghost ms: seq<Member>, ghost filled: seq<Draft>)
      returns (err: Option<SaveError>, ghost out: Outcome)
      requires Ready(i, m, ms, filled)
      requires h <= |builders[i].hooks| && mut == Wrapping(builders[i].hooks, h)
      modifies driver`log, specs, nodes, BuildersFrom(i)`mutation
      modifies MutationsFrom(i)`draft, MutationsFrom(i)`done, m`draft, m`done
      ensures |ms| == |builders| && NoNil(ms) && ms[i].hooks == builders[i].hooks
      ensures var hand := Hand(old(builders[i].mutation.draft), old(m.draft), m == old(builders[i].mutation));
              out == RunChain(ms, i, h, hand, filled, driver.insert)
      ensures err == out.err && driver.log == old(driver.log) + out.events
      ensures Filled(out.filled) && DoneAs(i, out.done, out.filled)
      ensures forall x | x in MutationsFrom(i) :: x in old(MutationsFrom(i)) || x == m || fresh(x)
      decreases |builders| - i, |builders[i].hooks| - h, 1
    {
      hide Wrapping, RunChain, RunBody, MutationsFrom, BuildersFrom, Pending, Holds, Filled, DoneAs, Ready, Waiting;
      hide Wrap, NextWaiting, Wired, NoNil, Check, NodeOf, SpecOf;
      ReadyFacts(i, m, ms, filled);
      WrappingAt(builders[i].hooks, h);
      ghost var hand := Hand(builders[i].mutation.draft, m.draft, m == builders[i].mutation);
      ChainStep(ms, i, h, hand, filled, driver.insert);
      match mut
      case Body =>
        err, out := MutateBody(i, m, ms, filled);
      case Wrapped(hook, level, next) =>
        var given, f := m.draft, HookFrame(i, level);
        driver.Record(Enter(f));
        match hook.handOn(given) {
          case Refuse(e) =>
            err, out := Some(e), Stopped(filled);
          case Same =>
            m.draft := hook.edit(given);
            err, out := Mutate(i, h + 1, next, m, ms, filled);
            err := hook.reply(err);
          case Replacement =>
            var other := Replace(i, m, hook.edit(given), ms, filled);
            err, out := Mutate(i, h + 1, next, other, ms, filled);
            err := hook.reply(err);
        }
        driver.Record(Leave(f, err));
        WrapFields(f, out, err);
        out := Wrap(f, out, err);
    }

    method MutateBody(i: nat, m: Mutation, ghost ms: seq<Member>, ghost filled: seq<Draft>)
      returns (err: Option<SaveError>, ghost out: Outcome)
      requires Ready(i, m, ms, filled)
      modifies driver`log, specs, nodes, BuildersFrom(i)`mutation
      modifies MutationsFrom(i)`draft, MutationsFrom(i)`done, m`draft, m`done
      ensures |ms| == |builders| && NoNil(ms)
      ensures var hand := Hand(old(builders[i].mutation.draft), old(m.draft), m == old(builders[i].mutation));
              out == RunBody(ms, i, hand, filled, driver.insert)
      ensures err == out.err && driver.log == old(driver.log) + out.events
      ensures Filled(out.filled) && DoneAs(i, out.done, out.filled)
      ensures forall x | x in MutationsFrom(i) :: x in old(MutationsFrom(i)) || x == m || fresh(x)
      decreases |builders| - i, 0, 0
    {
      hide *;
      ReadyFacts(i, m, ms, filled);
      ghost var hand := Hand(builders[i].mutation.draft, m.draft, m == builders[i].mutation);
      BodyStep(ms, i, hand, filled, driver.insert);
      var f := BodyFrame(i);
      driver.Record(Enter(f));
      var invalid := Check(builders[i].mutation.draft);
      if invalid.Some? {
        err, out := Some(Invalid(invalid.value)), Stopped(filled);
        StoppedFields(filled);
      } else {
        err, out := Adopt(i, m, ms, filled);
      }
      driver.Record(Leave(f, err));
      WrapFields(f, out, err);
      out := Wrap(f, out, err);
    }

    /** The body after its check. */
    method Adopt(i: nat, m: Mutation, ghost ms: seq<Member>, ghost filled: seq<Draft>)
      returns (err: Option<SaveError>, ghost out: Outcome)
      requires Ready(i, m, ms, filled)
      modifies driver`log, specs, nodes, BuildersFrom(i)`mutation
      modifies MutationsFrom(i)`draft, MutationsFrom(i)`done, m`draft, m`done
      ensures i < |builders| == |ms| && NoNil(ms)
      ensures var inner := NextOutcome(ms, i + 1, filled + [old(m.draft)], driver.insert);
              out == if inner.err.None? then inner.(done := inner.done + {i}) else inner
      ensures err == out.err && driver.log == old(driver.log) + out.events
      ensures Filled(out.filled) && DoneAs(i, out.done, out.filled)
      ensures forall x | x in MutationsFrom(i) :: x in old(MutationsFrom(i)) || x == m || fresh(x)
      decreases |builders| - i, 0, -1
    {
      hide *;
      ReadyFacts(i, m, ms, filled);
      NextWaits(i, m, ms, filled);
      ghost var draft, slots := m.draft, filled + [m.draft];
      builders[i].mutation := m;
      SlottedStep(i, filled);
      var node := PutSlot(i, m.draft, ms, filled);
      err, out := CallNext(i + 1, ms, slots);
      assert out.filled[i] == slots[i] == draft;
      ghost var done := MarkDone(i, m, node, err.None?, out.done, out.filled);
      FirstMutation(i);
      out := out.(done := done);
    }

    /** On the way back the mutation gets the node's id, and is done, if everything below succeeded. */
    method MarkDone(
      i: nat, m: Mutation, node: Certificate, succeeded: bool, ghost done: set<nat>, ghost drafts: seq<Draft>)
      returns (ghost now: set<nat>)
      requires i < |builders| && i < |drafts| && i !in done && DoneAs(i + 1, done, drafts)
      requires builders[i].mutation == m && m !in MutationsFrom(i + 1)
      requires !m.done && m.draft == drafts[i] && node.record == NodeOf(drafts[i])
      modifies m`draft, m`done
      ensures now == (if succeeded then done + {i} else done) && DoneAs(i, now, drafts)
      ensures MutationsFrom(i + 1) == old(MutationsFrom(i + 1))
    {
      hide *;
      now := if succeeded then done + {i} else done;
      if succeeded {
        m.draft := m.draft.(id := Some(node.record.id));
        m.done := true;
      }
      DoneStep(i, done, now, drafts);
    }

    lemma FirstReady(ms: seq<Member>)
      requires |ms| == |builders| > 0 && Apart(builders) && NoAlias()
      requires specs.Length == nodes.Length == mutators.Length == |builders|
      requires forall k | 0 <= k < |builders| ::
                 && Initialized(builders[k].hooks) && !builders[k].mutation.done
                 && mutators[k] == Wrapping(builders[k].hooks, 0)
                 && ms[k] == Member(builders[k].mutation.draft, builders[k].hooks)
      ensures Ready(0, builders[0].mutation, ms, [])
    {
    }

    /** The loop of `Save`: the defaults of every builder, and its closure. */
    method Prepare(ids: seq<Uuid>, ghost ms: seq<Member>) returns (panicked: bool)
      requires |ids| == |builders| == mutators.Length && Apart(builders)
      requires ms == MembersOf(builders, ids)
      modifies mutators, (set k | 0 <= k < |builders| :: builders[k].mutation)`draft
      ensures panicked <==> exists k | 0 <= k < |builders| :: !Initialized(builders[k].hooks)
      ensures !panicked ==> forall k | 0 <= k < |builders| :: mutators[k] == Wrapping(builders[k].hooks, 0)
      ensures !panicked ==> forall k | 0 <= k < |builders| :: builders[k].mutation.draft == ms[k].draft
    {
      hide Wrapping, Initialized, Certificates.Defaults;
      for i := 0 to |builders|
        invariant forall k | 0 <= k < i :: Initialized(builders[k].hooks)
        invariant forall k | 0 <= k < i :: mutators[k] == Wrapping(builders[k].hooks, 0)
        invariant forall k | 0 <= k < i :: builders[k].mutation.draft == ms[k].draft
        invariant forall k | i <= k < |builders| :: builders[k].mutation.draft == old(builders[k].mutation.draft)
      {
        panicked := PrepareOne(i, ids[i], ms[i]);
        if panicked {
          return;
        }
      }
      panicked := false;
    }

    method PrepareOne(i: nat, newID: Uuid, ghost m: Member) returns (panicked: bool)
      requires i < |builders| == mutators.Length
      requires m == MemberOf(builders[i], newID)
      modifies mutators, builders[i].mutation`draft
      ensures panicked <==> !Initialized(builders[i].hooks)
      ensures !panicked ==> mutators[i] == Wrapping(builders[i].hooks, 0)
      ensures forall k | 0 <= k < i :: mutators[k] == old(mutators[k])
      ensures builders[i].mutation.draft == m.draft
    {
      hide Wrapping, Initialized, Certificates.Defaults;
      builders[i].Defaults(newID);
      var mut;
      mut, panicked := WrapAll(builders[i].hooks);
      if !panicked {
        mutators[i] := mut;
      }
    }

    /** The next builder, `j`, or the insert after the last one. */
    method CallNext(j: nat, ghost ms: seq<Member>, ghost slots: seq<Draft>)
      returns (err: Option<SaveError>, ghost out: Outcome)
      requires 0 < j <= |builders| == |ms| && NoNil(ms) && NextWaiting(j, ms)
      requires |slots| == j && Filled(slots) && Slotted(j, slots) && specs.Length == nodes.Length == |builders|
      modifies driver`log, specs, nodes, BuildersFrom(j)`mutation
      modifies MutationsFrom(j)`draft, MutationsFrom(j)`done
      ensures out == NextOutcome(ms, j, slots, driver.insert)
      ensures err == out.err && driver.log == old(driver.log) + out.events
      ensures Filled(out.filled) && DoneAs(j, out.done, out.filled)
      ensures slots <= out.filled && j - 1 !in out.done
      ensures forall x | x in MutationsFrom(j) :: x in old(MutationsFrom(j)) || fresh(x)
      decreases |builders| - j + 1, -1
    {
      hide *;
      if j < |builders| {
        NextReady(j, ms, slots);
        err, out := Mutate(j, 0, mutators[j], builders[j].mutation, ms, slots);
      } else {
        err := PutBatch(slots);
        NoneDone(j, slots);
        out := Outcome([InsertEvent(slots)], err, slots, {});
      }
      KeepsSlots(ms, j, slots, driver.insert);
    }

    /** Fills slot `i`. */
    method PutSlot(i: nat, d: Draft, ghost ms: seq<Member>, ghost filled: seq<Draft>) returns (node: Certificate)
      requires i < specs.Length == nodes.Length == |builders| == |ms| && |filled| == i && Filled(filled)
      requires NextWaiting(i + 1, ms) && NoAlias() && Slotted(i + 1, filled + [d])
      ensures Slotted(i + 1, filled + [d])
      ensures NextWaiting(i + 1, ms) && MutationsFrom(i + 1) == old(MutationsFrom(i + 1))
      modifies specs, nodes
      ensures fresh(node) && node.record == NodeOf(d)
      ensures Filled(filled + [d])
    {
      hide SpecOf, NodeOf, SpecFits, Wrapping, Initialized, Filled;
      var spec;
      node, spec := CreateSpecOf(d);
      SpecIsUnique(spec, d);
      WriteSlot(i, d, node, spec, ms, filled);
    }

    method WriteSlot(
      i: nat, ghost d: Draft, node: Certificate, spec: CreateSpec, ghost ms: seq<Member>, ghost filled: seq<Draft>)
      requires i < specs.Length == nodes.Length == |builders| == |ms| && |filled| == i && Filled(filled)
      requires NextWaiting(i + 1, ms) && NoAlias() && Slotted(i + 1, filled + [d])
      requires node.record == NodeOf(d) && spec == SpecOf(d)
      modifies specs, nodes
      ensures Slotted(i + 1, filled + [d])
      ensures NextWaiting(i + 1, ms) && MutationsFrom(i + 1) == old(MutationsFrom(i + 1))
      ensures Filled(filled + [d])
    {
      hide SpecOf, NodeOf, NextWaiting, Slotted, MutationsFrom, BuildersFrom;
      nodes[i], specs[i] := node, Some(spec);
    }

    /** Issues the insert over all the slots, while every builder's mutation still holds the draft of its slot. */
    method PutBatch(ghost filled: seq<Draft>) returns (err: Option<SaveError>)
      requires |filled| == specs.Length == nodes.Length == |builders| && Filled(filled)
      requires Slotted(|builders|, filled)
      modifies driver`log
      ensures driver.log == old(driver.log) + [InsertEvent(filled)] && err == driver.insert(Specs(filled))
    {
      assert Requests(specs[..]) == Specs(filled);
      var seen := [];
      for k := 0 to |builders|
        invariant seen == filled[..k]
      {
        seen := seen + [builders[k].mutation.draft];
      }
      assert filled[..|builders|] == filled;
      err := driver.BatchCreate(Requests(specs[..]), seen);
    }
  }

  ghost function MembersOf(builders: seq<Builder>, ids: seq<Uuid>): (ms: seq<Member>)
    requires |ids| == |builders|
    reads builders, set k | 0 <= k < |builders| :: builders[k].mutation
    ensures |ms| == |builders| && forall k | 0 <= k < |ms| :: ms[k] == MemberOf(builders[k], ids[k])
  {
    seq(|builders|, k requires 0 <= k < |builders|
                    reads builders, set j | 0 <= j < |builders| :: builders[j].mutation
                    => MemberOf(builders[k], ids[k]))
  }

  ghost predicate Apart(builders: seq<Builder>)
    reads builders
  {
    forall k, l | 0 <= k < l < |builders| ::
      builders[k] != builders[l] && builders[k].mutation != builders[l].mutation
  }

  lemma BulkCreates(ds: seq<Draft>, ids: seq<Uuid>, ms: seq<Member>, insert: Insert)
    requires |ids| == |ds| == |ms| && NoNil(ms) && forall k | 0 <= k < |ms| :: EditsNothing(ms[k].hooks)
    requires forall k | 0 <= k < |ms| :: ms[k].draft == Certificates.Defaults(ds[k], ids[k])
    ensures forall e | e in Inserts(RunBulk(ms, insert).events) ::
              && e.Inserted? && |e.batch| == |ds|
              && forall k | 0 <= k < |ds| :: Creates(ds[k], ids[k], e.batch[k])
  {
    hide Certificates.Defaults, SpecOf, RunBulk, Creates, EditsNothing;
    BulkInsertsOwn(ms, insert);
    forall k | 0 <= k < |ds|
      ensures Creates(ds[k], ids[k], SpecOf(ms[k].draft))
    {
      DefaultedRequest(ds[k], ids[k]);
    }
  }

  /** The contents of the builders' mutations. */
  ghost function Drafts(builders: seq<Builder>): (ds: seq<Draft>)
    reads builders, set k | 0 <= k < |builders| :: builders[k].mutation
    ensures |ds| == |builders| && forall k | 0 <= k < |ds| :: ds[k] == builders[k].mutation.draft
  {
    seq(|builders|, k requires 0 <= k < |builders|
                    reads builders, set j | 0 <= j < |builders| :: builders[j].mutation
                    => builders[k].mutation.draft)
  }

  /** The bulk `Save`. A nil hook panics while the closures are built, before anything has run. */
  method SaveBulk(builders: seq<Builder>, ids: seq<Uuid>, driver: Driver)
    returns (bulk: Bulk, panicked: bool, err: Option<SaveError>, ghost out: Outcome)
    requires |ids| == |builders| && Apart(builders)
    requires forall k | 0 <= k < |builders| :: !builders[k].mutation.done
    modifies driver`log, builders, set k | 0 <= k < |builders| :: builders[k].mutation
    ensures fresh(bulk) && bulk.builders == builders
    ensures panicked <==> !NoNil(old(MembersOf(builders, ids)))
    ensures panicked ==> driver.log == old(driver.log) && forall k | 0 <= k < |builders| :: !builders[k].mutation.done
    ensures !panicked ==> out == RunBulk(old(MembersOf(builders, ids)), driver.insert)
    ensures !panicked ==> err == out.err && driver.log == old(driver.log) + out.events
    ensures !panicked ==> bulk.Filled(out.filled) && bulk.DoneAs(0, out.done, out.filled)
    ensures !panicked && (forall k | 0 <= k < |builders| :: EditsNothing(builders[k].hooks)) ==>
              forall e | e in Inserts(out.events) ::
                && e.Inserted? && |e.batch| == |builders|
                && forall k | 0 <= k < |builders| :: Creates(old(Drafts(builders))[k], ids[k], e.batch[k])
  {
    hide Creates, EditsNothing;
    hide Wrapping, RunChain, RunBody, Certificates.Defaults, Check, NodeOf, SpecOf, Bulk.Ready, Bulk.DoneAs;
    ghost var ms, ds := MembersOf(builders, ids), Drafts(builders);
    if NoNil(ms) && forall k | 0 <= k < |builders| :: EditsNothing(builders[k].hooks) {
      BulkCreates(ds, ids, ms, driver.insert);
    }
    bulk := new Bulk(builders, driver);
    panicked := bulk.Prepare(ids, ms);
    if panicked {
      return bulk, true, None, Stopped([]);
    }
    if |builders| > 0 {
      bulk.FirstReady(ms);
      err, out := bulk.Mutate(0, 0, bulk.mutators[0], builders[0].mutation, ms, []);
    } else {
      err, out := None, Stopped([]);
      bulk.NoneDone(0, []);
    }
  }

  /** The filled slots. */
  function Requests(slots: seq<Option<CreateSpec>>): (specs: seq<CreateSpec>)
    requires forall k | 0 <= k < |slots| :: slots[k].Some?
    ensures |specs| == |slots| && forall k | 0 <= k < |slots| :: specs[k] == slots[k].value
  {
    seq(|slots|, k requires 0 <= k < |slots| => slots[k].value)
  }

  lemma WrappingAt(hooks: seq<Hook>, h: nat)
    requires h <= |hooks|
    ensures Wrapping(hooks, h) == if h == |hooks| then Body else Wrapped(hooks[h], h, Wrapping(hooks, h + 1))
  {
  }

  lemma WrapFields(f: Frame, inner: Outcome, err: Option<SaveError>)
    ensures var w := Wrap(f, inner, err);
            && w.events == [Enter(f)] + inner.events + [Leave(f, err)] && w.err == err
            && w.filled == inner.filled && w.done == inner.done
  {
  }

  lemma ChainStep(ms: seq<Member>, i: nat, h: nat, hand: Hand, filled: seq<Draft>, insert: Insert)
    requires i < |ms| && h <= |ms[i].hooks| && NoNil(ms)
    ensures RunChain(ms, i, h, hand, filled, insert) ==
            if h == |ms[i].hooks| then RunBody(ms, i, hand, filled, insert)
            else
              var hook, f := ms[i].hooks[h], HookFrame(i, h);
              var next := hook.handOn(hand.given);
              if next.Refuse? then Wrap(f, Stopped(filled), Some(next.error))
              else
                var inner := RunChain(ms, i, h + 1, HandedOn(hook, hand), filled, insert);
                Wrap(f, inner, hook.reply(inner.err))
  {
  }

  function NextOutcome(ms: seq<Member>, j: nat, slots: seq<Draft>, insert: Insert): Outcome
    requires j <= |ms| && NoNil(ms)
  {
    if j < |ms| then RunChain(ms, j, 0, FirstHand(ms[j]), slots, insert)
    else Outcome([InsertEvent(slots)], insert(Specs(slots)), slots, {})
  }

  lemma StoppedFields(filled: seq<Draft>)
    ensures Stopped(filled) == Outcome([], None, filled, {})
  {
  }

  lemma BodyStep(ms: seq<Member>, i: nat, hand: Hand, filled: seq<Draft>, insert: Insert)
    requires i < |ms| && NoNil(ms)
    ensures RunBody(ms, i, hand, filled, insert) ==
            var f, slots := BodyFrame(i), filled + [hand.given];
            if Check(hand.own).Some? then Wrap(f, Stopped(filled), Some(Invalid(Check(hand.own).value)))
            else
              var inner := NextOutcome(ms, i + 1, slots, insert);
              Wrap(f, if inner.err.None? then inner.(done := inner.done + {i}) else inner, inner.err)
  {
  }

  /** What follows body `i` keeps the slots filled before, and marks only later builders done. */
  lemma KeepsSlots(ms: seq<Member>, j: nat, slots: seq<Draft>, insert: Insert)
    requires 0 < j <= |ms| && NoNil(ms) && |slots| == j
    ensures var out := NextOutcome(ms, j, slots, insert); slots <= out.filled && j - 1 !in out.done
    ensures NextOutcome(ms, j, slots, insert) ==
            if j < |ms| then RunChain(ms, j, 0, FirstHand(ms[j]), slots, insert)
            else Outcome([InsertEvent(slots)], insert(Specs(slots)), slots, {})
  {
    if j < |ms| {
      ChainKeepsSlots(ms, j, 0, FirstHand(ms[j]), slots, insert);
    }
  }

  lemma {:induction false} ChainKeepsSlots(
    ms: seq<Member>, i: nat, h: nat, hand: Hand, filled: seq<Draft>, insert: Insert)
    requires i < |ms| && h <= |ms[i].hooks| && NoNil(ms)
    ensures var out := RunChain(ms, i, h, hand, filled, insert);
            filled <= out.filled && forall k | k in out.done :: i <= k < |ms|
    decreases |ms| - i, |ms[i].hooks| - h
  {
    hide Check;
    if h < |ms[i].hooks| {
      if !ms[i].hooks[h].handOn(hand.given).Refuse? {
        ChainKeepsSlots(ms, i, h + 1, HandedOn(ms[i].hooks[h], hand), filled, insert);
      }
    } else if i + 1 < |ms| {
      ChainKeepsSlots(ms, i + 1, 0, FirstHand(ms[i + 1]), filled + [hand.given], insert);
    }
  }

  lemma SingleStep(hooks: seq<Hook>, h: nat, hand: Hand, insert: Insert)
    requires h <= |hooks| && Initialized(hooks)
    ensures RunSingle(hooks, h, hand, insert) ==
            if h == |hooks| then SingleBody(hand.given, insert)
            else
              var hook, f := hooks[h], HookFrame(0, h);
              var next := hook.handOn(hand.given);
              if next.Refuse? then Wrap(f, Stopped([]), Some(next.error))
              else
                var inner := RunSingle(hooks, h + 1, HandedOn(hook, hand), insert);
                Wrap(f, inner, hook.reply(inner.err))
  {
  }
}
