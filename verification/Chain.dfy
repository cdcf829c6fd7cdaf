/**
  Saving through hooks. A bulk create runs the hooks and the body of its first
  builder around those of the second, and so on down to one batch insert; a
  single create runs its hooks around one insert. `RunChain` is what the nested
  closures of a bulk create do, as a value; `Create` ties the code to it.
 */
module Chain {
  import opened Sql
  import opened Certificates

  datatype SaveError = Uninitialized | Invalid(column: Column) | Rejected(reason: string) | DriverError

  /** What a hook does with the mutation it was given. */
  datatype HandOn = Same | Replacement | Refuse(error: SaveError)

  /**
    A hook edits the mutation, hands it on at most once (the very object it was
    given, or a new one with the edited fields), and answers with an outcome of
    its own. `None` is success.
   */
  datatype Hook =
    | NilHook
    | Hook(edit: Draft -> Draft, handOn: Draft -> HandOn, reply: Option<SaveError> -> Option<SaveError>)

  predicate Initialized(hooks: seq<Hook>) {
    forall h | 0 <= h < |hooks| :: hooks[h].Hook?
  }

  /** A builder after `defaults`: the contents of its mutation, and its hooks. */
  datatype Member = Member(draft: Draft, hooks: seq<Hook>)

  predicate NoNil(ms: seq<Member>) {
    forall i | 0 <= i < |ms| :: Initialized(ms[i].hooks)
  }

  function Specs(drafts: seq<Draft>): seq<CreateSpec> {
    seq(|drafts|, i requires 0 <= i < |drafts| => SpecOf(drafts[i]))
  }

  /** The batch insert: it stores all rows, or none and fails. */
  type Insert = seq<CreateSpec> -> Option<SaveError>

  datatype Frame = HookFrame(builder: nat, hook: nat) | BodyFrame(builder: nat)

  /** `seen` are the mutations of the builders while the insert is issued, as a conflict resolver would find them. */
  datatype Event =
    | Enter(frame: Frame)
    | Inserted(batch: seq<CreateSpec>, seen: seq<Draft>)
    | Leave(frame: Frame, err: Option<SaveError>)

  /** The insert of a batch of drafts, issued while the builders' mutations hold those very drafts. */
  function InsertEvent(drafts: seq<Draft>): Event {
    Inserted(Specs(drafts), drafts)
  }

  /** `filled` are the drafts written to the slots so far, `done` the builders whose mutation was marked done. */
  datatype Outcome = Outcome(events: seq<Event>, err: Option<SaveError>, filled: seq<Draft>, done: set<nat>)

  /** The mutations before a hook: the builder's own, the one handed to the hook, and whether they are one object. */
  datatype Hand = Hand(own: Draft, given: Draft, same: bool)

  function FirstHand(m: Member): Hand {
    Hand(m.draft, m.draft, true)
  }

  /** The mutations after the hook has handed one on. */
  function HandedOn(hook: Hook, hand: Hand): Hand
    requires hook.Hook?
  {
    var edited := hook.edit(hand.given);
    if hook.handOn(hand.given).Replacement? then Hand(hand.own, edited, false)
    else Hand(if hand.same then edited else hand.own, edited, hand.same)
  }

  function Wrap(f: Frame, inner: Outcome, err: Option<SaveError>): Outcome {
    inner.(events := [Enter(f)] + inner.events + [Leave(f, err)], err := err)
  }

  function Stopped(filled: seq<Draft>): Outcome {
    Outcome([], None, filled, {})
  }

  /**
    Builder `i` from its hook `h` on. The body checks the builder's own mutation,
    adopts the one it was handed, fills its slot, and calls the next builder or
    the insert; its mutation is marked done only when that succeeded.
   */
  function RunChain(ms: seq<Member>, i: nat, h: nat, hand: Hand, filled: seq<Draft>, insert: Insert): Outcome
    requires i < |ms| && h <= |ms[i].hooks| && NoNil(ms)
    decreases |ms| - i, |ms[i].hooks| - h
  {
    if h < |ms[i].hooks| then
      var hook, f := ms[i].hooks[h], HookFrame(i, h);
      var next := hook.handOn(hand.given);
      if next.Refuse? then Wrap(f, Stopped(filled), Some(next.error))
      else
        var inner := RunChain(ms, i, h + 1, HandedOn(hook, hand), filled, insert);
        Wrap(f, inner, hook.reply(inner.err))
    else
      RunBody(ms, i, hand, filled, insert)
  }

  function RunBody(ms: seq<Member>, i: nat, hand: Hand, filled: seq<Draft>, insert: Insert): Outcome
    requires i < |ms| && NoNil(ms)
    decreases |ms| - i, -1
  {
    var f, slots := BodyFrame(i), filled + [hand.given];
    if Check(hand.own).Some? then Wrap(f, Stopped(filled), Some(Invalid(Check(hand.own).value)))
    else
      var inner :=
        if i + 1 < |ms| then RunChain(ms, i + 1, 0, FirstHand(ms[i + 1]), slots, insert)
        else Outcome([InsertEvent(slots)], insert(Specs(slots)), slots, {});
      Wrap(f, if inner.err.None? then inner.(done := inner.done + {i}) else inner, inner.err)
  }

  /** The whole chain; a bulk of no builders does nothing. */
  function RunBulk(ms: seq<Member>, insert: Insert): Outcome
    requires NoNil(ms)
  {
    if ms == [] then Stopped([]) else RunChain(ms, 0, 0, FirstHand(ms[0]), [], insert)
  }

  /**
    A single `Save`: its body first copies the mutation it was handed over the
    builder's own, and checks the copy.
   */
  function RunSingle(hooks: seq<Hook>, h: nat, hand: Hand, insert: Insert): Outcome
    requires h <= |hooks| && Initialized(hooks)
    decreases |hooks| - h
  {
    if h < |hooks| then
      var hook, f := hooks[h], HookFrame(0, h);
      var next := hook.handOn(hand.given);
      if next.Refuse? then Wrap(f, Stopped([]), Some(next.error))
      else
        var inner := RunSingle(hooks, h + 1, HandedOn(hook, hand), insert);
        Wrap(f, inner, hook.reply(inner.err))
    else
      SingleBody(hand.given, insert)
  }

  function SingleBody(given: Draft, insert: Insert): Outcome {
    var f, slots := BodyFrame(0), [given];
    if Check(given).Some? then Wrap(f, Stopped([]), Some(Invalid(Check(given).value)))
    else
      var err := insert(Specs(slots));
      Wrap(f, Outcome([InsertEvent(slots)], err, slots, if err.None? then {0} else {}), err)
  }

  // ---------------------------------------------------------------------
  // Nesting
  // ---------------------------------------------------------------------

  /** The frames from builder `i`, hook `h` on, in the order they are entered if nothing stops them. */
  function Frames(ms: seq<Member>, i: nat, h: nat): (fs: seq<Frame>)
    requires i < |ms| && h <= |ms[i].hooks|
    ensures fs != []
    decreases |ms| - i, |ms[i].hooks| - h
  {
    if h < |ms[i].hooks| then [HookFrame(i, h)] + Frames(ms, i, h + 1)
    else [BodyFrame(i)] + if i + 1 < |ms| then Frames(ms, i + 1, 0) else []
  }

  /** The `k`th event enters frame `k`, and the `k`th event from the end leaves it. */
  predicate Mirrored(events: seq<Event>, frames: seq<Frame>, k: nat)
    requires k < |frames| && k < |events|
  {
    var last := events[|events| - 1 - k];
    events[k] == Enter(frames[k]) && last.Leave? && last.frame == frames[k]
  }

  /**
    The first `depth` frames are entered in order and left in exactly the reverse
    order; an insert is innermost, and happens only inside all of the frames.
   */
  predicate Nested(events: seq<Event>, frames: seq<Frame>, depth: nat) {
    && depth <= |frames|
    && (|events| == 2 * depth || (depth == |frames| && |events| == 2 * depth + 1 && events[depth].Inserted?))
    && (forall k | 0 <= k < depth :: Mirrored(events, frames, k))
  }

  lemma WrapNested(f: Frame, inner: Outcome, err: Option<SaveError>, rest: seq<Frame>, depth: nat)
    requires Nested(inner.events, rest, depth)
    ensures Nested(Wrap(f, inner, err).events, [f] + rest, depth + 1)
  {
    var events := Wrap(f, inner, err).events;
    forall k | 0 <= k < depth + 1
      ensures Mirrored(events, [f] + rest, k)
    {
      if k > 0 {
        assert Mirrored(inner.events, rest, k - 1);
        assert events[k] == inner.events[k - 1];
        assert events[|events| - 1 - k] == inner.events[|inner.events| - k];
      }
    }
  }

  /** For any number of builders and hooks, and whatever the hooks answer, the trace is well nested. */
  lemma {:induction false} TraceIsNested(
    ms: seq<Member>, i: nat, h: nat, hand: Hand, filled: seq<Draft>, insert: Insert) returns (depth: nat)
    requires i < |ms| && h <= |ms[i].hooks| && NoNil(ms)
    ensures Nested(RunChain(ms, i, h, hand, filled, insert).events, Frames(ms, i, h), depth)
    decreases |ms| - i, |ms[i].hooks| - h
  {
    hide Nested, Wrap, Check;
    if h < |ms[i].hooks| {
      var hook, f, rest := ms[i].hooks[h], HookFrame(i, h), Frames(ms, i, h + 1);
      if hook.handOn(hand.given).Refuse? {
        StoppedNested(f, filled, Some(hook.handOn(hand.given).error), rest);
        depth := 1;
      } else {
        var next := HandedOn(hook, hand);
        depth := TraceIsNested(ms, i, h + 1, next, filled, insert);
        var inner := RunChain(ms, i, h + 1, next, filled, insert);
        WrapNested(f, inner, hook.reply(inner.err), rest, depth);
        depth := depth + 1;
      }
    } else {
      var innerDepth := 0;
      if i + 1 < |ms| {
        innerDepth := TraceIsNested(ms, i + 1, 0, FirstHand(ms[i + 1]), filled + [hand.given], insert);
      }
      depth := BodyNested(ms, i, hand, filled, insert, innerDepth);
    }
  }

  lemma StoppedNested(f: Frame, filled: seq<Draft>, err: Option<SaveError>, rest: seq<Frame>)
    ensures Nested(Wrap(f, Stopped(filled), err).events, [f] + rest, 1)
  {
    WrapNested(f, Stopped(filled), err, rest, 0);
  }

  lemma BodyNested(ms: seq<Member>, i: nat, hand: Hand, filled: seq<Draft>, insert: Insert, innerDepth: nat)
    returns (depth: nat)
    requires i < |ms| && NoNil(ms)
    requires i + 1 < |ms| ==>
               Nested(
                 RunChain(ms, i + 1, 0, FirstHand(ms[i + 1]), filled + [hand.given], insert).events,
                 Frames(ms, i + 1, 0), innerDepth)
    ensures Nested(RunBody(ms, i, hand, filled, insert).events, Frames(ms, i, |ms[i].hooks|), depth)
  {
    hide Wrap, Check, RunChain;
    var slots := filled + [hand.given];
    depth := 1;
    if Check(hand.own).Some? {
      var rest := if i + 1 < |ms| then Frames(ms, i + 1, 0) else [];
      StoppedNested(BodyFrame(i), filled, Some(Invalid(Check(hand.own).value)), rest);
    } else if i + 1 < |ms| {
      var inner := RunChain(ms, i + 1, 0, FirstHand(ms[i + 1]), slots, insert);
      WrapMarked(i, inner, Frames(ms, i + 1, 0), innerDepth);
      depth := innerDepth + 1;
    } else {
      var inner := Outcome([InsertEvent(slots)], insert(Specs(slots)), slots, {});
      WrapMarked(i, inner, [], 0);
    }
  }

  lemma WrapMarked(i: nat, inner: Outcome, rest: seq<Frame>, depth: nat)
    requires Nested(inner.events, rest, depth)
    ensures Nested(
              Wrap(BodyFrame(i), if inner.err.None? then inner.(done := inner.done + {i}) else inner, inner.err).events,
              [BodyFrame(i)] + rest, depth + 1)
  {
    WrapNested(BodyFrame(i), inner, inner.err, rest, depth);
  }

  // ---------------------------------------------------------------------
  // Exactly once
  // ---------------------------------------------------------------------

  /** The mutations that reach the body, unless a hook refuses. */
  function Reaches(hooks: seq<Hook>, h: nat, hand: Hand): Option<Hand>
    requires h <= |hooks| && Initialized(hooks)
    decreases |hooks| - h
  {
    if h == |hooks| then Some(hand)
    else if hooks[h].handOn(hand.given).Refuse? then None
    else Reaches(hooks, h + 1, HandedOn(hooks[h], hand))
  }

  predicate PassesFrom(hooks: seq<Hook>, h: nat, hand: Hand)
    requires h <= |hooks| && Initialized(hooks)
  {
    var reached := Reaches(hooks, h, hand);
    reached.Some? && Check(reached.value.own).None?
  }

  /** No hook of the builder refuses, and its check passes. */
  predicate Passes(m: Member)
    requires Initialized(m.hooks)
  {
    PassesFrom(m.hooks, 0, FirstHand(m))
  }

  /** The contents of the mutation that the innermost hook hands to the body. */
  function Handed(m: Member): Draft
    requires Initialized(m.hooks) && Passes(m)
  {
    Reaches(m.hooks, 0, FirstHand(m)).value.given
  }

  predicate AllPass(ms: seq<Member>, i: nat)
    requires NoNil(ms)
  {
    forall k | i <= k < |ms| :: Passes(ms[k])
  }

  function Batch(ms: seq<Member>, i: nat): seq<Draft>
    requires i <= |ms| && NoNil(ms) && AllPass(ms, i)
  {
    seq(|ms| - i, k requires 0 <= k < |ms| - i => Handed(ms[i + k]))
  }

  /** The inserts of a trace. */
  function Inserts(events: seq<Event>): seq<Event> {
    if events == [] then []
    else (if events[0].Inserted? then [events[0]] else []) + Inserts(events[1..])
  }

  lemma InsertsStep(e: Event, rest: seq<Event>)
    ensures Inserts([e] + rest) == (if e.Inserted? then [e] else []) + Inserts(rest)
  {
    assert ([e] + rest)[1..] == rest;
  }

  lemma {:induction false} InsertsConcat(a: seq<Event>, b: seq<Event>)
    ensures Inserts(a + b) == Inserts(a) + Inserts(b)
  {
    if a == [] {
      assert a + b == b;
    } else {
      hide Inserts;
      InsertsConcat(a[1..], b);
      InsertsStep(a[0], a[1..]);
      InsertsStep(a[0], a[1..] + b);
      assert a == [a[0]] + a[1..] && a + b == [a[0]] + (a[1..] + b);
    }
  }

  lemma WrapInserts(f: Frame, inner: Outcome, err: Option<SaveError>)
    ensures Inserts(Wrap(f, inner, err).events) == Inserts(inner.events)
  {
    InsertsConcat([Enter(f)] + inner.events, [Leave(f, err)]);
    InsertsConcat([Enter(f)], inner.events);
    assert Inserts([Enter(f)]) == [] && Inserts([Leave(f, err)]) == [];
  }

  lemma BatchStep(ms: seq<Member>, i: nat, filled: seq<Draft>)
    requires i < |ms| && NoNil(ms) && AllPass(ms, i)
    ensures filled + Batch(ms, i) == filled + [Handed(ms[i])] + Batch(ms, i + 1)
  {
  }

  lemma {:induction false} ChainInserts(
    ms: seq<Member>, i: nat, h: nat, hand: Hand, filled: seq<Draft>, insert: Insert)
    requires i < |ms| && h <= |ms[i].hooks| && NoNil(ms)
    ensures Inserts(RunChain(ms, i, h, hand, filled, insert).events) ==
            if PassesFrom(ms[i].hooks, h, hand) && AllPass(ms, i + 1)
            then [InsertEvent(filled + [Reaches(ms[i].hooks, h, hand).value.given] + Batch(ms, i + 1))] else []
    decreases |ms| - i, |ms[i].hooks| - h
  {
    if h < |ms[i].hooks| {
      var hook := ms[i].hooks[h];
      if hook.handOn(hand.given).Refuse? {
        WrapInserts(HookFrame(i, h), Stopped(filled), Some(hook.handOn(hand.given).error));
      } else {
        ChainInserts(ms, i, h + 1, HandedOn(hook, hand), filled, insert);
        var inner := RunChain(ms, i, h + 1, HandedOn(hook, hand), filled, insert);
        WrapInserts(HookFrame(i, h), inner, hook.reply(inner.err));
      }
    } else {
      BodyInserts(ms, i, hand, filled, insert) by {
        if i + 1 < |ms| {
          ChainInserts(ms, i + 1, 0, FirstHand(ms[i + 1]), filled + [hand.given], insert);
        }
      }
    }
  }

  lemma BodyInserts(ms: seq<Member>, i: nat, hand: Hand, filled: seq<Draft>, insert: Insert)
    requires i < |ms| && NoNil(ms)
    requires i + 1 < |ms| ==>
               Inserts(RunChain(ms, i + 1, 0, FirstHand(ms[i + 1]), filled + [hand.given], insert).events) ==
               if Passes(ms[i + 1]) && AllPass(ms, i + 2)
               then [InsertEvent(filled + [hand.given] + [Handed(ms[i + 1])] + Batch(ms, i + 2))] else []
    ensures Inserts(RunBody(ms, i, hand, filled, insert).events) ==
            if Check(hand.own).None? && AllPass(ms, i + 1)
            then [InsertEvent(filled + [hand.given] + Batch(ms, i + 1))] else []
  {
    hide Check, RunChain, Passes;
    var slots := filled + [hand.given];
    if Check(hand.own).Some? {
      WrapInserts(BodyFrame(i), Stopped(filled), Some(Invalid(Check(hand.own).value)));
    } else if i + 1 < |ms| {
      var inner := RunChain(ms, i + 1, 0, FirstHand(ms[i + 1]), slots, insert);
      WrapInserts(BodyFrame(i), inner, inner.err);
      if AllPass(ms, i + 1) {
        BatchStep(ms, i + 1, slots);
      }
    } else {
      var inner := Outcome([InsertEvent(slots)], insert(Specs(slots)), slots, {});
      WrapInserts(BodyFrame(i), inner, inner.err);
      assert slots + Batch(ms, i + 1) == slots;
      assert inner.events[1..] == [];
    }
  }

  /**
    The insert runs exactly once if no hook refuses and every check passes, and
    never otherwise; slot `k` of the batch is what the hooks of builder `k` handed on.
   */
  lemma InsertsExactlyOnce(ms: seq<Member>, insert: Insert)
    requires NoNil(ms) && ms != []
    ensures AllPass(ms, 0) ==> Inserts(RunBulk(ms, insert).events) == [InsertEvent(Batch(ms, 0))]
    ensures !AllPass(ms, 0) ==> Inserts(RunBulk(ms, insert).events) == []
  {
    ChainInserts(ms, 0, 0, FirstHand(ms[0]), [], insert);
    if AllPass(ms, 0) {
      BatchStep(ms, 0, []);
      assert [] + [Handed(ms[0])] + Batch(ms, 1) == [] + Batch(ms, 0) == Batch(ms, 0);
    }
  }

  lemma {:induction false} NoInsertNoBatch(events: seq<Event>)
    requires forall k | 0 <= k < |events| :: !events[k].Inserted?
    ensures Inserts(events) == []
  {
    if events != [] {
      NoInsertNoBatch(events[1..]);
    }
  }

  /** When every builder passes, all frames are entered, the insert is in the middle, and all are left in reverse. */
  lemma FullTrace(ms: seq<Member>, insert: Insert)
    requires NoNil(ms) && ms != [] && AllPass(ms, 0)
    ensures var events, frames := RunBulk(ms, insert).events, Frames(ms, 0, 0);
            && |events| == 2 * |frames| + 1 && events[|frames|] == InsertEvent(Batch(ms, 0))
            && forall k | 0 <= k < |frames| :: Mirrored(events, frames, k)
  {
    hide Passes, Frames, Batch, RunChain, AllPass;
    var events, frames := RunBulk(ms, insert).events, Frames(ms, 0, 0);
    var depth := TraceIsNested(ms, 0, 0, FirstHand(ms[0]), [], insert);
    InsertsExactlyOnce(ms, insert);
    if |events| == 2 * depth {
      forall k | 0 <= k < |events| ensures !events[k].Inserted? {
        if k < depth {
          assert Mirrored(events, frames, k);
        } else {
          assert Mirrored(events, frames, |events| - 1 - k);
        }
      }
      NoInsertNoBatch(events);
      assert false;
    }
    forall k | 0 <= k < |events| && k != depth ensures !events[k].Inserted? {
      if k < depth {
        assert Mirrored(events, frames, k);
      } else {
        assert Mirrored(events, frames, |events| - 1 - k);
      }
    }
    SplitAtInsert(events, depth);
  }

  lemma SplitAtInsert(events: seq<Event>, depth: nat)
    requires depth < |events| && events[depth].Inserted?
    requires forall k | 0 <= k < |events| && k != depth :: !events[k].Inserted?
    ensures Inserts(events) == [events[depth]]
  {
    var before, after := events[..depth], events[depth + 1..];
    NoInsertNoBatch(before);
    NoInsertNoBatch(after);
    assert events == before + ([events[depth]] + after);
    InsertsConcat(before, [events[depth]] + after);
  }

  // ---------------------------------------------------------------------
  // All or nothing
  // ---------------------------------------------------------------------

  /** The hook reports success exactly when what it wraps succeeded; it may replace one error by another. */
  ghost predicate Honest(hook: Hook) {
    hook.Hook? && forall e: Option<SaveError> :: hook.reply(e).None? <==> e.None?
  }

  ghost predicate AllHonest(ms: seq<Member>) {
    forall i | 0 <= i < |ms| :: forall h | 0 <= h < |ms[i].hooks| :: Honest(ms[i].hooks[h])
  }

  function Range(i: nat, n: nat): (r: set<nat>)
    ensures forall k :: k in r <==> i <= k < n
    decreases n - i
  {
    if i < n then {i} + Range(i + 1, n) else {}
  }

  lemma {:induction false} ChainAllOrNothing(
    ms: seq<Member>, i: nat, h: nat, hand: Hand, filled: seq<Draft>, insert: Insert)
    requires i < |ms| && h <= |ms[i].hooks| && NoNil(ms) && AllHonest(ms)
    ensures var out := RunChain(ms, i, h, hand, filled, insert);
            && (out.err.None? <==>
                && PassesFrom(ms[i].hooks, h, hand) && AllPass(ms, i + 1)
                && insert(Specs(filled + [Reaches(ms[i].hooks, h, hand).value.given] + Batch(ms, i + 1))).None?)
            && out.done == if out.err.None? then Range(i, |ms|) else {}
    decreases |ms| - i, |ms[i].hooks| - h
  {
    hide Check;
    if h < |ms[i].hooks| {
      var hook := ms[i].hooks[h];
      assert Honest(hook);
      if !hook.handOn(hand.given).Refuse? {
        ChainAllOrNothing(ms, i, h + 1, HandedOn(hook, hand), filled, insert);
      }
    } else {
      var slots := filled + [hand.given];
      if Check(hand.own).None? && i + 1 < |ms| {
        ChainAllOrNothing(ms, i + 1, 0, FirstHand(ms[i + 1]), slots, insert);
        if AllPass(ms, i + 1) {
          BatchStep(ms, i + 1, slots);
        }
        assert Range(i, |ms|) == Range(i + 1, |ms|) + {i};
      } else if Check(hand.own).None? {
        assert slots + Batch(ms, i + 1) == slots;
        assert Range(i, |ms|) == {i};
      }
    }
  }

  /**
    With hooks that report honestly a bulk create is all or nothing: it succeeds
    exactly when every builder passes and the insert succeeds, and then all the
    mutations are done; otherwise none is.
   */
  lemma AllOrNothing(ms: seq<Member>, insert: Insert)
    requires NoNil(ms) && ms != [] && AllHonest(ms)
    ensures var out := RunBulk(ms, insert);
            && (out.err.None? <==> AllPass(ms, 0) && insert(Specs(Batch(ms, 0))).None?)
            && out.done == if out.err.None? then Range(0, |ms|) else {}
  {
    ChainAllOrNothing(ms, 0, 0, FirstHand(ms[0]), [], insert);
    if AllPass(ms, 0) {
      BatchStep(ms, 0, []);
      assert [] + [Handed(ms[0])] + Batch(ms, 1) == [] + Batch(ms, 0) == Batch(ms, 0);
    }
  }

  /** What the hooks of a builder make of the outcome of its body. */
  function Replied(hooks: seq<Hook>, h: nat, err: Option<SaveError>): Option<SaveError>
    requires h <= |hooks| && Initialized(hooks)
    decreases |hooks| - h
  {
    if h == |hooks| then err else hooks[h].reply(Replied(hooks, h + 1, err))
  }

  /** The outcome of the body of builder `i`, given that of the insert. */
  function BodyError(ms: seq<Member>, i: nat, inserted: Option<SaveError>): Option<SaveError>
    requires i < |ms| && NoNil(ms)
    decreases |ms| - i
  {
    if i + 1 == |ms| then inserted else Replied(ms[i + 1].hooks, 0, BodyError(ms, i + 1, inserted))
  }

  function DoneFrom(ms: seq<Member>, i: nat, inserted: Option<SaveError>): set<nat>
    requires NoNil(ms)
  {
    set k: nat | i <= k < |ms| && BodyError(ms, k, inserted).None?
  }

  lemma {:induction false} ChainOutcome(
    ms: seq<Member>, i: nat, h: nat, hand: Hand, filled: seq<Draft>, insert: Insert)
    requires i < |ms| && h <= |ms[i].hooks| && NoNil(ms)
    requires PassesFrom(ms[i].hooks, h, hand) && AllPass(ms, i + 1)
    ensures var out := RunChain(ms, i, h, hand, filled, insert);
            var inserted := insert(Specs(filled + [Reaches(ms[i].hooks, h, hand).value.given] + Batch(ms, i + 1)));
            && out.err == Replied(ms[i].hooks, h, BodyError(ms, i, inserted))
            && out.done == DoneFrom(ms, i, inserted)
            && out.filled == filled + [Reaches(ms[i].hooks, h, hand).value.given] + Batch(ms, i + 1)
    decreases |ms| - i, |ms[i].hooks| - h
  {
    hide Check;
    if h < |ms[i].hooks| {
      ChainOutcome(ms, i, h + 1, HandedOn(ms[i].hooks[h], hand), filled, insert);
    } else {
      var slots := filled + [hand.given];
      if i + 1 < |ms| {
        ChainOutcome(ms, i + 1, 0, FirstHand(ms[i + 1]), slots, insert);
        BatchStep(ms, i + 1, slots);
        var inserted := insert(Specs(slots + Batch(ms, i + 1)));
        var later := DoneFrom(ms, i + 1, inserted);
        assert DoneFrom(ms, i, inserted) == if BodyError(ms, i, inserted).None? then later + {i} else later;
      } else {
        assert slots + Batch(ms, i + 1) == slots;
        var inserted := insert(Specs(slots));
        assert DoneFrom(ms, i, inserted) == if inserted.None? then {i} else {};
      }
    }
  }

  /** What any hooks at all make of a bulk create whose builders pass; every slot is filled from its own builder. */
  lemma OutcomeOfAnyHooks(ms: seq<Member>, insert: Insert)
    requires NoNil(ms) && ms != [] && AllPass(ms, 0)
    ensures var out, inserted := RunBulk(ms, insert), insert(Specs(Batch(ms, 0)));
            && out.err == Replied(ms[0].hooks, 0, BodyError(ms, 0, inserted))
            && out.done == DoneFrom(ms, 0, inserted)
            && out.filled == Batch(ms, 0)
  {
    ChainOutcome(ms, 0, 0, FirstHand(ms[0]), [], insert);
    BatchStep(ms, 0, []);
    assert [] + [Handed(ms[0])] + Batch(ms, 1) == [] + Batch(ms, 0) == Batch(ms, 0);
  }

  /**
    Without honesty it fails: of the builders before a hook that turns the
    outcome round, none agrees with the insert any more. Here the last builder
    has the one dishonest hook list.
   */
  lemma {:induction false} DishonestTail(ms: seq<Member>, i: nat, inserted: Option<SaveError>)
    requires NoNil(ms) && i + 1 < |ms|
    requires forall k | 0 <= k < |ms| - 1 :: forall h | 0 <= h < |ms[k].hooks| :: Honest(ms[k].hooks[h])
    ensures BodyError(ms, i, inserted).None? <==> Replied(ms[|ms| - 1].hooks, 0, inserted).None?
    decreases |ms| - i
  {
    if i + 2 < |ms| {
      DishonestTail(ms, i + 1, inserted);
      HonestReplies(ms[i + 1].hooks, 0, BodyError(ms, i + 1, inserted));
    } else {
      assert BodyError(ms, i + 1, inserted) == inserted;
    }
  }

  lemma {:induction false} HonestReplies(hooks: seq<Hook>, h: nat, err: Option<SaveError>)
    requires h <= |hooks| && Initialized(hooks)
    requires forall k | 0 <= k < |hooks| :: Honest(hooks[k])
    ensures Replied(hooks, h, err).None? <==> err.None?
    decreases |hooks| - h
  {
    if h < |hooks| {
      HonestReplies(hooks, h + 1, err);
      assert Honest(hooks[h]);
    }
  }

  /**
    If only the last builder's hooks may be dishonest, the outcome agrees with the
    insert exactly when they keep it: a hook that fails after the rows were stored
    leaves the last mutation done and the others not, with an error; one that
    recovers leaves the others done and no row stored, without an error.
   */
  lemma AgreesIffKept(ms: seq<Member>, insert: Insert)
    requires NoNil(ms) && |ms| > 1 && AllPass(ms, 0)
    requires forall k | 0 <= k < |ms| - 1 :: forall h | 0 <= h < |ms[k].hooks| :: Honest(ms[k].hooks[h])
    ensures var out, inserted, last := RunBulk(ms, insert), insert(Specs(Batch(ms, 0))), |ms| - 1;
            var replied := Replied(ms[last].hooks, 0, inserted);
            && (out.err.None? <==> replied.None?)
            && out.done == (if replied.None? then Range(0, last) else {}) + (if inserted.None? then {last} else {})
            && (out.done == (if inserted.None? then Range(0, |ms|) else {}) <==> (replied.None? <==> inserted.None?))
  {
    hide Passes, AllPass, Batch, RunBulk, Honest, Replied;
    OutcomeOfAnyHooks(ms, insert);
    var inserted, last := insert(Specs(Batch(ms, 0))), |ms| - 1;
    forall k | 0 <= k < last
      ensures BodyError(ms, k, inserted).None? <==> Replied(ms[last].hooks, 0, inserted).None?
    {
      DishonestTail(ms, k, inserted);
    }
    HonestReplies(ms[0].hooks, 0, BodyError(ms, 0, inserted));
    assert BodyError(ms, last, inserted) == inserted;
    assert 0 in Range(0, last) && 0 in Range(0, |ms|);
  }

  // ---------------------------------------------------------------------
  // Any hooks, and chains that stop
  // ---------------------------------------------------------------------

  /** What builder's hooks from `h` on answer, if what its body calls answers `inner`. */
  function Answered(hooks: seq<Hook>, h: nat, hand: Hand, inner: Option<SaveError>): Option<SaveError>
    requires h <= |hooks| && Initialized(hooks)
    decreases |hooks| - h
  {
    if h == |hooks| then if Check(hand.own).Some? then Some(Invalid(Check(hand.own).value)) else inner
    else
      var next := hooks[h].handOn(hand.given);
      if next.Refuse? then Some(next.error)
      else hooks[h].reply(Answered(hooks, h + 1, HandedOn(hooks[h], hand), inner))
  }

  /** What builder `i` answers, and so what the body before it receives; after the last builder, the insert. */
  function AnswerOf(ms: seq<Member>, i: nat, inserted: Option<SaveError>): Option<SaveError>
    requires i <= |ms| && NoNil(ms)
    decreases |ms| - i
  {
    if i == |ms| then inserted
    else Answered(ms[i].hooks, 0, FirstHand(ms[i]), AnswerOf(ms, i + 1, inserted))
  }

  /** The bodies that go on: those of the builders that pass together with all before them. */
  predicate GoesOn(ms: seq<Member>, i: nat, k: nat)
    requires k < |ms| && NoNil(ms)
  {
    forall j | i <= j <= k :: Passes(ms[j])
  }

  function DoneWhere(ms: seq<Member>, i: nat, inserted: Option<SaveError>): set<nat>
    requires NoNil(ms)
  {
    set k: nat | i <= k < |ms| && GoesOn(ms, i, k) && AnswerOf(ms, k + 1, inserted).None?
  }

  /** What the insert answers, if it is reached. */
  function InsertOf(ms: seq<Member>, i: nat, filled: seq<Draft>, insert: Insert): Option<SaveError>
    requires i <= |ms| && NoNil(ms)
  {
    if AllPass(ms, i) then insert(Specs(filled + Batch(ms, i))) else None
  }

  lemma {:induction false} AnsweredIgnores(
    hooks: seq<Hook>, h: nat, hand: Hand, a: Option<SaveError>, b: Option<SaveError>)
    requires h <= |hooks| && Initialized(hooks) && !PassesFrom(hooks, h, hand)
    ensures Answered(hooks, h, hand, a) == Answered(hooks, h, hand, b)
    decreases |hooks| - h
  {
    if h < |hooks| && !hooks[h].handOn(hand.given).Refuse? {
      AnsweredIgnores(hooks, h + 1, HandedOn(hooks[h], hand), a, b);
    }
  }

  /** Hooks that pass only reply. */
  lemma {:induction false} AnsweredReplies(hooks: seq<Hook>, h: nat, hand: Hand, inner: Option<SaveError>)
    requires h <= |hooks| && Initialized(hooks) && PassesFrom(hooks, h, hand)
    ensures Answered(hooks, h, hand, inner) == Replied(hooks, h, inner)
    decreases |hooks| - h
  {
    if h < |hooks| {
      AnsweredReplies(hooks, h + 1, HandedOn(hooks[h], hand), inner);
    }
  }

  /** One builder's part of the outcome, given that of what its body calls. */
  lemma {:induction false} OneBuilder(
    ms: seq<Member>, i: nat, h: nat, hand: Hand, filled: seq<Draft>, insert: Insert, inner: Outcome)
    requires i < |ms| && h <= |ms[i].hooks| && NoNil(ms)
    requires PassesFrom(ms[i].hooks, h, hand) ==>
               inner == AfterBody(ms, i, filled + [Reaches(ms[i].hooks, h, hand).value.given], insert)
    ensures var out := RunChain(ms, i, h, hand, filled, insert);
            && out.err == Answered(ms[i].hooks, h, hand, inner.err)
            && out.done == (if !PassesFrom(ms[i].hooks, h, hand) then {}
                            else if inner.err.None? then inner.done + {i} else inner.done)
    decreases |ms[i].hooks| - h
  {
    hide Check, AfterBody;
    if h < |ms[i].hooks| {
      if !ms[i].hooks[h].handOn(hand.given).Refuse? {
        OneBuilder(ms, i, h + 1, HandedOn(ms[i].hooks[h], hand), filled, insert, inner);
      }
    } else {
      BodyCalls(ms, i, hand, filled, insert);
    }
  }

  /** What a body calls once its slot is filled. */
  function AfterBody(ms: seq<Member>, i: nat, slots: seq<Draft>, insert: Insert): Outcome
    requires i < |ms| && NoNil(ms)
  {
    if i + 1 < |ms| then RunChain(ms, i + 1, 0, FirstHand(ms[i + 1]), slots, insert)
    else Outcome([InsertEvent(slots)], insert(Specs(slots)), slots, {})
  }

  lemma BodyCalls(ms: seq<Member>, i: nat, hand: Hand, filled: seq<Draft>, insert: Insert)
    requires i < |ms| && NoNil(ms)
    ensures var out, inner := RunBody(ms, i, hand, filled, insert), AfterBody(ms, i, filled + [hand.given], insert);
            if Check(hand.own).Some? then out.err == Some(Invalid(Check(hand.own).value)) && out.done == {}
            else out.err == inner.err && out.done == if inner.err.None? then inner.done + {i} else inner.done
  {
  }

  lemma {:induction false} ChainAnswers(ms: seq<Member>, i: nat, filled: seq<Draft>, insert: Insert)
    requires i < |ms| && NoNil(ms)
    ensures var out, inserted := RunChain(ms, i, 0, FirstHand(ms[i]), filled, insert), InsertOf(ms, i, filled, insert);
            out.err == AnswerOf(ms, i, inserted) && out.done == DoneWhere(ms, i, inserted)
    decreases |ms| - i
  {
    hide Check, Reaches, RunChain, Answered;
    var m, inserted := ms[i], InsertOf(ms, i, filled, insert);
    if Passes(m) {
      var slots := filled + [Handed(m)];
      var inner := AfterBody(ms, i, slots, insert);
      OneBuilder(ms, i, 0, FirstHand(m), filled, insert, inner);
      InsertsAlike(ms, i, filled, insert);
      if i + 1 < |ms| {
        ChainAnswers(ms, i + 1, slots, insert);
      } else {
        assert slots + Batch(ms, i + 1) == slots;
      }
      DoneSplits(ms, i, inserted);
    } else {
      var nothing := Stopped(filled);
      OneBuilder(ms, i, 0, FirstHand(m), filled, insert, nothing);
      AnsweredIgnores(m.hooks, 0, FirstHand(m), nothing.err, AnswerOf(ms, i + 1, inserted));
      assert forall k | i <= k < |ms| :: !GoesOn(ms, i, k);
    }
  }

  lemma InsertsAlike(ms: seq<Member>, i: nat, filled: seq<Draft>, insert: Insert)
    requires i < |ms| && NoNil(ms) && Passes(ms[i])
    ensures InsertOf(ms, i, filled, insert) == InsertOf(ms, i + 1, filled + [Handed(ms[i])], insert)
  {
    hide Passes;
    assert AllPass(ms, i) <==> AllPass(ms, i + 1);
    if AllPass(ms, i) {
      BatchStep(ms, i, filled);
    }
  }

  lemma DoneSplits(ms: seq<Member>, i: nat, inserted: Option<SaveError>)
    requires i < |ms| && NoNil(ms) && Passes(ms[i])
    ensures DoneWhere(ms, i, inserted) ==
            DoneWhere(ms, i + 1, inserted) + if AnswerOf(ms, i + 1, inserted).None? then {i} else {}
  {
    hide Passes, AnswerOf;
    assert GoesOn(ms, i, i);
    assert forall k | i < k < |ms| :: GoesOn(ms, i, k) <==> GoesOn(ms, i + 1, k);
  }

  /** The rows of the bulk are in the database. */
  predicate Stored(ms: seq<Member>, insert: Insert)
    requires NoNil(ms)
  {
    AllPass(ms, 0) && insert(Specs(Batch(ms, 0))).None?
  }

  /** Error and done mutations of any bulk at all: any hooks, and whether or not the chain gets to the insert. */
  lemma OutcomeOfAnyBulk(ms: seq<Member>, insert: Insert)
    requires NoNil(ms) && ms != []
    ensures var out, inserted := RunBulk(ms, insert), InsertOf(ms, 0, [], insert);
            out.err == AnswerOf(ms, 0, inserted) && out.done == DoneWhere(ms, 0, inserted)
    ensures Stored(ms, insert) <==> AllPass(ms, 0) && InsertOf(ms, 0, [], insert).None?
  {
    ChainAnswers(ms, 0, [], insert);
    if AllPass(ms, 0) {
      assert [] + Batch(ms, 0) == Batch(ms, 0);
    }
  }

  /**
    Exactly when a bulk create is all or nothing, whatever its hooks are: every body
    that goes on is told the truth about whether the rows were stored; and the error
    is right exactly when the first builder's answer is.
   */
  lemma AllOrNothingIff(ms: seq<Member>, insert: Insert)
    requires NoNil(ms) && ms != []
    ensures RunBulk(ms, insert).done == (if Stored(ms, insert) then Range(0, |ms|) else {}) <==>
            forall k | 0 <= k < |ms| && GoesOn(ms, 0, k) ::
              AnswerOf(ms, k + 1, InsertOf(ms, 0, [], insert)).None? <==> Stored(ms, insert)
    ensures RunBulk(ms, insert).err.None? <==> AnswerOf(ms, 0, InsertOf(ms, 0, [], insert)).None?
  {
    hide Passes, AnswerOf, RunBulk, Batch;
    OutcomeOfAnyBulk(ms, insert);
    var inserted := InsertOf(ms, 0, [], insert);
    var done, all := DoneWhere(ms, 0, inserted), Range(0, |ms|);
    assert Stored(ms, insert) ==> forall k | 0 <= k < |ms| :: GoesOn(ms, 0, k);
    forall k | 0 <= k < |ms| && GoesOn(ms, 0, k)
      ensures k in done <==> AnswerOf(ms, k + 1, inserted).None?
    {
    }
    if forall k | 0 <= k < |ms| && GoesOn(ms, 0, k) :: k in done <==> Stored(ms, insert) {
      assert forall k :: k in done <==> k in if Stored(ms, insert) then all else {};
    }
  }

  /** Every body is told the truth about the insert. */
  predicate AllTold(ms: seq<Member>, inserted: Option<SaveError>)
    requires NoNil(ms)
  {
    forall k | 0 <= k < |ms| :: BodyError(ms, k, inserted).None? <==> inserted.None?
  }

  /** What the hooks of each builder but the first make of what they are told agrees with the insert. */
  predicate AllKept(ms: seq<Member>, inserted: Option<SaveError>)
    requires NoNil(ms)
  {
    forall k | 0 < k < |ms| :: Replied(ms[k].hooks, 0, BodyError(ms, k, inserted)).None? <==> inserted.None?
  }

  /** If all builders pass, that is: the hooks of every builder but the first keep the outcome of the insert. */
  lemma AllOrNothingOfPassing(ms: seq<Member>, insert: Insert)
    requires NoNil(ms) && ms != [] && AllPass(ms, 0)
    ensures var inserted := insert(Specs(Batch(ms, 0)));
            RunBulk(ms, insert).done == (if inserted.None? then Range(0, |ms|) else {}) <==> AllKept(ms, inserted)
  {
    hide Passes, RunBulk, Batch, Replied, BodyError, Range, AnswerOf;
    var inserted := insert(Specs(Batch(ms, 0)));
    AllOrNothingIff(ms, insert);
    assert [] + Batch(ms, 0) == Batch(ms, 0);
    forall k | 0 <= k < |ms|
      ensures GoesOn(ms, 0, k)
      ensures AnswerOf(ms, k + 1, inserted).None? == BodyError(ms, k, inserted).None?
    {
      AnswersArePassedOn(ms, k, inserted);
    }
    if AllKept(ms, inserted) {
      KeptIsTold(ms, inserted);
    }
    if AllTold(ms, inserted) {
      ToldIsKept(ms, inserted);
    }
  }

  lemma BodyErrorStep(ms: seq<Member>, k: nat, inserted: Option<SaveError>)
    requires NoNil(ms) && k < |ms|
    ensures BodyError(ms, k, inserted) ==
            if k + 1 == |ms| then inserted else Replied(ms[k + 1].hooks, 0, BodyError(ms, k + 1, inserted))
  {
  }

  lemma KeptIsTold(ms: seq<Member>, inserted: Option<SaveError>)
    requires NoNil(ms) && AllKept(ms, inserted)
    ensures AllTold(ms, inserted)
  {
    hide Replied, BodyError;
    forall k | 0 <= k < |ms|
      ensures BodyError(ms, k, inserted).None? <==> inserted.None?
    {
      BodyErrorStep(ms, k, inserted);
      var j := k + 1;
      if j < |ms| {
        assert Replied(ms[j].hooks, 0, BodyError(ms, j, inserted)).None? <==> inserted.None?;
      }
    }
  }

  lemma ToldIsKept(ms: seq<Member>, inserted: Option<SaveError>)
    requires NoNil(ms) && AllTold(ms, inserted)
    ensures AllKept(ms, inserted)
  {
    hide Replied, BodyError;
    forall k | 0 < k < |ms|
      ensures Replied(ms[k].hooks, 0, BodyError(ms, k, inserted)).None? <==> inserted.None?
    {
      var j := k - 1;
      BodyErrorStep(ms, j, inserted);
      assert BodyError(ms, j, inserted).None? <==> inserted.None?;
    }
  }

  lemma {:induction false} AnswersArePassedOn(ms: seq<Member>, k: nat, inserted: Option<SaveError>)
    requires NoNil(ms) && AllPass(ms, 0) && k < |ms|
    ensures AnswerOf(ms, k + 1, inserted) == BodyError(ms, k, inserted)
    decreases |ms| - k
  {
    if k + 1 < |ms| {
      AnswersArePassedOn(ms, k + 1, inserted);
      AnsweredReplies(ms[k + 1].hooks, 0, FirstHand(ms[k + 1]), AnswerOf(ms, k + 2, inserted));
    }
  }

  // ---------------------------------------------------------------------
  // A bulk of one builder
  // ---------------------------------------------------------------------

  lemma {:induction false} OneIsSingle(m: Member, h: nat, hand: Hand, insert: Insert)
    requires Initialized(m.hooks) && h <= |m.hooks|
    ensures var reached := Reaches(m.hooks, h, hand);
            if reached.Some? ==> Check(reached.value.own) == Check(reached.value.given)
            then RunChain([m], 0, h, hand, [], insert) == RunSingle(m.hooks, h, hand, insert)
            else RunChain([m], 0, h, hand, [], insert).events != RunSingle(m.hooks, h, hand, insert).events
    decreases |m.hooks| - h
  {
    hide Check;
    if h < |m.hooks| {
      var hook := m.hooks[h];
      if !hook.handOn(hand.given).Refuse? {
        var next := HandedOn(hook, hand);
        OneIsSingle(m, h + 1, next, insert);
        var bulk, single := RunChain([m], 0, h + 1, next, [], insert), RunSingle(m.hooks, h + 1, next, insert);
        WrapInjective(HookFrame(0, h), bulk, single, hook.reply(bulk.err), hook.reply(single.err));
      }
    } else {
      BodyOfOne(m, hand, insert);
    }
  }

  lemma {:induction false} BodyOfOne(m: Member, hand: Hand, insert: Insert)
    requires Initialized(m.hooks)
    ensures Check(hand.own) == Check(hand.given) ==>
              RunBody([m], 0, hand, [], insert) == RunSingle(m.hooks, |m.hooks|, hand, insert)
    ensures Check(hand.own) != Check(hand.given) ==>
              RunBody([m], 0, hand, [], insert).events != RunSingle(m.hooks, |m.hooks|, hand, insert).events
  {
    hide Check;
    var slots := [hand.given];
    assert [] + [hand.given] == slots;
    var x, y := RunBody([m], 0, hand, [], insert).events, RunSingle(m.hooks, |m.hooks|, hand, insert).events;
    if Check(hand.own).Some? && Check(hand.given).Some? {
      assert x[1] == Leave(BodyFrame(0), Some(Invalid(Check(hand.own).value)));
      assert y[1] == Leave(BodyFrame(0), Some(Invalid(Check(hand.given).value)));
    } else if Check(hand.own).Some? != Check(hand.given).Some? {
      assert |x| != |y|;
    }
  }

  lemma WrapInjective(f: Frame, a: Outcome, b: Outcome, aErr: Option<SaveError>, bErr: Option<SaveError>)
    ensures Wrap(f, a, aErr).events == Wrap(f, b, bErr).events ==> a.events == b.events
  {
    var wa, wb := Wrap(f, a, aErr).events, Wrap(f, b, bErr).events;
    assert a.events == wa[1..|wa| - 1] && b.events == wb[1..|wb| - 1];
  }

  /**
    A bulk of one builder does what a single `Save` does, step by step, exactly
    when `check` says the same of the builder's own mutation and of the one the
    hooks hand on: the bulk checks the first, the single save the second.
   */
  lemma BulkOfOneIsSingle(m: Member, insert: Insert)
    requires Initialized(m.hooks)
    ensures var reached := Reaches(m.hooks, 0, FirstHand(m));
            RunBulk([m], insert) == RunSingle(m.hooks, 0, FirstHand(m), insert) <==>
            (reached.Some? ==> Check(reached.value.own) == Check(reached.value.given))
  {
    OneIsSingle(m, 0, FirstHand(m), insert);
  }

  /** Hooks that edit the mutation in place hand on the builder's own. */
  lemma {:induction false} InPlaceHooksKeepOwn(hooks: seq<Hook>, h: nat, hand: Hand)
    requires h <= |hooks| && Initialized(hooks) && hand.same && hand.own == hand.given
    requires forall k, d | 0 <= k < |hooks| :: !hooks[k].handOn(d).Replacement?
    ensures var reached := Reaches(hooks, h, hand);
            reached.Some? ==> reached.value.own == reached.value.given
    decreases |hooks| - h
  {
    if h < |hooks| && !hooks[h].handOn(hand.given).Refuse? {
      InPlaceHooksKeepOwn(hooks, h + 1, HandedOn(hooks[h], hand));
    }
  }

  lemma InPlaceBulkOfOneIsSingle(m: Member, insert: Insert)
    requires Initialized(m.hooks) && forall k, d | 0 <= k < |m.hooks| :: !m.hooks[k].handOn(d).Replacement?
    ensures RunBulk([m], insert) == RunSingle(m.hooks, 0, FirstHand(m), insert)
  {
    InPlaceHooksKeepOwn(m.hooks, 0, FirstHand(m));
    BulkOfOneIsSingle(m, insert);
  }

  // ---------------------------------------------------------------------
  // A single save
  // ---------------------------------------------------------------------

  function SingleFrames(hooks: seq<Hook>, h: nat): seq<Frame>
    requires h <= |hooks|
    decreases |hooks| - h
  {
    if h < |hooks| then [HookFrame(0, h)] + SingleFrames(hooks, h + 1) else [BodyFrame(0)]
  }

  /**
    The hooks run around the body with the first one outermost, and the insert,
    if it happens, sees the mutation that the innermost hook handed on.
   */
  lemma {:induction false} SingleIsNested(m: Member, h: nat, hand: Hand, insert: Insert) returns (depth: nat)
    requires Initialized(m.hooks) && h <= |m.hooks|
    ensures Nested(RunSingle(m.hooks, h, hand, insert).events, SingleFrames(m.hooks, h), depth)
    ensures var reached := Reaches(m.hooks, h, hand);
            Inserts(RunSingle(m.hooks, h, hand, insert).events) ==
            if reached.Some? && Check(reached.value.given).None? then [InsertEvent([reached.value.given])] else []
    decreases |m.hooks| - h
  {
    hide Nested, Check;
    if h < |m.hooks| {
      var hook, f, rest := m.hooks[h], HookFrame(0, h), SingleFrames(m.hooks, h + 1);
      if hook.handOn(hand.given).Refuse? {
        StoppedNested(f, [], Some(hook.handOn(hand.given).error), rest);
        WrapInserts(f, Stopped([]), Some(hook.handOn(hand.given).error));
        depth := 1;
      } else {
        var next := HandedOn(hook, hand);
        depth := SingleIsNested(m, h + 1, next, insert);
        var inner := RunSingle(m.hooks, h + 1, next, insert);
        WrapNested(f, inner, hook.reply(inner.err), rest, depth);
        WrapInserts(f, inner, hook.reply(inner.err));
        depth := depth + 1;
      }
    } else {
      SingleBodyIsNested(m, hand, insert);
      depth := 1;
    }
  }

  lemma SingleBodyIsNested(m: Member, hand: Hand, insert: Insert)
    requires Initialized(m.hooks)
    ensures Nested(RunSingle(m.hooks, |m.hooks|, hand, insert).events, [BodyFrame(0)], 1)
    ensures Inserts(RunSingle(m.hooks, |m.hooks|, hand, insert).events) ==
            if Check(hand.given).None? then [InsertEvent([hand.given])] else []
  {
    hide Check;
    var f := BodyFrame(0);
    if Check(hand.given).Some? {
      StoppedNested(f, [], Some(Invalid(Check(hand.given).value)), []);
      WrapInserts(f, Stopped([]), Some(Invalid(Check(hand.given).value)));
    } else {
      var slots := [hand.given];
      assert Specs(slots) == [SpecOf(hand.given)];
      var err := insert(Specs(slots));
      var inner := Outcome([InsertEvent(slots)], err, slots, if err.None? then {0} else {});
      assert inner.events[1..] == [] && Inserts(inner.events) == [InsertEvent(slots)];
      WrapNested(f, inner, err, [], 0);
      WrapInserts(f, inner, err);
    }
  }

  /** Hooks that look at the mutation, hand it on or refuse, but change nothing in it. */
  ghost predicate EditsNothing(hooks: seq<Hook>) {
    Initialized(hooks) && forall k, d | 0 <= k < |hooks| :: hooks[k].edit(d) == d
  }

  lemma {:induction false} UneditedReaches(hooks: seq<Hook>, h: nat, hand: Hand)
    requires EditsNothing(hooks) && h <= |hooks|
    ensures Reaches(hooks, h, hand).Some? ==> Reaches(hooks, h, hand).value.given == hand.given
    decreases |hooks| - h
  {
    if h < |hooks| && !hooks[h].handOn(hand.given).Refuse? {
      UneditedReaches(hooks, h + 1, HandedOn(hooks[h], hand));
    }
  }

  /** Around such hooks a single save inserts the builder's own draft. */
  lemma SingleInsertsOwn(m: Member, insert: Insert)
    requires EditsNothing(m.hooks)
    ensures forall e | e in Inserts(RunSingle(m.hooks, 0, FirstHand(m), insert).events) ::
              e == InsertEvent([m.draft])
  {
    UneditedReaches(m.hooks, 0, FirstHand(m));
    var _ := SingleIsNested(m, 0, FirstHand(m), insert);
  }

  /** And a bulk those of all builders, in order. */
  lemma BulkInsertsOwn(ms: seq<Member>, insert: Insert)
    requires NoNil(ms) && forall k | 0 <= k < |ms| :: EditsNothing(ms[k].hooks)
    ensures forall e | e in Inserts(RunBulk(ms, insert).events) ::
              && e.Inserted? && |e.batch| == |ms| && forall k | 0 <= k < |ms| :: e.batch[k] == SpecOf(ms[k].draft)
  {
    hide SpecOf, Passes, RunChain;
    if ms != [] {
      InsertsExactlyOnce(ms, insert);
      if AllPass(ms, 0) {
        forall k | 0 <= k < |ms|
          ensures Batch(ms, 0)[k] == ms[k].draft
        {
          assert Passes(ms[0 + k]);
          HandedIsOwn(ms[k]);
        }
      }
    }
  }

  lemma HandedIsOwn(m: Member)
    requires EditsNothing(m.hooks) && Passes(m)
    ensures Handed(m) == m.draft
  {
    UneditedReaches(m.hooks, 0, FirstHand(m));
  }

  /**
    A hook that hands on a new mutation makes the two differ: the bulk inserts a
    mutation that fails `check`, and rejects one that passes it.
   */
  lemma ReplacementIsNotChecked(d: Draft, other: Draft, insert: Insert)
    requires Check(d).None? != Check(other).None?
    ensures var m := Member(d, [Hook(_ => other, _ => Replacement, e => e)]);
            && Inserts(RunBulk([m], insert).events) == (if Check(d).None? then [InsertEvent([other])] else [])
            && Inserts(RunSingle(m.hooks, 0, FirstHand(m), insert).events) ==
               (if Check(other).None? then [InsertEvent([other])] else [])
  {
    hide Check, SpecOf, RunChain, RunSingle;
    var m := Member(d, [Hook(_ => other, _ => Replacement, e => e)]);
    assert HandedOn(m.hooks[0], FirstHand(m)) == Hand(d, other, false);
    assert Reaches(m.hooks, 1, Hand(d, other, false)) == Some(Hand(d, other, false));
    InsertsExactlyOnce([m], insert);
    if Check(d).None? {
      assert Batch([m], 0) == [other];
    }
    var _ := SingleIsNested(m, 0, FirstHand(m), insert);
  }
}
