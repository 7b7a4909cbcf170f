/**
 What holds over every run of the two getDefault functions of CL/cl.hpp:
 exclusion, agreement, reference counts, where the default queue comes from,
 and progress.
 */
module SpinTheorems {
  import opened Basics
  import S = SpinSlot
  import R = SpinRuns
  import opened SpinDefault

  datatype Level = Ctx | Que

  function SlotOf(s: State, l: Level): S.Slot {
    if l.Ctx? then s.ctx else s.que
  }

  lemma StartInv()
    ensures Inv(Start())
  {
    R.FreshInv();
  }

  lemma {:induction false} RunInv(s: State, acts: seq<Action>)
    requires Inv(s) && Runs(s, acts)
    ensures Inv(Exec(s, acts))
    decreases |acts|
  {
    if acts != [] {
      InvKept(s, acts[0]);
      RunInv(Apply(s, acts[0]), acts[1..]);
    }
  }

  // ------------------------------------------------- each level by itself is a run of one slot

  function EventsOf(s: State, acts: seq<Action>, l: Level): seq<S.Event>
    requires Runs(s, acts)
    decreases |acts|
  {
    if acts == [] then [] else
    var ev := if l.Ctx? then CtxEvent(s, acts[0]) else QueEvent(s, acts[0]);
    (if ev.Some? then [ev.value] else []) + EventsOf(Apply(s, acts[0]), acts[1..], l)
  }

  /** The nested protocol refines two independent slots. */
  lemma {:induction false} Projects(s: State, acts: seq<Action>, l: Level)
    requires Runs(s, acts)
    ensures S.Runs(SlotOf(s, l), EventsOf(s, acts, l))
    ensures S.Exec(SlotOf(s, l), EventsOf(s, acts, l)) == SlotOf(Exec(s, acts), l)
    decreases |acts|
  {
    if acts != [] {
      var t := Apply(s, acts[0]);
      Projects(t, acts[1..], l);
      var ev := if l.Ctx? then CtxEvent(s, acts[0]) else QueEvent(s, acts[0]);
      var evs := EventsOf(s, acts, l);
      if ev.Some? { assert evs[1..] == EventsOf(t, acts[1..], l); }
      else { assert evs == EventsOf(t, acts[1..], l); }
    }
  }

  /** At most one call ever runs the initialising section of each default object. */
  lemma OneInitialiserEver(l: Level, a: seq<Action>, b: seq<Action>, i: nat, j: nat)
    requires Runs(Start(), a) && Runs(Exec(Start(), a), b)
    requires var s := SlotOf(Exec(Start(), a), l); i < |s.parts| && S.Initialising(s.parts[i])
    requires var t := SlotOf(Exec(Exec(Start(), a), b), l); j < |t.parts| && S.Initialising(t.parts[j])
    ensures i == j
  {
    Projects(Start(), a, l);
    Projects(Exec(Start(), a), b, l);
    R.OneInitialiserEver(EventsOf(Start(), a, l), EventsOf(Exec(Start(), a), b, l), i, j);
  }

  /** No call reads default_ or default_error_ before both have their final values. */
  lemma ReadsAreFinal(l: Level, a: seq<Action>, b: seq<Action>, i: nat)
    requires Runs(Start(), a) && Runs(Exec(Start(), a), b)
    requires var s := SlotOf(Exec(Start(), a), l); i < |s.parts| && S.Reading(s.parts[i])
    ensures var s := SlotOf(Exec(Start(), a), l); var t := SlotOf(Exec(Exec(Start(), a), b), l);
            t.stored == s.stored && t.error == s.error
  {
    Projects(Start(), a, l);
    Projects(Exec(Start(), a), b, l);
    R.ReadsAreFinal(EventsOf(Start(), a, l), EventsOf(Exec(Start(), a), b, l), i);
  }

  /** All completed calls of a run agree on the handle and on the error. */
  lemma SameAnswer(l: Level, a: seq<Action>, b: seq<Action>, i: nat, j: nat)
    requires Runs(Start(), a) && Runs(Exec(Start(), a), b)
    requires var s := SlotOf(Exec(Start(), a), l); i < |s.parts| && R.Complete(s.parts[i])
    requires var t := SlotOf(Exec(Exec(Start(), a), b), l); j < |t.parts| && R.Complete(t.parts[j])
    ensures var p := SlotOf(Exec(Start(), a), l).parts[i];
            var t := SlotOf(Exec(Exec(Start(), a), b), l);
            && p.pc.copied == t.parts[j].pc.copied == t.stored
            && p.pc.report == S.Report(p.want, t.error)
            && t.parts[j].pc.report == S.Report(t.parts[j].want, t.error)
  {
    Projects(Start(), a, l);
    Projects(Exec(Start(), a), b, l);
    R.SameAnswer(EventsOf(Start(), a, l), EventsOf(Exec(Start(), a), b, l), i, j);
  }

  /** In every reachable state an object in default_ is counted once for default_ and once per live copy. */
  lemma CountIsOnePlusCopies(l: Level, acts: seq<Action>, h: Handle)
    requires Runs(Start(), acts)
    requires SlotOf(Exec(Start(), acts), l).stored == Some(h)
    ensures var s := SlotOf(Exec(Start(), acts), l); Count(s.counts, h) == 1 + R.LiveCopies(s.parts)
  {
    Projects(Start(), acts, l);
    R.CountIsOnePlusCopies(EventsOf(Start(), acts, l), h);
  }

  /** No retain or release of a run ever hits an object whose count is zero. */
  lemma NeverTouchesDead(l: Level, acts: seq<Action>, a: Action)
    requires Runs(Start(), acts) && Enabled(Exec(Start(), acts), a)
    requires var s := Exec(Start(), acts);
             var ev := if l.Ctx? then CtxEvent(s, a) else QueEvent(s, a);
             ev.Some? && S.Touched(SlotOf(s, l), ev.value).Some?
    ensures var s := Exec(Start(), acts);
            var ev := if l.Ctx? then CtxEvent(s, a) else QueEvent(s, a);
            Count(SlotOf(s, l).counts, S.Touched(SlotOf(s, l), ev.value).value) > 0
  {
    StartInv();
    RunInv(Start(), acts);
    var s := Exec(Start(), acts);
    S.TouchedIsAlive(SlotOf(s, l), (if l.Ctx? then CtxEvent(s, a) else QueEvent(s, a)).value);
  }

  /**
   A default queue published with CL_SUCCESS was created in the published default
   context, whose own error is CL_SUCCESS; a context error becomes the queue's.
   */
  lemma QueueComesFromContext(acts: seq<Action>)
    requires Runs(Start(), acts) && Exec(Start(), acts).que.flag == S.INITIALIZED
    ensures var s := Exec(Start(), acts);
            && s.ctx.flag == S.INITIALIZED
            && (s.que.error == 0 ==> s.ctx.error == 0)
            && (s.ctx.error != 0 ==> s.que.error == s.ctx.error && s.que.stored.None?)
            && (s.que.stored.Some? ==> s.que.stored.value in s.parent && s.parent[s.que.stored.value] == s.ctx.stored)
  {
    StartInv();
    RunInv(Start(), acts);
  }

  // ------------------------------------------------- progress

  function Rank(pc: S.Pc): nat {
    match pc
    case Idle => 10
    case Enter => 9
    case Spin => 8
    case Construct => 8
    case Assign(_, _) => 7
    case PublishError(_) => 6
    case PublishFlag => 5
    case ReadError => 4
    case CopyHandle(_) => 3
    case Retain(_, _) => 2
    case Returned(_, _) => 1
    case Destroyed(_, _) => 0
  }

  function Ranks(parts: seq<S.Part>): nat {
    if parts == [] then 0 else Rank(parts[0].pc) + Ranks(parts[1..])
  }

  function Measure(s: State): nat {
    Ranks(s.ctx.parts) + Ranks(s.que.parts)
  }

  lemma {:induction false} RanksUpdate(parts: seq<S.Part>, i: nat, p: S.Part)
    requires i < |parts|
    ensures Ranks(parts[i := p]) == Ranks(parts) - Rank(parts[i].pc) + Rank(p.pc)
  {
    if i == 0 {
      assert parts[i := p][1..] == parts[1..];
    } else {
      assert parts[i := p][1..] == parts[1..][i - 1 := p];
      RanksUpdate(parts[1..], i - 1, p);
    }
  }

  lemma {:induction false} RanksAppend(parts: seq<S.Part>, p: S.Part)
    ensures Ranks(parts + [p]) == Ranks(parts) + Rank(p.pc)
  {
    if parts == [] {
      assert parts + [p] == [p];
    } else {
      assert (parts + [p])[1..] == parts[1..] + [p];
      RanksAppend(parts[1..], p);
    }
  }

  predicate SpinsOn(s: S.Slot, i: nat) {
    i < |s.parts| && s.parts[i].pc.Spin? && s.flag != S.INITIALIZED
  }

  /** Call i is in one of the two while loops and the flag it reads is not yet published. */
  predicate Spins(s: State, i: nat) {
    SpinsOn(s.ctx, i) || SpinsOn(s.que, i)
  }

  predicate Finished(s: State, i: nat)
    requires Shaped(s) && i < |s.kinds|
  {
    match s.kinds[i]
    case ContextCall => R.Complete(s.ctx.parts[i])
    case QueueCall => R.Complete(s.que.parts[i]) && !s.ctx.parts[i].pc.Returned?
  }

  /** A step of an existing call other than one more turn of a while loop. */
  predicate Productive(s: State, a: Action) {
    Enabled(s, a) && !a.Begin? && !(a.Work? && Spins(s, a.who))
  }

  lemma EventRank(s: S.Slot, ev: S.Event)
    requires S.Enabled(s, ev) && !ev.Join? && !(ev.Advance? && SpinsOn(s, ev.who))
    ensures Ranks(S.Apply(s, ev).parts) < Ranks(s.parts)
  {
    var t := S.Apply(s, ev);
    assert t.parts == s.parts[ev.who := t.parts[ev.who]];
    RanksUpdate(s.parts, ev.who, t.parts[ev.who]);
  }

  /** Every productive step decreases the measure over all calls. */
  lemma ProductiveDecreases(s: State, a: Action)
    requires Shaped(s) && Productive(s, a)
    ensures Measure(Apply(s, a)) < Measure(s)
  {
    if CtxEvent(s, a).Some? { EventRank(s.ctx, CtxEvent(s, a).value); }
    if QueEvent(s, a).Some? { EventRank(s.que, QueEvent(s, a).value); }
  }

  /** A turn of a while loop changes nothing. */
  lemma SpinningStutters(s: State, a: Action)
    requires Inv(s) && Enabled(s, a) && a.Work? && Spins(s, a.who)
    ensures Apply(s, a) == s
  {
    assert Nested(s.kinds[a.who], s.ctx.parts[a.who], s.que.parts[a.who]);
  }

  lemma CallCanStep(s: State, i: nat)
    requires Inv(s) && i < |s.kinds| && !Finished(s, i) && !Spins(s, i)
    ensures Productive(s, Work(i, None, 0))
  {
    assert Nested(s.kinds[i], s.ctx.parts[i], s.que.parts[i]);
  }

  /** A context initialiser never spins, so someone waiting for the context leads to a call that can step. */
  lemma ContextMoves(s: State) returns (j: nat)
    requires Inv(s) && s.ctx.flag == S.BEING_INITIALIZED
    ensures j < |s.kinds| && !Finished(s, j) && !Spins(s, j)
  {
    var k :| 0 <= k < |s.ctx.parts| && S.Initialising(s.ctx.parts[k]);
    j := k;
    assert Nested(s.kinds[j], s.ctx.parts[j], s.que.parts[j]);
  }

  /** A queue initialiser may only spin on the context. */
  lemma QueueMoves(s: State) returns (j: nat)
    requires Inv(s) && s.que.flag == S.BEING_INITIALIZED
    ensures j < |s.kinds| && !Finished(s, j) && !Spins(s, j)
  {
    var k :| 0 <= k < |s.que.parts| && S.Initialising(s.que.parts[k]);
    j := k;
    assert Nested(s.kinds[j], s.ctx.parts[j], s.que.parts[j]);
    if Spins(s, j) { j := ContextMoves(s); }
  }

  /** While any call is unfinished, some call has a productive step. */
  lemma SomeoneProgresses(s: State, i: nat) returns (j: nat)
    requires Inv(s) && i < |s.kinds| && !Finished(s, i)
    ensures j < |s.kinds| && Productive(s, Work(j, None, 0))
  {
    if SpinsOn(s.ctx, i) {
      j := ContextMoves(s);
    } else if SpinsOn(s.que, i) {
      j := QueueMoves(s);
    } else {
      j := i;
    }
    CallCanStep(s, j);
  }

  ghost predicate AllFinished(s: State) {
    Shaped(s) && forall i :: 0 <= i < |s.kinds| ==> Finished(s, i)
  }

  /** From every reachable state the calls already made can all be driven to completion. */
  lemma CanFinish(s: State) returns (acts: seq<Action>)
    requires Inv(s)
    ensures Runs(s, acts) && AllFinished(Exec(s, acts))
    ensures forall k :: 0 <= k < |acts| ==> acts[k].Work?
    decreases Measure(s)
  {
    if i :| 0 <= i < |s.kinds| && !Finished(s, i) {
      var j := SomeoneProgresses(s, i);
      var a := Work(j, None, 0);
      ProductiveDecreases(s, a);
      InvKept(s, a);
      var rest := CanFinish(Apply(s, a));
      acts := [a] + rest;
      assert acts[1..] == rest;
    } else {
      acts := [];
    }
  }

  function Begins(acts: seq<Action>): nat {
    if acts == [] then 0 else (if acts[0].Begin? then 1 else 0) + Begins(acts[1..])
  }

  function ProductiveSteps(s: State, acts: seq<Action>): nat
    requires Runs(s, acts)
    decreases |acts|
  {
    if acts == [] then 0 else
    (if Productive(s, acts[0]) then 1 else 0) + ProductiveSteps(Apply(s, acts[0]), acts[1..])
  }

  lemma {:induction false} StepBudget(s: State, acts: seq<Action>)
    requires Inv(s) && Runs(s, acts)
    ensures ProductiveSteps(s, acts) + Measure(Exec(s, acts)) <= Measure(s) + 19 * Begins(acts)
    decreases |acts|
  {
    if acts != [] {
      var a := acts[0];
      var t := Apply(s, a);
      InvKept(s, a);
      StepBudget(t, acts[1..]);
      if a.Begin? {
        RanksAppend(s.ctx.parts, t.ctx.parts[|s.kinds|]);
        RanksAppend(s.que.parts, t.que.parts[|s.kinds|]);
      } else if Productive(s, a) {
        ProductiveDecreases(s, a);
      } else {
        SpinningStutters(s, a);
      }
    }
  }

  /** However they interleave, n calls take at most 19 n steps that are not turns of a while loop. */
  lemma TotalWorkIsBounded(acts: seq<Action>)
    requires Runs(Start(), acts)
    ensures ProductiveSteps(Start(), acts) <= 19 * Begins(acts)
  {
    StartInv();
    StepBudget(Start(), acts);
  }

  // ------------------------------------------------- what the constructors return

  /** A call that has won the context's flag may get any new object and any code from the constructor. */
  lemma ContextConstructorReturns(acts: seq<Action>, i: nat, o: Option<Handle>, e: int)
    requires Runs(Start(), acts)
    requires var s := Exec(Start(), acts);
             i < |s.ctx.parts| && s.ctx.parts[i].pc.Construct? && (o.Some? ==> o.value !in s.ctx.counts)
    ensures Enabled(Exec(Start(), acts), Work(i, o, e))
  {
    StartInv();
    RunInv(Start(), acts);
    var s := Exec(Start(), acts);
    assert Nested(s.kinds[i], s.ctx.parts[i], s.que.parts[i]);
  }

  /** The default context is what the constructor returned to the initialising call, for every later caller. */
  lemma ContextIsAsConstructed(a: seq<Action>, i: nat, o: Option<Handle>, e: int, b: seq<Action>)
    requires Runs(Start(), a)
    requires var s := Exec(Start(), a);
             && i < |s.ctx.parts| && s.ctx.parts[i].pc.Construct? && Enabled(s, Work(i, o, e))
             && Runs(Apply(s, Work(i, o, e)), b)
             && Exec(Apply(s, Work(i, o, e)), b).ctx.flag == S.INITIALIZED
    ensures var t := Exec(Apply(Exec(Start(), a), Work(i, o, e)), b).ctx;
            && t.stored == o && t.error == e
            && forall j :: 0 <= j < |t.parts| && R.Complete(t.parts[j]) ==>
                 t.parts[j].pc.copied == o && t.parts[j].pc.report == if t.parts[j].want then Some(e) else None
  {
    StartInv();
    RunInv(Start(), a);
    var s := Exec(Start(), a);
    assert Nested(s.kinds[i], s.ctx.parts[i], s.que.parts[i]);
    var s' := Apply(s, Work(i, o, e));
    InvKept(s, Work(i, o, e));
    Projects(s', b, Ctx);
    R.BuiltIsPublished(s'.ctx, EventsOf(s', b, Ctx), i, o, e);
  }

  /** Likewise for a call that has won the queue's flag, once its nested call has returned a context without error. */
  lemma QueueConstructorReturns(acts: seq<Action>, i: nat, o: Option<Handle>, e: int)
    requires Runs(Start(), acts)
    requires var s := Exec(Start(), acts);
             && i < |s.que.parts| && s.que.parts[i].pc.Construct? && (o.Some? ==> o.value !in s.que.counts)
             && i < |s.ctx.parts| && s.ctx.parts[i].pc.Returned? && s.ctx.error == 0
    ensures Enabled(Exec(Start(), acts), Work(i, o, e))
  {
    StartInv();
    RunInv(Start(), acts);
    var s := Exec(Start(), acts);
    assert Nested(s.kinds[i], s.ctx.parts[i], s.que.parts[i]);
    NestedAnswer(s, i);
  }

  /** The default queue is what the constructor returned to the initialising call, for every later caller. */
  lemma QueueIsAsConstructed(a: seq<Action>, i: nat, o: Option<Handle>, e: int, b: seq<Action>)
    requires Runs(Start(), a)
    requires var s := Exec(Start(), a);
             && i < |s.que.parts| && s.que.parts[i].pc.Construct?
             && i < |s.ctx.parts| && s.ctx.parts[i].pc.Returned? && s.ctx.error == 0
             && Enabled(s, Work(i, o, e)) && Runs(Apply(s, Work(i, o, e)), b)
             && Exec(Apply(s, Work(i, o, e)), b).que.flag == S.INITIALIZED
    ensures var t := Exec(Apply(Exec(Start(), a), Work(i, o, e)), b).que;
            && t.stored == o && t.error == e
            && forall j :: 0 <= j < |t.parts| && R.Complete(t.parts[j]) ==>
                 t.parts[j].pc.copied == o && t.parts[j].pc.report == if t.parts[j].want then Some(e) else None
  {
    StartInv();
    RunInv(Start(), a);
    var s := Exec(Start(), a);
    assert Nested(s.kinds[i], s.ctx.parts[i], s.que.parts[i]);
    NestedAnswer(s, i);
    var s' := Apply(s, Work(i, o, e));
    InvKept(s, Work(i, o, e));
    Projects(s', b, Que);
    R.BuiltIsPublished(s'.que, EventsOf(s', b, Que), i, o, e);
  }

  /** A call stays the call it began as, and keeps its wish for the error. */
  predicate Remembers(s: State, i: nat, kind: Kind, want: bool) {
    && i < |s.kinds| && s.kinds[i] == kind && Shaped(s)
    && (if kind.ContextCall? then s.ctx else s.que).parts[i].want == want
  }

  lemma {:induction false} RemembersKept(s: State, acts: seq<Action>, i: nat, kind: Kind, want: bool)
    requires Remembers(s, i, kind, want) && Runs(s, acts)
    ensures Remembers(Exec(s, acts), i, kind, want)
    decreases |acts|
  {
    if acts != [] {
      var a := acts[0];
      if !a.Begin? && a.who == i { ActingStep(s, a); } else { OthersKept(s, a, i); }
      RemembersKept(Apply(s, a), acts[1..], i, kind, want);
    }
  }

  lemma BeginRemembered(a: seq<Action>, kind: Kind, want: bool, b: seq<Action>)
    requires Runs(Start(), a) && Enabled(Exec(Start(), a), Begin(kind, want))
    requires Runs(Apply(Exec(Start(), a), Begin(kind, want)), b)
    ensures Remembers(Exec(Apply(Exec(Start(), a), Begin(kind, want)), b), |Exec(Start(), a).kinds|, kind, want)
  {
    RemembersKept(Apply(Exec(Start(), a), Begin(kind, want)), b, |Exec(Start(), a).kinds|, kind, want);
  }
}
