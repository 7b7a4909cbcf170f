/**
 What holds over every run of the call_once chain of CL/cl2.hpp: it is never
 re-entered, it never deadlocks, every run is finite for its calls, the first
 writer of each default wins, and failures travel up the chain.
 */
module CallOnceTheorems {
  import opened Basics
  import opened CallOnce

  lemma StartInv(exc: bool)
    ensures Inv(Start(exc))
  {
    forall l: Level ensures SlotOk(Start(exc), l) { assert Start(exc).slots[l] == EmptySlot(); }
  }

  lemma {:induction false} RunInv(s: State, acts: seq<Action>)
    requires Inv(s) && Runs(s, acts)
    ensures Inv(Exec(s, acts)) && Later(s, Exec(s, acts))
    decreases |acts|
  {
    if acts != [] {
      InvKept(s, acts[0]);
      StepLater(s, acts[0]);
      RunInv(Apply(s, acts[0]), acts[1..]);
    }
  }

  lemma Reachable(exc: bool, acts: seq<Action>)
    requires Runs(Start(exc), acts)
    ensures Inv(Exec(Start(exc), acts)) && Exec(Start(exc), acts).exc == exc
  {
    StartInv(exc);
    RunInv(Start(exc), acts);
  }

  // ------------------------------------------------- no re-entry, no deadlock

  /** A thread only ever waits for a flag that another thread is running. */
  lemma NeverReenters(exc: bool, acts: seq<Action>, t: nat)
    requires Runs(Start(exc), acts)
    requires var s := Exec(Start(exc), acts); t < |s.threads| && Blocked(s, t)
    ensures var s := Exec(Start(exc), acts); s.slots[s.threads[t].stack[0].level].flag.owner != t
  {
    Reachable(exc, acts);
    var s := Exec(Start(exc), acts);
    WaitsForAnother(s, t);
  }

  lemma WaitsForAnother(s: State, t: nat)
    requires Inv(s) && t < |s.threads| && Blocked(s, t)
    ensures s.slots[s.threads[t].stack[0].level].flag.owner != t
  {
    var st := s.threads[t].stack;
    var l := st[0].level;
    assert ThreadOk(s, t, s.threads[t]) && SlotOk(s, l);
    assert forall i :: 0 < i < |st| ==> st[i].level != l;
    assert !Owns(s.threads[t], l);
  }

  /** Following the owners of running flags goes strictly down the chain, so it ends at a thread that can step. */
  lemma {:induction false} Unblocked(s: State, t: nat) returns (u: nat)
    requires Inv(s) && t < |s.threads| && s.threads[t].stack != []
    ensures u < |s.threads| && Enabled(s, Work(u, None, 0))
    decreases s.threads[t].stack[0].level
  {
    assert ThreadOk(s, t, s.threads[t]);
    if Blocked(s, t) {
      var l := s.threads[t].stack[0].level;
      assert SlotOk(s, l);
      var o := s.slots[l].flag.owner;
      var i :| 0 <= i < |s.threads[o].stack| && s.threads[o].stack[i].level == l && InBody(s.threads[o].stack[i].pc);
      assert ThreadOk(s, o, s.threads[o]);
      if i == 0 {
        u := o;
      } else {
        u := Unblocked(s, o);
      }
    } else {
      u := t;
    }
  }

  /** In every reachable state with an unfinished call, some thread has a step. */
  lemma NeverDeadlocks(exc: bool, acts: seq<Action>, t: nat) returns (u: nat)
    requires Runs(Start(exc), acts)
    requires var s := Exec(Start(exc), acts); t < |s.threads| && s.threads[t].answer.None?
    ensures Enabled(Exec(Start(exc), acts), Work(u, None, 0))
  {
    Reachable(exc, acts);
    var s := Exec(Start(exc), acts);
    assert ThreadOk(s, t, s.threads[t]);
    u := Unblocked(s, t);
  }

  // ------------------------------------------------- every run is bounded

  function CallCost(l: Level): nat
    decreases l
  {
    8 + (if l == PLATFORM then 0 else
         if l == CONTEXT then CallCost(PLATFORM) + 1 else
         if l == DEVICE then CallCost(CONTEXT) + 1 else CallCost(CONTEXT) + 1 + CallCost(DEVICE) + 1)
  }

  /** Cost of the nested calls from dependency k on. */
  function NestCost(l: Level, k: nat): nat
    decreases |Deps(l)| - k
  {
    if k >= |Deps(l)| then 0 else CallCost(Deps(l)[k]) + 1 + NestCost(l, k + 1)
  }

  lemma CallCostIsNestCost(l: Level)
    ensures CallCost(l) == 8 + NestCost(l, 0)
  {
    assert NestCost(l, 2) == 0;
    assert NestCost(l, 1) == if l == QUEUE then CallCost(DEVICE) + 1 else 0;
  }

  function FrameCost(f: Frame): nat {
    match f.pc
    case Calling => CallCost(f.level)
    case Making(got) => 7 + NestCost(f.level, |got|)
    case Waiting(got) => 7 + NestCost(f.level, |got| + 1)
    case StoreObject(_, _) => 6
    case StoreError(_) => 5
    case Seal => 4
    case Reading => 3
    case Copying(_) => 2
  }

  function StackCost(st: seq<Frame>): nat {
    if st == [] then 0 else FrameCost(st[0]) + StackCost(st[1..])
  }

  function Cost(ths: seq<Thread>): nat {
    if ths == [] then 0 else StackCost(ths[0].stack) + Cost(ths[1..])
  }

  lemma {:induction false} CostUpdate(ths: seq<Thread>, t: nat, th: Thread)
    requires t < |ths|
    ensures Cost(ths[t := th]) == Cost(ths) - StackCost(ths[t].stack) + StackCost(th.stack)
  {
    if t == 0 {
      assert ths[t := th][1..] == ths[1..];
    } else {
      assert ths[t := th][1..] == ths[1..][t - 1 := th];
      CostUpdate(ths[1..], t - 1, th);
    }
  }

  lemma {:induction false} CostAppend(ths: seq<Thread>, th: Thread)
    ensures Cost(ths + [th]) == Cost(ths) + StackCost(th.stack)
  {
    if ths == [] {
      assert ths + [th] == [th];
    } else {
      assert (ths + [th])[1..] == ths[1..] + [th];
      CostAppend(ths[1..], th);
    }
  }

  lemma PushedCost(f: Frame, st: seq<Frame>)
    ensures StackCost([f] + st) == FrameCost(f) + StackCost(st)
  {
    assert ([f] + st)[1..] == st;
  }

  /** Returning removes the inner frame and resumes the outer one at the same cost. */
  lemma ReturnCost(th: Thread, ans: Answer)
    requires th.stack != [] && (|th.stack| > 1 ==> th.stack[1].pc.Waiting?)
    ensures StackCost(Return(th, ans).stack) < StackCost(th.stack)
  {
    var st := th.stack;
    assert FrameCost(st[0]) > 0 by { if st[0].pc.Calling? { CallCostIsNestCost(st[0].level); } }
    if |st| > 1 {
      PushedCost(Return(th, ans).stack[0], st[2..]);
      assert st[1..][1..] == st[2..];
    }
  }

  lemma StackStepNesting(s: State, a: Action)
    requires Inv(s) && Enabled(s, a) && a.Work? && Nesting(s, s.threads[a.who].stack[0])
    ensures StackCost(Apply(s, a).threads[a.who].stack) < StackCost(s.threads[a.who].stack)
  {
    var st := s.threads[a.who].stack;
    var st' := Apply(s, a).threads[a.who].stack;
    var f := st[0].(pc := Waiting(st[0].pc.got));
    assert st' == [st'[0]] + ([f] + st[1..]);
    PushedCost(st'[0], [f] + st[1..]);
    PushedCost(f, st[1..]);
  }

  lemma AtCost(th: Thread, pc: Pc)
    requires th.stack != []
    ensures StackCost(At(th, pc).stack) - FrameCost(th.stack[0].(pc := pc))
            == StackCost(th.stack) - FrameCost(th.stack[0])
  {
    PushedCost(th.stack[0].(pc := pc), th.stack[1..]);
  }

  lemma PlainCost(s: State, a: Action)
    requires Enabled(s, a) && a.Work?
    requires !Returning(s, s.threads[a.who].stack[0]) && !Nesting(s, s.threads[a.who].stack[0])
    ensures StackCost(Apply(s, a).threads[a.who].stack) < StackCost(s.threads[a.who].stack)
  {
    var th, th' := s.threads[a.who], Moved(s, a.who, a.built, a.e);
    var f, f' := th.stack[0], th'.stack[0];
    assert th' == At(th, f'.pc);
    AtCost(th, f'.pc);
    if f.pc.Calling? {
      CallCostIsNestCost(f.level);
      assert f'.pc.Reading? || f'.pc.StoreObject? || f'.pc == Making([]);
    }
  }

  lemma StackStep(s: State, a: Action)
    requires Inv(s) && Enabled(s, a) && a.Work?
    ensures StackCost(Apply(s, a).threads[a.who].stack) < StackCost(s.threads[a.who].stack)
  {
    var th := s.threads[a.who];
    var sl := s.slots[th.stack[0].level];
    if Returning(s, th.stack[0]) {
      assert ThreadOk(s, a.who, th);
      AnswerReports(s, a);
      ReturnCost(th, if th.stack[0].pc.Reading? then Threw(sl.error) else Gave(sl.stored, sl.error));
    } else if Nesting(s, th.stack[0]) {
      StackStepNesting(s, a);
    } else {
      PlainCost(s, a);
    }
  }

  function Begins(acts: seq<Action>): nat {
    if acts == [] then 0 else (if acts[0].Begin? then 1 else 0) + Begins(acts[1..])
  }

  lemma {:induction false} Budget(s: State, acts: seq<Action>)
    requires Inv(s) && Runs(s, acts)
    ensures |acts| + Cost(Exec(s, acts).threads) <= Cost(s.threads) + 54 * Begins(acts)
    decreases |acts|
  {
    if acts != [] {
      var a := acts[0];
      var s' := Apply(s, a);
      InvKept(s, a);
      Budget(s', acts[1..]);
      if a.Begin? {
        CostAppend(s.threads, s'.threads[|s.threads|]);
        PushedCost(Frame(a.level, a.gift, Calling), []);
        assert CallCost(a.level) <= 53 by {
          assert CallCost(PLATFORM) == 8 && CallCost(CONTEXT) == 17 && CallCost(DEVICE) == 26;
        }
      } else {
        StackStep(s, a);
        CostUpdate(s.threads, a.who, s'.threads[a.who]);
      }
    }
  }

  /** However they interleave, n calls take at most 54 n steps in all, so a run can only end with all answered. */
  lemma RunsAreBounded(exc: bool, acts: seq<Action>)
    requires Runs(Start(exc), acts)
    ensures |acts| <= 54 * Begins(acts)
  {
    StartInv(exc);
    Budget(Start(exc), acts);
  }

  /** A run that no thread can extend has answered every call. */
  lemma MaximalRunsAnswer(exc: bool, acts: seq<Action>)
    requires Runs(Start(exc), acts)
    requires forall u: nat :: !Enabled(Exec(Start(exc), acts), Work(u, None, 0))
    ensures forall t :: 0 <= t < |Exec(Start(exc), acts).threads| ==> Exec(Start(exc), acts).threads[t].answer.Some?
  {
    var s := Exec(Start(exc), acts);
    forall t | 0 <= t < |s.threads|
      ensures s.threads[t].answer.Some?
    {
      if s.threads[t].answer.None? { var u := NeverDeadlocks(exc, acts, t); }
    }
  }

  // ------------------------------------------------- first writer wins

  /** At most one thread ever runs the maker of a level, over a whole run. */
  lemma OneMakerEver(exc: bool, a: seq<Action>, b: seq<Action>, l: Level)
    requires Runs(Start(exc), a) && Runs(Exec(Start(exc), a), b)
    ensures var s := Exec(Start(exc), a); var t := Exec(s, b);
            && |t.slots[l].makers| <= 1
            && (s.slots[l].makers != [] ==> t.slots[l].makers == s.slots[l].makers)
  {
    Reachable(exc, a);
    var s := Exec(Start(exc), a);
    RunInv(s, b);
    assert SlotOk(s, l) && SlotOk(Exec(s, b), l);
    MakersGrow(s, b, l);
  }

  lemma {:induction false} MakersGrow(s: State, acts: seq<Action>, l: Level)
    requires Inv(s) && Runs(s, acts)
    ensures Shaped(Exec(s, acts)) && s.slots[l].makers <= Exec(s, acts).slots[l].makers
    decreases |acts|
  {
    if acts != [] {
      InvKept(s, acts[0]);
      MakersGrow(Apply(s, acts[0]), acts[1..], l);
    }
  }

  /** Two answered calls of a level, anywhere in a run, got the same answer. */
  lemma SameAnswer(exc: bool, a: seq<Action>, b: seq<Action>, i: nat, j: nat)
    requires Runs(Start(exc), a) && Runs(Exec(Start(exc), a), b)
    requires var s := Exec(Start(exc), a); i < |s.threads| && s.threads[i].answer.Some?
    requires var t := Exec(Exec(Start(exc), a), b); j < |t.threads| && t.threads[j].answer.Some?
    requires Exec(Start(exc), a).threads[i].level == Exec(Exec(Start(exc), a), b).threads[j].level
    ensures Exec(Start(exc), a).threads[i].answer == Exec(Exec(Start(exc), a), b).threads[j].answer
  {
    Reachable(exc, a);
    var s := Exec(Start(exc), a);
    RunInv(s, b);
    var t := Exec(s, b);
    assert ThreadOk(s, i, s.threads[i]) && ThreadOk(t, j, t.threads[j]);
  }

  /** A provided default is exactly what its one maker passed to setDefault, and every answer gives it. */
  lemma ProvidedWins(exc: bool, acts: seq<Action>, l: Level, i: nat)
    requires Runs(Start(exc), acts)
    requires var s := Exec(Start(exc), acts);
             && s.slots[l].flag.Done? && s.slots[l].origin.Provided?
             && i < |s.threads| && s.threads[i].level == l && s.threads[i].answer.Some?
    ensures var s := Exec(Start(exc), acts);
            |s.slots[l].makers| == 1 &&
            var m := s.slots[l].makers[0];
            && m < |s.threads| && s.threads[m].level == l && s.threads[m].gift.Some?
            && s.threads[i].answer.value == Gave(s.threads[m].gift.value, 0)
  {
    Reachable(exc, acts);
    var s := Exec(Start(exc), acts);
    assert SlotOk(s, l) && ThreadOk(s, i, s.threads[i]);
  }

  // ------------------------------------------------- failures travel up

  /** No default above the platform was provided by setDefault. */
  predicate NothingProvided(s: State)
    requires Shaped(s)
  {
    forall l: Level :: l > PLATFORM && s.slots[l].flag.Done? ==> s.slots[l].origin.Made?
  }

  /** A failed default platform has given its code, and no object, to every level that is sealed above it. */
  predicate PlatformFailureReaches(s: State)
    requires Shaped(s)
  {
    s.slots[PLATFORM].flag.Done? && s.slots[PLATFORM].error != 0 ==>
      forall l: Level :: l > PLATFORM && s.slots[l].flag.Done? ==>
        s.slots[l].error == s.slots[PLATFORM].error && s.slots[l].stored.None?
  }

  lemma DepFailure(s: State, l: Level)
    requires Inv(s) && l > PLATFORM && s.slots[l].flag.Done? && s.slots[l].origin.Made?
    ensures var d := Deps(l)[0];
            && s.slots[d].flag.Done?
            && (s.slots[d].error != 0 && Stops(s.exc, d) ==>
                  s.slots[l].error == s.slots[d].error && s.slots[l].stored.None?)
  {
    assert SlotOk(s, l) && DepsSealed(s, l);
    assert s.slots[Deps(l)[0]].flag.Done?;
  }

  lemma ReachesWithExceptions(acts: seq<Action>)
    requires Runs(Start(true), acts) && NothingProvided(Exec(Start(true), acts))
    ensures PlatformFailureReaches(Exec(Start(true), acts))
  {
    Reachable(true, acts);
    var s := Exec(Start(true), acts);
    if s.slots[PLATFORM].flag.Done? && s.slots[PLATFORM].error != 0 {
      forall l: Level | l > PLATFORM && s.slots[l].flag.Done?
        ensures s.slots[l].error == s.slots[PLATFORM].error && s.slots[l].stored.None?
      {
        DepFailure(s, l);
        if l > CONTEXT { DepFailure(s, CONTEXT); }
      }
    }
  }

  /** A failed default context gives its code to the device and the queue, with or without exceptions. */
  lemma ContextFailureReaches(exc: bool, acts: seq<Action>, l: Level)
    requires Runs(Start(exc), acts) && l > CONTEXT
    requires var s := Exec(Start(exc), acts);
             s.slots[l].flag.Done? && s.slots[l].origin.Made? && s.slots[CONTEXT].error != 0
    ensures var s := Exec(Start(exc), acts);
            s.slots[CONTEXT].flag.Done? && s.slots[l].error == s.slots[CONTEXT].error && s.slots[l].stored.None?
  {
    Reachable(exc, acts);
    DepFailure(Exec(Start(exc), acts), l);
  }

  lemma Prepend(s: State, a: Action, rest: seq<Action>)
    requires Enabled(s, a) && Runs(Apply(s, a), rest)
    ensures Runs(s, [a] + rest) && Exec(s, [a] + rest) == Exec(Apply(s, a), rest)
  {
    assert ([a] + rest)[1..] == rest;
  }

  ghost predicate AlwaysReaches(exc: bool) {
    forall acts {:trigger Runs(Start(exc), acts)} ::
      Runs(Start(exc), acts) && NothingProvided(Exec(Start(exc), acts))
      ==> PlatformFailureReaches(Exec(Start(exc), acts))
  }

  /** One thread asking for the default context with exceptions off. */
  function Alone(p: Slot, c: Slot, st: seq<Frame>): State {
    State(false, [p, c, EmptySlot(), EmptySlot()], [Thread(CONTEXT, None, st, None)])
  }

  const FAIL := Work(0, None, -1001)
  const MAKE := Work(0, Some(7), 0)

  /** One step of the lone thread, taken as the first of a longer run. */
  lemma AloneStep(p: Slot, c: Slot, st: seq<Frame>, a: Action, p': Slot, c': Slot, st': seq<Frame>, rest: seq<Action>)
    requires a.Work? && a.who == 0 && Enabled(Alone(p, c, st), a)
    requires Moved(Alone(p, c, st), 0, a.built, a.e).stack == st' && st' != []
    requires var w := Written(Alone(p, c, st), 0);
             if st[0].level == PLATFORM then w == p' && c' == c else st[0].level == CONTEXT && w == c' && p' == p
    requires Runs(Alone(p', c', st'), rest)
    ensures Runs(Alone(p, c, st), [a] + rest) && Exec(Alone(p, c, st), [a] + rest) == Exec(Alone(p', c', st'), rest)
  {
    var s := Alone(p, c, st);
    assert Apply(s, a).threads == [Moved(s, 0, a.built, a.e)];
    assert Apply(s, a).slots == [p', c', EmptySlot(), EmptySlot()];
    Prepend(s, a, rest);
  }

  /** From a failed platform query inside the context maker to the resumed context maker. */
  lemma PlatformFails(c: Slot)
    requires c == Slot(Running(0), None, 0, Unset, [0])
    ensures var outer := Frame(CONTEXT, None, Waiting([]));
            var inner := Frame(PLATFORM, None, Making([]));
            var s := Alone(Slot(Running(0), None, 0, Unset, [0]), c, [inner, outer]);
            var acts := [FAIL, MAKE, MAKE, MAKE, MAKE, MAKE];
            && Runs(s, acts)
            && Exec(s, acts) == Alone(Slot(Done, None, -1001, Made, [0]), c,
                                      [Frame(CONTEXT, None, Making([Gave(None, -1001)]))])
  {
    var outer := Frame(CONTEXT, None, Waiting([]));
    var p := Slot(Running(0), None, 0, Unset, [0]);
    var p' := p.(error := -1001);
    var q := Slot(Done, None, -1001, Made, [0]);
    var st0 := [Frame(PLATFORM, None, Making([])), outer];
    var st1 := [Frame(PLATFORM, None, StoreObject(None, -1001)), outer];
    var st2 := [Frame(PLATFORM, None, StoreError(-1001)), outer];
    var st3 := [Frame(PLATFORM, None, Seal), outer];
    var st4 := [Frame(PLATFORM, None, Reading), outer];
    var st5 := [Frame(PLATFORM, None, Copying(-1001)), outer];
    var st6 := [Frame(CONTEXT, None, Making([Gave(None, -1001)]))];
    assert [] + [Gave(None, -1001)] == [Gave(None, -1001)];
    AloneStep(q, c, st5, MAKE, q, c, st6, []);
    AloneStep(q, c, st4, MAKE, q, c, st5, [MAKE]);
    AloneStep(p', c, st3, MAKE, q, c, st4, [MAKE] + [MAKE]);
    AloneStep(p, c, st2, MAKE, p', c, st3, [MAKE] + ([MAKE] + [MAKE]));
    AloneStep(p, c, st1, MAKE, p, c, st2, [MAKE] + ([MAKE] + ([MAKE] + [MAKE])));
    AloneStep(p, c, st0, FAIL, p, c, st1, [MAKE] + ([MAKE] + ([MAKE] + ([MAKE] + [MAKE]))));
    assert [FAIL] + ([MAKE] + ([MAKE] + ([MAKE] + ([MAKE] + [MAKE])))) == [FAIL, MAKE, MAKE, MAKE, MAKE, MAKE];
  }

  /** From the resumed context maker to the sealed context, which was created all the same. */
  lemma ContextMadeAllTheSame(q: Slot)
    ensures var s := Alone(q, Slot(Running(0), None, 0, Unset, [0]),
                           [Frame(CONTEXT, None, Making([Gave(None, -1001)]))]);
            var acts := [MAKE, MAKE, MAKE, MAKE];
            && Runs(s, acts)
            && Exec(s, acts) == Alone(q, Slot(Done, Some(7), 0, Made, [0]), [Frame(CONTEXT, None, Reading)])
  {
    var c := Slot(Running(0), None, 0, Unset, [0]);
    var c' := c.(stored := Some(7));
    var st0 := [Frame(CONTEXT, None, Making([Gave(None, -1001)]))];
    var st1 := [Frame(CONTEXT, None, StoreObject(Some(7), 0))];
    var st2 := [Frame(CONTEXT, None, StoreError(0))];
    var st3 := [Frame(CONTEXT, None, Seal)];
    AloneStep(q, c', st3, MAKE, q, Slot(Done, Some(7), 0, Made, [0]), [Frame(CONTEXT, None, Reading)], []);
    AloneStep(q, c', st2, MAKE, q, c', st3, [MAKE]);
    AloneStep(q, c, st1, MAKE, q, c', st2, [MAKE] + [MAKE]);
    AloneStep(q, c, st0, MAKE, q, c, st1, [MAKE] + ([MAKE] + [MAKE]));
    assert [MAKE] + ([MAKE] + ([MAKE] + [MAKE])) == [MAKE, MAKE, MAKE, MAKE];
  }

  lemma {:induction false} Concat(s: State, a: seq<Action>, b: seq<Action>)
    requires Runs(s, a) && Runs(Exec(s, a), b)
    ensures Runs(s, a + b) && Exec(s, a + b) == Exec(Exec(s, a), b)
    decreases |a|
  {
    if a == [] {
      assert a + b == b;
    } else {
      assert (a + b)[1..] == a[1..] + b;
      Concat(Apply(s, a[0]), a[1..], b);
    }
  }

  /** With exceptions off a context can be created although the platform query failed. */
  lemma LostWithoutExceptions() returns (acts: seq<Action>)
    ensures Runs(Start(false), acts)
    ensures var s := Exec(Start(false), acts); NothingProvided(s) && !PlatformFailureReaches(s)
  {
    var run := Slot(Running(0), None, 0, Unset, [0]);
    var none := EmptySlot();
    var st1 := [Frame(CONTEXT, None, Calling)];
    var st2 := [Frame(CONTEXT, None, Making([]))];
    var st3 := [Frame(PLATFORM, None, Calling), Frame(CONTEXT, None, Waiting([]))];
    var st4 := [Frame(PLATFORM, None, Making([])), Frame(CONTEXT, None, Waiting([]))];
    PlatformFails(run);
    ContextMadeAllTheSame(Slot(Done, None, -1001, Made, [0]));
    acts := [FAIL, MAKE, MAKE, MAKE, MAKE, MAKE] + [MAKE, MAKE, MAKE, MAKE];
    Concat(Alone(run, run, st4), [FAIL, MAKE, MAKE, MAKE, MAKE, MAKE], [MAKE, MAKE, MAKE, MAKE]);
    assert [] + [0] == [0];
    AloneStep(none, run, st3, MAKE, run, run, st4, acts);
    AloneStep(none, run, st2, MAKE, none, run, st3, [MAKE] + acts);
    AloneStep(none, none, st1, MAKE, none, run, st2, [MAKE] + ([MAKE] + acts));
    acts := [MAKE] + ([MAKE] + ([MAKE] + acts));
    var s1 := Alone(none, none, st1);
    assert Apply(Start(false), Begin(CONTEXT, None)) == s1;
    Prepend(Start(false), Begin(CONTEXT, None), acts);
    acts := [Begin(CONTEXT, None)] + acts;
    var s := Exec(Start(false), acts);
    assert s.slots[PLATFORM].error == -1001 && s.slots[CONTEXT].stored == Some(7);
  }

  /** A platform failure always reaches the levels above exactly when exceptions are enabled. */
  lemma ReachesExactly(exc: bool)
    ensures AlwaysReaches(exc) <==> exc
  {
    if exc {
      forall acts | Runs(Start(exc), acts) && NothingProvided(Exec(Start(exc), acts))
        ensures PlatformFailureReaches(Exec(Start(exc), acts))
      {
        ReachesWithExceptions(acts);
      }
    } else {
      var acts := LostWithoutExceptions();
    }
  }

  // ------------------------------------------------- what the makers ask for and what they store

  /** The answer to a nested call for level d is the sealed content of that level. */
  predicate Told(s: State, d: Level, ans: Answer)
    requires Shaped(s)
  {
    && s.slots[d].flag.Done? && ans.code == s.slots[d].error
    && ans == if s.exc && ans.code != 0 then Threw(ans.code) else Gave(s.slots[d].stored, ans.code)
  }

  /** A maker of l with these answers has asked the levels below in their order, and was told what they hold. */
  predicate Asked(s: State, l: Level, got: seq<Answer>)
    requires Shaped(s)
  {
    if l == PLATFORM then got == []
    else if l == CONTEXT then got == [] || (|got| == 1 && Told(s, PLATFORM, got[0]))
    else if l == DEVICE then got == [] || (|got| == 1 && Told(s, CONTEXT, got[0]))
    else
      || got == []
      || (|got| == 1 && Told(s, CONTEXT, got[0]))
      || (|got| == 2 && Told(s, CONTEXT, got[0]) && got[0].code == 0 && Told(s, DEVICE, got[1]))
  }

  /** In every reachable state each open maker has asked so. */
  lemma MakersAskBelow(exc: bool, acts: seq<Action>, t: nat, i: nat)
    requires Runs(Start(exc), acts)
    requires var s := Exec(Start(exc), acts);
             t < |s.threads| && i < |s.threads[t].stack|
             && (s.threads[t].stack[i].pc.Making? || s.threads[t].stack[i].pc.Waiting?)
    ensures var s := Exec(Start(exc), acts); var f := s.threads[t].stack[i]; Asked(s, f.level, f.pc.got)
  {
    Reachable(exc, acts);
    var s := Exec(Start(exc), acts);
    var f := s.threads[t].stack[i];
    assert ThreadOk(s, t, s.threads[t]) && FrameOk(s, t, f);
  }

  /** Everything that the maker of l asks for was answered, and nothing in it ends the maker. */
  predicate Ready(exc: bool, l: Level, got: seq<Answer>) {
    if l == PLATFORM then got == []
    else if l == CONTEXT then |got| == 1 && (exc ==> got[0].code == 0)
    else if l == DEVICE then |got| == 1 && got[0].code == 0
    else |got| == 2 && got[0].code == 0 && (exc ==> got[1].code == 0)
  }

  /** Thread t runs the maker of l and is about to call the constructor. */
  predicate AboutToConstruct(s: State, t: nat, l: Level)
    requires Shaped(s)
  {
    && t < |s.threads| && s.threads[t].stack != []
    && var f := s.threads[t].stack[0];
       f.level == l && f.pc.Making? && Ready(s.exc, l, f.pc.got)
  }

  lemma ReadyConstructs(exc: bool, l: Level, got: seq<Answer>)
    requires Ready(exc, l, got)
    ensures NextOf(exc, l, got).Construct?
  {}

  /**
   A constructor may return any object and any code, except that a throwing one leaves no object, the platform
   query gives no object with a failure, and the device query tests no code when it does not throw.
   */
  lemma ConstructorReturns(exc: bool, acts: seq<Action>, t: nat, l: Level, o: Option<Handle>, e: int)
    requires Runs(Start(exc), acts) && AboutToConstruct(Exec(Start(exc), acts), t, l)
    requires (exc || l == PLATFORM) && e != 0 ==> o.None?
    requires !exc && l == DEVICE ==> e == 0
    ensures Enabled(Exec(Start(exc), acts), Work(t, o, e))
  {
    Reachable(exc, acts);
    var s := Exec(Start(exc), acts);
    ReadyConstructs(exc, l, s.threads[t].stack[0].pc.got);
  }

  /** Thread t is on its way to seal (o, e) in slot l, or it is sealed there. */
  predicate Carries(s: State, t: nat, l: Level, o: Option<Handle>, e: int)
    requires Shaped(s)
  {
    var sl := s.slots[l];
    || (sl.flag.Done? && sl.stored == o && sl.error == e)
    || (&& sl.flag == Running(t) && t < |s.threads| && s.threads[t].stack != []
        && var f := s.threads[t].stack[0];
           && f.level == l && f.gift.None?
           && (|| f.pc == StoreObject(o, e)
               || (f.pc == StoreError(e) && sl.stored == o)
               || (f.pc.Seal? && sl.stored == o && sl.error == e)))
  }

  lemma CarriesKept(s: State, a: Action, t: nat, l: Level, o: Option<Handle>, e: int)
    requires Inv(s) && Enabled(s, a) && Carries(s, t, l, o, e)
    ensures Shaped(Apply(s, a)) && Carries(Apply(s, a), t, l, o, e)
  {
    StepLater(s, a);
    if !s.slots[l].flag.Done? && a.Work? && a.who != t {
      var f := s.threads[a.who].stack[0];
      assert ThreadOk(s, a.who, s.threads[a.who]) && FrameOk(s, a.who, f);
      assert f.level != l;
    }
  }

  lemma {:induction false} CarriesToTheEnd(s: State, acts: seq<Action>, t: nat, l: Level, o: Option<Handle>, e: int)
    requires Inv(s) && Runs(s, acts) && Carries(s, t, l, o, e)
    ensures Carries(Exec(s, acts), t, l, o, e)
    decreases |acts|
  {
    if acts != [] {
      CarriesKept(s, acts[0], t, l, o, e);
      InvKept(s, acts[0]);
      CarriesToTheEnd(Apply(s, acts[0]), acts[1..], t, l, o, e);
    }
  }

  lemma ConstructedIsCarried(s: State, t: nat, l: Level, o: Option<Handle>, e: int)
    requires Inv(s) && AboutToConstruct(s, t, l) && Enabled(s, Work(t, o, e))
    ensures Shaped(Apply(s, Work(t, o, e))) && Carries(Apply(s, Work(t, o, e)), t, l, o, e)
  {
    var f := s.threads[t].stack[0];
    ReadyConstructs(s.exc, l, f.pc.got);
    assert ThreadOk(s, t, s.threads[t]) && FrameOk(s, t, f);
  }

  /**
   A default that was made is what the constructor returned to its one maker: object and code are stored as they
   are, every call of the level gives them, and with exceptions a failure code is thrown by every call.
   */
  lemma MadeAsConstructed(exc: bool, a: seq<Action>, t: nat, l: Level, o: Option<Handle>, e: int, b: seq<Action>)
    requires Runs(Start(exc), a) && AboutToConstruct(Exec(Start(exc), a), t, l)
    requires var s := Exec(Start(exc), a);
             && Enabled(s, Work(t, o, e)) && Runs(Apply(s, Work(t, o, e)), b)
             && Exec(Apply(s, Work(t, o, e)), b).slots[l].flag.Done?
    ensures var u := Exec(Apply(Exec(Start(exc), a), Work(t, o, e)), b);
            && u.slots[l].stored == o && u.slots[l].error == e
            && forall j :: 0 <= j < |u.threads| && u.threads[j].level == l && u.threads[j].answer.Some? ==>
                 u.threads[j].answer.value == if exc && e != 0 then Threw(e) else Gave(o, e)
  {
    Reachable(exc, a);
    var s := Exec(Start(exc), a);
    var s' := Apply(s, Work(t, o, e));
    ConstructedIsCarried(s, t, l, o, e);
    InvKept(s, Work(t, o, e));
    CarriesToTheEnd(s', b, t, l, o, e);
    RunInv(s', b);
    var u := Exec(s', b);
    assert u.exc == exc by { StepLater(s, Work(t, o, e)); }
    forall j | 0 <= j < |u.threads| && u.threads[j].level == l && u.threads[j].answer.Some?
      ensures u.threads[j].answer.value == if exc && e != 0 then Threw(e) else Gave(o, e)
    {
      assert ThreadOk(u, j, u.threads[j]);
    }
  }

  /**
   The levels a made default rests on: the context on the platform, the device on the context, the queue on the
   context and then the device. The first of them whose failure ends the maker leaves its code and no object.
   */
  lemma MadeFromBelow(exc: bool, acts: seq<Action>, l: Level)
    requires Runs(Start(exc), acts)
    requires Exec(Start(exc), acts).slots[l].flag.Done? && Exec(Start(exc), acts).slots[l].origin.Made?
    ensures var s := Exec(Start(exc), acts).slots;
            && (l == CONTEXT ==>
                  && s[PLATFORM].flag.Done?
                  && (exc && s[PLATFORM].error != 0 ==> s[l].error == s[PLATFORM].error && s[l].stored.None?))
            && (l > CONTEXT ==>
                  && s[CONTEXT].flag.Done?
                  && (s[CONTEXT].error != 0 ==> s[l].error == s[CONTEXT].error && s[l].stored.None?))
            && (l == QUEUE && s[CONTEXT].error == 0 ==>
                  && s[DEVICE].flag.Done?
                  && (exc && s[DEVICE].error != 0 ==> s[l].error == s[DEVICE].error && s[l].stored.None?))
  {
    Reachable(exc, acts);
    var s := Exec(Start(exc), acts);
    assert SlotOk(s, l) && DepsSealed(s, l);
    if l > PLATFORM { DepFailure(s, l); }
    if l == QUEUE && s.slots[CONTEXT].error == 0 {
      assert Deps(l)[1] == DEVICE && s.slots[Deps(l)[1]].flag.Done?;
      assert Forced(s, l, 0) == Forced(s, l, 1);
    }
  }

  /** A call keeps its level and its gift. */
  predicate Remembers(s: State, i: nat, l: Level, gift: Option<Option<Handle>>) {
    i < |s.threads| && s.threads[i].level == l && s.threads[i].gift == gift
  }

  lemma {:induction false} RemembersKept(s: State, acts: seq<Action>, i: nat, l: Level, gift: Option<Option<Handle>>)
    requires Remembers(s, i, l, gift) && Runs(s, acts)
    ensures Remembers(Exec(s, acts), i, l, gift)
    decreases |acts|
  {
    if acts != [] { RemembersKept(Apply(s, acts[0]), acts[1..], i, l, gift); }
  }

  lemma BeginRemembered(exc: bool, a: seq<Action>, l: Level, gift: Option<Option<Handle>>, b: seq<Action>)
    requires Runs(Start(exc), a) && Enabled(Exec(Start(exc), a), Begin(l, gift))
    requires Runs(Apply(Exec(Start(exc), a), Begin(l, gift)), b)
    ensures Remembers(Exec(Apply(Exec(Start(exc), a), Begin(l, gift)), b), |Exec(Start(exc), a).threads|, l, gift)
  {
    RemembersKept(Apply(Exec(Start(exc), a), Begin(l, gift)), b, |Exec(Start(exc), a).threads|, l, gift);
  }
}
