/**
 The default Platform, Context, Device and CommandQueue of CL/cl2.hpp. Each level
 guards its default_ and default_error_ with a std::once_flag; makeDefault of a
 level calls getDefault of lower ones, and setDefault installs a provided object
 through the same flag. Any number of calls interleave atomic steps.

 call_once is modelled as idle, running by one thread, or done: a call that finds
 the flag running has no step until it is done.
 */
module CallOnce {
  import opened Basics

  type Level = n: nat | n < 4
  const PLATFORM: Level := 0
  const CONTEXT: Level := 1
  const DEVICE: Level := 2
  const QUEUE: Level := 3

  datatype Flag = Idle | Running(owner: nat) | Done
  datatype Origin = Unset | Made | Provided

  /** `origin` and `makers` record history: how the slot was filled and which threads ran its maker. */
  datatype Slot = Slot(flag: Flag, stored: Option<Handle>, error: int, origin: Origin, makers: seq<nat>)

  /** How a getDefault or setDefault call ends: by value, or by throwing cl::Error. */
  datatype Answer = Gave(copied: Option<Handle>, code: int) | Threw(code: int)

  datatype Pc =
    | Calling                                   // about to enter call_once
    | Making(got: seq<Answer>)                  // in makeDefault, nested calls answered so far
    | Waiting(got: seq<Answer>)                 // in makeDefault, a nested call is in progress
    | StoreObject(built: Option<Handle>, e: int)
    | StoreError(e: int)
    | Seal                                      // call_once is about to mark the flag done
    | Reading                                   // about to read default_error_
    | Copying(e: int)                           // about to read default_

  /** `gift` is the object handed to setDefault; None for getDefault. */
  datatype Frame = Frame(level: Level, gift: Option<Option<Handle>>, pc: Pc)

  /** A thread executing one call; the innermost frame comes first. */
  datatype Thread = Thread(level: Level, gift: Option<Option<Handle>>, stack: seq<Frame>, answer: Option<Answer>)

  /** `exc` says whether CL_HPP_ENABLE_EXCEPTIONS is defined. */
  datatype State = State(exc: bool, slots: seq<Slot>, threads: seq<Thread>)

  datatype Action =
    | Begin(level: Level, gift: Option<Option<Handle>>)
    | Work(who: nat, built: Option<Handle>, e: int)   // built and e: what the runtime returns to a constructor

  function EmptySlot(): Slot { Slot(Idle, None, 0, Unset, []) }

  function Start(exc: bool): State {
    State(exc, [EmptySlot(), EmptySlot(), EmptySlot(), EmptySlot()], [])
  }

  /** The lower defaults makeDefault asks for, in order. */
  function Deps(l: Level): seq<Level> {
    if l == PLATFORM then [] else
    if l == CONTEXT then [PLATFORM] else
    if l == DEVICE then [CONTEXT] else [CONTEXT, DEVICE]
  }

  /** Whether a failure of dep ends the makeDefault that asked for it: if it throws, or if its code is tested. */
  predicate Stops(exc: bool, dep: Level) {
    exc || dep == CONTEXT
  }

  datatype Next = Nest(dep: Level) | Fail(e: int) | Construct

  function NextOf(exc: bool, l: Level, got: seq<Answer>): Next {
    var n := |got|;
    if 0 < n <= |Deps(l)| && got[n - 1].code != 0 && Stops(exc, Deps(l)[n - 1]) then Fail(got[n - 1].code)
    else if n < |Deps(l)| then Nest(Deps(l)[n])
    else Construct
  }

  /** What a constructor can leave behind: a failing one assigns nothing when it throws. */
  predicate Outcome(exc: bool, l: Level, o: Option<Handle>, e: int) {
    && (exc || l == PLATFORM ==> e != 0 ==> o.None?)
    && (!exc && l == DEVICE ==> e == 0)
  }

  predicate InBody(pc: Pc) {
    pc.Making? || pc.Waiting? || pc.StoreObject? || pc.StoreError? || pc.Seal?
  }

  predicate Shaped(s: State) { |s.slots| == 4 }

  predicate Blocked(s: State, t: nat)
    requires Shaped(s) && t < |s.threads|
  {
    var st := s.threads[t].stack;
    st != [] && st[0].pc.Calling? && s.slots[st[0].level].flag.Running?
  }

  predicate Enabled(s: State, a: Action) {
    Shaped(s) &&
    match a
    case Begin(_, _) => true
    case Work(t, o, e) =>
      && t < |s.threads| && s.threads[t].stack != [] && !Blocked(s, t)
      && var f := s.threads[t].stack[0];
         && !f.pc.Waiting?
         && (f.pc.Making? && NextOf(s.exc, f.level, f.pc.got).Construct? ==> Outcome(s.exc, f.level, o, e))
  }

  /** The call on top of the stack ends with ans; the frame below, if any, receives it. */
  function Return(th: Thread, ans: Answer): Thread
    requires th.stack != []
  {
    if |th.stack| == 1 then th.(stack := [], answer := Some(ans)) else
    var f := th.stack[1];
    var got := if f.pc.Waiting? then f.pc.got else [];
    th.(stack := [f.(pc := Making(got + [ans]))] + th.stack[2..])
  }

  function At(th: Thread, pc: Pc): Thread
    requires th.stack != []
  {
    th.(stack := [th.stack[0].(pc := pc)] + th.stack[1..])
  }

  /** The thread after its step. */
  function Moved(s: State, t: nat, o: Option<Handle>, e: int): Thread
    requires Enabled(s, Work(t, o, e))
  {
    var th := s.threads[t];
    var f := th.stack[0];
    var sl := s.slots[f.level];
    match f.pc
    case Calling =>
      if sl.flag.Done? then At(th, Reading)
      else At(th, if f.gift.Some? then StoreObject(f.gift.value, 0) else Making([]))
    case Making(got) =>
      (match NextOf(s.exc, f.level, got)
       case Nest(dep) => At(th, Waiting(got)).(stack := [Frame(dep, None, Calling)] + At(th, Waiting(got)).stack)
       case Fail(err) => At(th, StoreError(err))
       case Construct => At(th, StoreObject(o, e)))
    case StoreObject(_, err) => At(th, if f.gift.Some? then Seal else StoreError(err))
    case StoreError(_) => At(th, Seal)
    case Seal => At(th, Reading)
    case Reading => if s.exc && sl.error != 0 then Return(th, Threw(sl.error)) else At(th, Copying(sl.error))
    case Copying(err) => Return(th, Gave(sl.stored, err))
  }

  /** The slot of the level the thread is working on, after its step. */
  function Written(s: State, t: nat): Slot
    requires Shaped(s) && t < |s.threads| && s.threads[t].stack != []
  {
    var f := s.threads[t].stack[0];
    var sl := s.slots[f.level];
    match f.pc
    case Calling => if sl.flag.Idle? then sl.(flag := Running(t), makers := sl.makers + [t]) else sl
    case StoreObject(o, _) => sl.(stored := o)
    case StoreError(e) => sl.(error := e)
    case Seal => sl.(flag := Done, origin := if f.gift.Some? then Provided else Made)
    case _ => sl
  }

  function Apply(s: State, a: Action): State
    requires Enabled(s, a)
  {
    match a
    case Begin(l, gift) => s.(threads := s.threads + [Thread(l, gift, [Frame(l, gift, Calling)], None)])
    case Work(t, o, e) =>
      s.(slots := s.slots[s.threads[t].stack[0].level := Written(s, t)],
         threads := s.threads[t := Moved(s, t, o, e)])
  }

  predicate Runs(s: State, acts: seq<Action>)
    decreases |acts|
  {
    acts == [] || (Enabled(s, acts[0]) && Runs(Apply(s, acts[0]), acts[1..]))
  }

  function Exec(s: State, acts: seq<Action>): (s': State)
    requires Runs(s, acts)
    ensures Shaped(s) ==> Shaped(s')
    decreases |acts|
  {
    if acts == [] then s else Exec(Apply(s, acts[0]), acts[1..])
  }

  // ------------------------------------------------- invariant

  /** An answer that reports the sealed contents of a slot. */
  predicate Reports(exc: bool, sl: Slot, ans: Answer) {
    && sl.flag.Done? && ans.code == sl.error
    && (ans.Threw? <==> exc && sl.error != 0)
    && (ans.Gave? ==> ans.copied == sl.stored)
  }

  /** Answered dependencies are sealed, reported as they are, and none but the last stops the maker. */
  ghost predicate Answers(s: State, l: Level, got: seq<Answer>)
    requires Shaped(s)
  {
    && |got| <= |Deps(l)|
    && (forall k :: 0 <= k < |got| ==> Reports(s.exc, s.slots[Deps(l)[k]], got[k]))
    && (forall k :: 0 <= k < |got| - 1 ==> got[k].code != 0 ==> !Stops(s.exc, Deps(l)[k]))
  }

  /** The error code that the dependencies of l force on it, counting from dependency k. */
  function Forced(s: State, l: Level, k: nat): Option<int>
    requires Shaped(s)
    decreases |Deps(l)| - k
  {
    if k >= |Deps(l)| then None
    else if s.slots[Deps(l)[k]].error != 0 && Stops(s.exc, Deps(l)[k]) then Some(s.slots[Deps(l)[k]].error)
    else Forced(s, l, k + 1)
  }

  /** Every dependency of l up to the first one that stops it is sealed. */
  ghost predicate DepsSealed(s: State, l: Level)
    requires Shaped(s)
  {
    forall k :: 0 <= k < |Deps(l)| ==>
      s.slots[Deps(l)[k]].flag.Done?
      || (exists j :: 0 <= j < k && s.slots[Deps(l)[j]].flag.Done? && s.slots[Deps(l)[j]].error != 0
                      && Stops(s.exc, Deps(l)[j]))
  }

  /** The outcome (o, e) of making level l respects its sealed dependencies. */
  ghost predicate Respects(s: State, l: Level, o: Option<Handle>, e: int)
    requires Shaped(s)
  {
    && DepsSealed(s, l)
    && (Forced(s, l, 0).Some? ==> o.None? && e == Forced(s, l, 0).value)
    && (s.exc && e != 0 ==> o.None?)
  }

  ghost predicate FrameOk(s: State, t: nat, f: Frame)
    requires Shaped(s)
  {
    var sl := s.slots[f.level];
    && (InBody(f.pc) ==> sl.flag == Running(t))
    && (f.pc.Reading? || f.pc.Copying? ==> sl.flag.Done?)
    && (f.pc.Copying? ==> f.pc.e == sl.error && !(s.exc && sl.error != 0))
    && (f.pc.Making? || f.pc.Waiting? ==> f.gift.None? && Answers(s, f.level, f.pc.got))
    && (f.pc.Making? || f.pc.Waiting? || f.pc.StoreObject? ==> sl.stored.None? && sl.error == 0)
    && (f.pc.Waiting? ==> NextOf(s.exc, f.level, f.pc.got).Nest?)
    && (f.pc.StoreObject? && f.gift.None? ==> Respects(s, f.level, f.pc.built, f.pc.e))
    && (f.pc.StoreObject? && f.gift.Some? ==> f.pc.built == f.gift.value)
    && (f.pc.StoreError? ==> f.gift.None? && Respects(s, f.level, sl.stored, f.pc.e))
    && (f.pc.Seal? && f.gift.None? ==> Respects(s, f.level, sl.stored, sl.error))
    && (f.pc.Seal? && f.gift.Some? ==> sl.error == 0 && sl.stored == f.gift.value)
  }

  /** Frames descend strictly, and each outer frame waits for the one inside it. */
  ghost predicate Linked(exc: bool, st: seq<Frame>) {
    && (forall i, j :: 0 <= i < j < |st| ==> st[i].level < st[j].level)
    && (forall i :: 1 <= i < |st| ==>
          st[i].pc.Waiting? && NextOf(exc, st[i].level, st[i].pc.got) == Nest(st[i - 1].level))
    && (st != [] ==> !st[0].pc.Waiting?)
  }

  ghost predicate FramesOk(s: State, t: nat, st: seq<Frame>)
    requires Shaped(s)
  {
    forall i :: 0 <= i < |st| ==> FrameOk(s, t, st[i])
  }

  ghost predicate ThreadOk(s: State, t: nat, th: Thread)
    requires Shaped(s)
  {
    && Linked(s.exc, th.stack) && FramesOk(s, t, th.stack)
    && (th.stack == [] <==> th.answer.Some?)
    && (th.answer.Some? ==> Reports(s.exc, s.slots[th.level], th.answer.value))
    && Rooted(th)
  }

  /** The outermost frame is the call itself; only it can carry a gift. */
  ghost predicate Rooted(th: Thread) {
    var n := |th.stack|;
    && (n > 0 ==> th.stack[n - 1].level == th.level && th.stack[n - 1].gift == th.gift)
    && (forall i :: 0 <= i < n - 1 ==> th.stack[i].gift.None?)
  }

  /** Thread t has an open maker for level l. */
  ghost predicate Owns(th: Thread, l: Level) {
    exists i :: 0 <= i < |th.stack| && th.stack[i].level == l && InBody(th.stack[i].pc)
  }

  ghost predicate SlotOk(s: State, l: Level)
    requires Shaped(s)
  {
    var sl := s.slots[l];
    && (sl.flag.Idle? ==> sl == EmptySlot())
    && (sl.flag.Running? ==>
          sl.flag.owner < |s.threads| && Owns(s.threads[sl.flag.owner], l) && sl.makers == [sl.flag.owner])
    && (sl.flag.Done? ==> |sl.makers| == 1 && !sl.origin.Unset?)
    && (sl.flag.Done? && sl.origin.Made? ==> Respects(s, l, sl.stored, sl.error))
    && (sl.flag.Done? && sl.origin.Provided? ==>
          && sl.error == 0 && sl.makers[0] < |s.threads|
          && s.threads[sl.makers[0]].level == l && s.threads[sl.makers[0]].gift == Some(sl.stored))
  }

  ghost predicate Inv(s: State) {
    && Shaped(s)
    && (forall l: Level :: SlotOk(s, l))
    && (forall t :: 0 <= t < |s.threads| ==> ThreadOk(s, t, s.threads[t]))
  }

  // ------------------------------------------------- every step keeps the invariant

  /** Same mode, and every sealed slot of s is unchanged in s'. */
  predicate Later(s: State, s': State)
    requires Shaped(s)
  {
    Shaped(s') && s'.exc == s.exc && forall l: Level :: s.slots[l].flag.Done? ==> s'.slots[l] == s.slots[l]
  }

  lemma StepLater(s: State, a: Action)
    requires Inv(s) && Enabled(s, a)
    ensures Later(s, Apply(s, a))
  {
    if a.Work? {
      var f := s.threads[a.who].stack[0];
      assert ThreadOk(s, a.who, s.threads[a.who]);
      assert FrameOk(s, a.who, f);
    }
  }

  lemma RespectsLater(s: State, s': State, l: Level, o: Option<Handle>, e: int)
    requires Shaped(s) && Later(s, s') && Respects(s, l, o, e)
    ensures Respects(s', l, o, e)
  {
    assert Forced(s', l, 0) == Forced(s, l, 0) by {
      if |Deps(l)| > 0 {
        assert s.slots[Deps(l)[0]].flag.Done?;
        assert Forced(s, l, 2).None? && Forced(s', l, 2).None?;
      }
    }
  }

  lemma AnswersLater(s: State, s': State, l: Level, got: seq<Answer>)
    requires Shaped(s) && Later(s, s') && Answers(s, l, got)
    ensures Answers(s', l, got)
  {}

  /** A frame whose own slot is untouched stays well placed. */
  lemma FrameLater(s: State, s': State, t: nat, f: Frame)
    requires Shaped(s) && Later(s, s') && FrameOk(s, t, f)
    requires f.pc.Calling? || s'.slots[f.level] == s.slots[f.level]
    ensures FrameOk(s', t, f)
  {
    if f.pc.Making? || f.pc.Waiting? { AnswersLater(s, s', f.level, f.pc.got); }
    if f.pc.StoreObject? && f.gift.None? { RespectsLater(s, s', f.level, f.pc.built, f.pc.e); }
    if f.pc.StoreError? { RespectsLater(s, s', f.level, s.slots[f.level].stored, f.pc.e); }
    if f.pc.Seal? && f.gift.None? { RespectsLater(s, s', f.level, s.slots[f.level].stored, s.slots[f.level].error); }
  }

  /** A step of thread a.who leaves the slot of every other open frame alone. */
  lemma SlotUntouched(s: State, a: Action, u: nat, i: nat)
    requires Inv(s) && Enabled(s, a) && u < |s.threads| && i < |s.threads[u].stack|
    requires a.Begin? || u != a.who || i > 0
    requires !s.threads[u].stack[i].pc.Calling?
    ensures Apply(s, a).slots[s.threads[u].stack[i].level] == s.slots[s.threads[u].stack[i].level]
  {
    assert ThreadOk(s, u, s.threads[u]) && FrameOk(s, u, s.threads[u].stack[i]);
    if a.Work? {
      assert ThreadOk(s, a.who, s.threads[a.who]) && FrameOk(s, a.who, s.threads[a.who].stack[0]);
    }
  }

  lemma OtherThreadKept(s: State, a: Action, u: nat)
    requires Inv(s) && Enabled(s, a) && u < |s.threads| && (a.Begin? || u != a.who)
    ensures ThreadOk(Apply(s, a), u, s.threads[u])
  {
    var s', th := Apply(s, a), s.threads[u];
    StepLater(s, a);
    assert ThreadOk(s, u, th);
    forall i | 0 <= i < |th.stack|
      ensures FrameOk(s', u, th.stack[i])
    {
      if !th.stack[i].pc.Calling? { SlotUntouched(s, a, u, i); }
      FrameLater(s, s', u, th.stack[i]);
    }
  }

  /** Once its dependencies have answered, what a maker does next respects them. */
  lemma MakerRespects(s: State, l: Level, got: seq<Answer>, o: Option<Handle>, e: int)
    requires Shaped(s) && Answers(s, l, got)
    requires match NextOf(s.exc, l, got)
             case Nest(_) => false
             case Fail(err) => o.None? && e == err
             case Construct => Outcome(s.exc, l, o, e)
    ensures Respects(s, l, o, e)
  {
    var n := |got|;
    assert Forced(s, l, 2).None?;
    if n > 0 {
      assert Reports(s.exc, s.slots[Deps(l)[0]], got[0]);
      if n == 2 {
        assert Reports(s.exc, s.slots[Deps(l)[1]], got[1]);
        assert got[0].code != 0 ==> !Stops(s.exc, Deps(l)[0]);
        assert Forced(s, l, 0) == Forced(s, l, 1);
      }
    }
  }

  /** The top frame after a step that neither nests nor returns. */
  lemma TopKept(s: State, t: nat, o: Option<Handle>, e: int)
    requires Inv(s) && Enabled(s, Work(t, o, e))
    requires var f := s.threads[t].stack[0];
             && !f.pc.Copying? && !(f.pc.Reading? && s.exc && s.slots[f.level].error != 0)
             && (f.pc.Making? ==> !NextOf(s.exc, f.level, f.pc.got).Nest?)
    ensures var s' := Apply(s, Work(t, o, e));
            var f := s.threads[t].stack[0]; var f' := s'.threads[t].stack[0];
            && s'.threads[t].stack == [f'] + s.threads[t].stack[1..]
            && f'.level == f.level && f'.gift == f.gift && !f'.pc.Waiting? && FrameOk(s', t, f')
            && s'.threads[t] == s.threads[t].(stack := s'.threads[t].stack)
  {
    var s' := Apply(s, Work(t, o, e));
    var f := s.threads[t].stack[0];
    StepLater(s, Work(t, o, e));
    assert ThreadOk(s, t, s.threads[t]) && FrameOk(s, t, f) && SlotOk(s, f.level);
    match f.pc
    case Calling =>
    case Making(got) =>
      var n := NextOf(s.exc, f.level, got);
      if n.Fail? {
        MakerRespects(s, f.level, got, None, n.e);
        RespectsLater(s, s', f.level, None, n.e);
      } else {
        MakerRespects(s, f.level, got, o, e);
        RespectsLater(s, s', f.level, o, e);
      }
    case StoreObject(b, err) =>
      if f.gift.None? { RespectsLater(s, s', f.level, b, err); }
    case StoreError(err) => RespectsLater(s, s', f.level, s.slots[f.level].stored, err);
    case _ =>
  }

  /** The rest of the stack after any step of its own thread. */
  lemma RestKept(s: State, a: Action, i: nat)
    requires Inv(s) && Enabled(s, a) && a.Work? && 0 < i < |s.threads[a.who].stack|
    ensures FrameOk(Apply(s, a), a.who, s.threads[a.who].stack[i])
  {
    StepLater(s, a);
    var st := s.threads[a.who].stack;
    assert ThreadOk(s, a.who, s.threads[a.who]) && FrameOk(s, a.who, st[i]);
    SlotUntouched(s, a, a.who, i);
    FrameLater(s, Apply(s, a), a.who, st[i]);
  }

  predicate Returning(s: State, f: Frame)
    requires Shaped(s)
  {
    f.pc.Copying? || (f.pc.Reading? && s.exc && s.slots[f.level].error != 0)
  }

  predicate Nesting(s: State, f: Frame) {
    f.pc.Making? && NextOf(s.exc, f.level, f.pc.got).Nest?
  }

  // How a step reshapes a stack.

  lemma LinkedPlain(exc: bool, st: seq<Frame>, f: Frame)
    requires Linked(exc, st) && st != [] && f.level == st[0].level && !f.pc.Waiting?
    ensures Linked(exc, [f] + st[1..])
  {
    assert forall i :: 1 <= i < |st| ==> ([f] + st[1..])[i] == st[i];
  }

  lemma LinkedPush(exc: bool, st: seq<Frame>, f: Frame, g: Frame)
    requires Linked(exc, st) && st != [] && f.level == st[0].level
    requires f.pc.Waiting? && NextOf(exc, f.level, f.pc.got) == Nest(g.level) && !g.pc.Waiting?
    ensures Linked(exc, [g] + ([f] + st[1..]))
  {
    var st' := [g] + ([f] + st[1..]);
    assert forall i :: 2 <= i < |st'| ==> st'[i] == st[i - 1];
    assert g.level < f.level;
  }

  lemma LinkedPop(exc: bool, st: seq<Frame>, f: Frame)
    requires Linked(exc, st) && |st| > 1 && f.level == st[1].level && !f.pc.Waiting?
    ensures Linked(exc, [f] + st[2..])
  {
    var st' := [f] + st[2..];
    assert forall i :: 1 <= i < |st'| ==> st'[i] == st[i + 1];
  }

  lemma RootedPlain(th: Thread, f: Frame)
    requires Rooted(th) && th.stack != [] && f.level == th.stack[0].level && f.gift == th.stack[0].gift
    ensures Rooted(th.(stack := [f] + th.stack[1..]))
  {}

  lemma RootedPush(th: Thread, g: Frame)
    requires Rooted(th) && th.stack != [] && g.gift.None?
    ensures Rooted(th.(stack := [g] + th.stack))
  {
    var st' := [g] + th.stack;
    assert forall i :: 1 <= i < |st'| ==> st'[i] == th.stack[i - 1];
  }

  lemma PlainFrames(s: State, a: Action)
    requires Inv(s) && Enabled(s, a) && a.Work?
    requires !Returning(s, s.threads[a.who].stack[0]) && !Nesting(s, s.threads[a.who].stack[0])
    ensures FramesOk(Apply(s, a), a.who, Apply(s, a).threads[a.who].stack)
  {
    var st, st' := s.threads[a.who].stack, Apply(s, a).threads[a.who].stack;
    TopKept(s, a.who, a.built, a.e);
    forall i | 0 <= i < |st'| ensures FrameOk(Apply(s, a), a.who, st'[i]) {
      if i > 0 {
        assert st'[i] == st[i];
        RestKept(s, a, i);
      }
    }
  }

  lemma ActingKeptPlain(s: State, a: Action)
    requires Inv(s) && Enabled(s, a) && a.Work?
    requires !Returning(s, s.threads[a.who].stack[0]) && !Nesting(s, s.threads[a.who].stack[0])
    ensures ThreadOk(Apply(s, a), a.who, Apply(s, a).threads[a.who])
  {
    var th := s.threads[a.who];
    var f := Apply(s, a).threads[a.who].stack[0];
    assert ThreadOk(s, a.who, th);
    TopKept(s, a.who, a.built, a.e);
    LinkedPlain(s.exc, th.stack, f);
    RootedPlain(th, f);
    PlainFrames(s, a);
  }

  /** The stack after entering a nested call. */
  lemma NestedStack(s: State, a: Action)
    requires Enabled(s, a) && a.Work? && Nesting(s, s.threads[a.who].stack[0])
    ensures var th := s.threads[a.who]; var th' := Apply(s, a).threads[a.who];
            var f := th.stack[0].(pc := Waiting(th.stack[0].pc.got));
            && Apply(s, a).slots == s.slots
            && th' == th.(stack := [Frame(NextOf(s.exc, f.level, f.pc.got).dep, None, Calling)] + ([f] + th.stack[1..]))
  {}

  lemma NestedFrames(s: State, a: Action)
    requires Inv(s) && Enabled(s, a) && a.Work? && Nesting(s, s.threads[a.who].stack[0])
    ensures FramesOk(Apply(s, a), a.who, Apply(s, a).threads[a.who].stack)
  {
    var st, s' := s.threads[a.who].stack, Apply(s, a);
    var st' := s'.threads[a.who].stack;
    NestedStack(s, a);
    StepLater(s, a);
    assert ThreadOk(s, a.who, s.threads[a.who]) && FrameOk(s, a.who, st[0]);
    AnswersLater(s, s', st[0].level, st[0].pc.got);
    forall i | 0 <= i < |st'| ensures FrameOk(s', a.who, st'[i]) {
      if i > 1 {
        assert st'[i] == st[i - 1];
        RestKept(s, a, i - 1);
      }
    }
  }

  lemma ActingKeptNesting(s: State, a: Action)
    requires Inv(s) && Enabled(s, a) && a.Work? && Nesting(s, s.threads[a.who].stack[0])
    ensures ThreadOk(Apply(s, a), a.who, Apply(s, a).threads[a.who])
  {
    var th := s.threads[a.who];
    var f := th.stack[0].(pc := Waiting(th.stack[0].pc.got));
    var g := Frame(NextOf(s.exc, f.level, f.pc.got).dep, None, Calling);
    assert ThreadOk(s, a.who, th);
    NestedStack(s, a);
    NestedFrames(s, a);
    LinkedPush(s.exc, th.stack, f, g);
    RootedPlain(th, f);
    RootedPush(th.(stack := [f] + th.stack[1..]), g);
  }

  lemma AnswerReports(s: State, a: Action)
    requires Inv(s) && Enabled(s, a) && a.Work? && Returning(s, s.threads[a.who].stack[0])
    ensures var th := s.threads[a.who]; var sl := s.slots[th.stack[0].level];
            var ans := if th.stack[0].pc.Reading? then Threw(sl.error) else Gave(sl.stored, sl.error);
            && Reports(s.exc, Apply(s, a).slots[th.stack[0].level], ans)
            && Apply(s, a).threads[a.who] == Return(th, ans)
  {
    assert ThreadOk(s, a.who, s.threads[a.who]) && FrameOk(s, a.who, s.threads[a.who].stack[0]);
  }

  /** The frame below a returning one resumes its maker with the answer added. */
  lemma Resumed(s: State, a: Action)
    requires Inv(s) && Enabled(s, a) && a.Work?
             && Returning(s, s.threads[a.who].stack[0]) && |s.threads[a.who].stack| > 1
    ensures var s' := Apply(s, a); var st := s.threads[a.who].stack; var st' := s'.threads[a.who].stack;
            && st' == [st'[0]] + st[2..] && st'[0].level == st[1].level
            && st'[0].pc.Making? && FrameOk(s', a.who, st'[0])
  {
    var th := s.threads[a.who];
    var st, s' := th.stack, Apply(s, a);
    StepLater(s, a);
    AnswerReports(s, a);
    assert ThreadOk(s, a.who, th) && FrameOk(s, a.who, st[1]);
    RestKept(s, a, 1);
    var sl := s.slots[st[0].level];
    AnswersExtend(s', st[1].level, st[1].pc.got,
                  if st[0].pc.Reading? then Threw(sl.error) else Gave(sl.stored, sl.error));
  }

  lemma ActingKeptReturning(s: State, a: Action)
    requires Inv(s) && Enabled(s, a) && a.Work? && Returning(s, s.threads[a.who].stack[0])
    ensures ThreadOk(Apply(s, a), a.who, Apply(s, a).threads[a.who])
  {
    var th, th' := s.threads[a.who], Apply(s, a).threads[a.who];
    assert ThreadOk(s, a.who, th);
    StepLater(s, a);
    AnswerReports(s, a);
    if |th.stack| > 1 {
      Resumed(s, a);
      LinkedPop(s.exc, th.stack, th'.stack[0]);
      ReturnedFrames(s, a);
      assert Rooted(th');
    }
  }

  lemma ReturnedFrames(s: State, a: Action)
    requires Inv(s) && Enabled(s, a) && a.Work?
             && Returning(s, s.threads[a.who].stack[0]) && |s.threads[a.who].stack| > 1
    ensures FramesOk(Apply(s, a), a.who, Apply(s, a).threads[a.who].stack)
  {
    Resumed(s, a);
    var st, st' := s.threads[a.who].stack, Apply(s, a).threads[a.who].stack;
    forall i | 0 <= i < |st'|
      ensures FrameOk(Apply(s, a), a.who, st'[i])
    {
      if i > 0 {
        assert st'[i] == st[i + 1];
        RestKept(s, a, i + 1);
      }
    }
  }

  lemma AnswersExtend(s: State, l: Level, got: seq<Answer>, ans: Answer)
    requires Shaped(s) && Answers(s, l, got) && NextOf(s.exc, l, got).Nest?
    requires Reports(s.exc, s.slots[Deps(l)[|got|]], ans)
    ensures Answers(s, l, got + [ans])
  {}

  lemma OwnsKept(s: State, a: Action, u: nat, l: Level)
    requires Inv(s) && Enabled(s, a) && u < |s.threads| && Owns(s.threads[u], l)
    requires Apply(s, a).slots[l].flag == Running(u)
    ensures Owns(Apply(s, a).threads[u], l)
  {
    var th := s.threads[u];
    assert ThreadOk(s, u, th);
    if a.Work? && u == a.who {
      var i :| 0 <= i < |th.stack| && th.stack[i].level == l && InBody(th.stack[i].pc);
      OwnsStep(s, a, i);
    }
  }

  /** A frame below the top stays, one place deeper or shallower. */
  lemma RestShape(s: State, a: Action, i: nat) returns (j: nat)
    requires Inv(s) && Enabled(s, a) && a.Work? && 0 < i < |s.threads[a.who].stack|
    ensures var st := s.threads[a.who].stack; var st' := Apply(s, a).threads[a.who].stack;
            && j < |st'| && st'[j].level == st[i].level && InBody(st'[j].pc)
  {
    var st := s.threads[a.who].stack;
    assert ThreadOk(s, a.who, s.threads[a.who]);
    assert st[i].pc.Waiting?;
    if Returning(s, st[0]) {
      AnswerReports(s, a);
      j := i - 1;
    } else if Nesting(s, st[0]) {
      j := i + 1;
    } else {
      TopKept(s, a.who, a.built, a.e);
      j := i;
    }
  }

  lemma OwnsStep(s: State, a: Action, i: nat)
    requires Inv(s) && Enabled(s, a) && a.Work? && i < |s.threads[a.who].stack|
    requires var f := s.threads[a.who].stack[i]; InBody(f.pc) && Apply(s, a).slots[f.level].flag.Running?
    ensures Owns(Apply(s, a).threads[a.who], s.threads[a.who].stack[i].level)
  {
    var st := s.threads[a.who].stack;
    var st' := Apply(s, a).threads[a.who].stack;
    if i > 0 {
      var j := RestShape(s, a, i);
    } else if Nesting(s, st[0]) {
      assert st'[1].level == st[0].level && InBody(st'[1].pc);
    } else {
      TopKept(s, a.who, a.built, a.e);
      assert InBody(st'[0].pc);
    }
  }

  lemma RunningKept(s: State, a: Action, l: Level)
    requires Inv(s) && Enabled(s, a) && Apply(s, a).slots[l].flag.Running?
    ensures SlotOk(Apply(s, a), l)
  {
    assert SlotOk(s, l);
    if s.slots[l].flag.Running? {
      OwnsKept(s, a, s.slots[l].flag.owner, l);
    } else {
      var f := Apply(s, a).threads[a.who].stack[0];
      assert InBody(f.pc) && f.level == l;
    }
  }

  lemma SealingKept(s: State, a: Action, l: Level)
    requires Inv(s) && Enabled(s, a) && !s.slots[l].flag.Done? && Apply(s, a).slots[l].flag.Done?
    ensures SlotOk(Apply(s, a), l)
  {
    var th := s.threads[a.who];
    StepLater(s, a);
    assert SlotOk(s, l) && ThreadOk(s, a.who, th) && FrameOk(s, a.who, th.stack[0]);
    if th.stack[0].gift.None? { RespectsLater(s, Apply(s, a), l, s.slots[l].stored, s.slots[l].error); }
  }

  lemma SealedKept(s: State, a: Action, l: Level)
    requires Inv(s) && Enabled(s, a) && s.slots[l].flag.Done?
    ensures SlotOk(Apply(s, a), l)
  {
    var sl := s.slots[l];
    StepLater(s, a);
    assert SlotOk(s, l);
    if sl.origin.Made? { RespectsLater(s, Apply(s, a), l, sl.stored, sl.error); }
  }

  lemma SlotKept(s: State, a: Action, l: Level)
    requires Inv(s) && Enabled(s, a)
    ensures SlotOk(Apply(s, a), l)
  {
    StepLater(s, a);
    assert SlotOk(s, l);
    if Apply(s, a).slots[l].flag.Running? {
      RunningKept(s, a, l);
    } else if s.slots[l].flag.Done? {
      SealedKept(s, a, l);
    } else if Apply(s, a).slots[l].flag.Done? {
      SealingKept(s, a, l);
    }
  }

  lemma ActingKept(s: State, a: Action)
    requires Inv(s) && Enabled(s, a) && a.Work?
    ensures ThreadOk(Apply(s, a), a.who, Apply(s, a).threads[a.who])
  {
    if Returning(s, s.threads[a.who].stack[0]) { ActingKeptReturning(s, a); }
    else if Nesting(s, s.threads[a.who].stack[0]) { ActingKeptNesting(s, a); }
    else { ActingKeptPlain(s, a); }
  }

  lemma InvKept(s: State, a: Action)
    requires Inv(s) && Enabled(s, a)
    ensures Inv(Apply(s, a))
  {
    var s' := Apply(s, a);
    StepLater(s, a);
    forall l: Level ensures SlotOk(s', l) { SlotKept(s, a, l); }
    forall t | 0 <= t < |s'.threads|
      ensures ThreadOk(s', t, s'.threads[t])
    {
      if a.Work? && t == a.who { ActingKept(s, a); }
      else if t < |s.threads| { OtherThreadKept(s, a, t); }
    }
  }
}
