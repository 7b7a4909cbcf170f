/**
 cl::Context::getDefault and cl::CommandQueue::getDefault of CL/cl.hpp together.
 Each has its own slot; the call that initialises the queue makes a nested call
 for the default context, keeps a local copy of it, and releases that copy when
 it returns. Any number of calls of either kind may start at any time.
 */
module SpinDefault {
  import opened Basics
  import S = SpinSlot
  import R = SpinRuns

  datatype Kind = ContextCall | QueueCall

  /** Call i owns entry i of both slots; `parent` records the context each queue was created in. */
  datatype State = State(ctx: S.Slot, que: S.Slot, kinds: seq<Kind>, parent: map<Handle, Option<Handle>>)

  datatype Action =
    | Begin(kind: Kind, want: bool)
    | Work(who: nat, built: Option<Handle>, code: int)   // `built` and `code` matter to a constructor only
    | Drop(who: nat)                                       // the caller destroys the copy it was given

  function Start(): State {
    State(S.Fresh(S.NOT_INITIALIZED), S.Fresh(S.NOT_INITIALIZED), [], map[])
  }

  predicate Shaped(s: State) {
    |s.ctx.parts| == |s.que.parts| == |s.kinds|
  }

  /** What the action does to the context slot. */
  function CtxEvent(s: State, a: Action): Option<S.Event>
    requires Shaped(s)
  {
    match a
    case Begin(kind, want) => Some(S.Join(kind.QueueCall? || want, kind.ContextCall?))
    case Work(i, o, e) =>
      if i >= |s.kinds| then None else
      var c, q := s.ctx.parts[i].pc, s.que.parts[i].pc;
      if s.kinds[i].QueueCall? && q.Returned? && c.Returned? then Some(S.Destroy(i))
      else if s.kinds[i].QueueCall? && !q.Construct? then None
      else if s.kinds[i].QueueCall? && c.Idle? then Some(S.Start(i))
      else if c.Construct? then Some(S.Build(i, o, e))
      else if S.Steppable(c) then Some(S.Advance(i))
      else None
    case Drop(i) =>
      if i < |s.kinds| && s.kinds[i].ContextCall? then Some(S.Destroy(i)) else None
  }

  /** What the action does to the queue slot. */
  function QueEvent(s: State, a: Action): Option<S.Event>
    requires Shaped(s)
  {
    match a
    case Begin(kind, want) => Some(S.Join(want, kind.QueueCall?))
    case Work(i, o, e) =>
      if i >= |s.kinds| || s.kinds[i].ContextCall? then None else
      var c, q := s.ctx.parts[i].pc, s.que.parts[i].pc;
      if q.Construct? && c.Returned? then
        if c.report.Some? && c.report.value != 0 then Some(S.Abort(i, c.report.value))
        else Some(S.Build(i, o, e))
      else if S.Steppable(q) then Some(S.Advance(i))
      else None
    case Drop(i) =>
      if i < |s.kinds| && s.kinds[i].QueueCall? && !s.ctx.parts[i].pc.Returned? then Some(S.Destroy(i)) else None
  }

  predicate May(s: S.Slot, ev: Option<S.Event>) {
    ev.Some? ==> S.Enabled(s, ev.value)
  }

  function Do(s: S.Slot, ev: Option<S.Event>): S.Slot
    requires May(s, ev)
  {
    if ev.Some? then S.Apply(s, ev.value) else s
  }

  predicate Enabled(s: State, a: Action) {
    && Shaped(s)
    && May(s.ctx, CtxEvent(s, a)) && May(s.que, QueEvent(s, a))
    && (CtxEvent(s, a).Some? || QueEvent(s, a).Some?)
  }

  function Apply(s: State, a: Action): State
    requires Enabled(s, a)
  {
    var qe := QueEvent(s, a);
    State(Do(s.ctx, CtxEvent(s, a)), Do(s.que, qe),
          if a.Begin? then s.kinds + [a.kind] else s.kinds,
          if qe.Some? && qe.value.Build? && qe.value.built.Some?
          then s.parent[qe.value.built.value := s.ctx.parts[a.who].pc.copied] else s.parent)
  }

  predicate Runs(s: State, acts: seq<Action>)
    decreases |acts|
  {
    acts == [] || (Enabled(s, acts[0]) && Runs(Apply(s, acts[0]), acts[1..]))
  }

  function Exec(s: State, acts: seq<Action>): State
    requires Runs(s, acts)
    decreases |acts|
  {
    if acts == [] then s else Exec(Apply(s, acts[0]), acts[1..])
  }

  // ------------------------------------------------- how the two levels of one call fit together

  /** The nested context call runs only inside the queue's initialising section. */
  predicate Nested(kind: Kind, c: S.Part, q: S.Part) {
    match kind
    case ContextCall => q.pc.Idle? && !c.pc.Idle?
    case QueueCall =>
      && c.want && !q.pc.Idle?
      && (q.pc.Enter? || q.pc.Spin? ==> c.pc.Idle?)
      && (q.pc.Construct? ==> !c.pc.Destroyed?)
      && (q.pc.Assign? || q.pc.PublishError? || q.pc.PublishFlag? ==> c.pc.Returned?)
      && (q.pc.ReadError? || q.pc.CopyHandle? || q.pc.Retain? ==> c.pc.Idle? || c.pc.Returned?)
      && (q.pc.Returned? ==> c.pc.Idle? || c.pc.Returned? || c.pc.Destroyed?)
      && (q.pc.Destroyed? ==> c.pc.Idle? || c.pc.Destroyed?)
  }

  /** The queue slot's outcome, given the published context: a queue of that context, or its error. */
  predicate FollowsContext(s: State, o: Option<Handle>, e: int) {
    && s.ctx.flag == S.INITIALIZED
    && (s.ctx.error == 0 ==> (o.Some? ==> o.value in s.parent && s.parent[o.value] == s.ctx.stored))
    && (s.ctx.error != 0 ==> o.None? && e == s.ctx.error)
  }

  predicate Origin(s: State, q: S.Part) {
    match q.pc
    case Assign(o, e) => FollowsContext(s, o, e) && s.ctx.error == 0
    case PublishError(e) => FollowsContext(s, s.que.stored, e)
    case PublishFlag => FollowsContext(s, s.que.stored, s.que.error)
    case _ => true
  }

  /** Queue handles the runtime has handed out. */
  predicate ParentsKnown(s: State) {
    forall h :: h in s.parent ==> h in s.que.counts
  }

  predicate AllNested(s: State)
    requires Shaped(s)
  {
    forall i :: 0 <= i < |s.kinds| ==> Nested(s.kinds[i], s.ctx.parts[i], s.que.parts[i])
  }

  predicate AllFollow(s: State)
    requires Shaped(s)
  {
    forall i :: 0 <= i < |s.kinds| ==> Origin(s, s.que.parts[i])
  }

  ghost predicate Inv(s: State) {
    && Shaped(s) && S.Inv(s.ctx) && S.Inv(s.que) && AllNested(s) && AllFollow(s)
    && (s.que.flag == S.INITIALIZED ==> FollowsContext(s, s.que.stored, s.que.error))
    && ParentsKnown(s)
  }

  /** A call other than the acting one keeps both its entries. */
  lemma OthersKept(s: State, a: Action, i: nat)
    requires Enabled(s, a) && i < |s.kinds| && (a.Begin? || i != a.who)
    ensures var t := Apply(s, a);
            && Shaped(t) && i < |t.kinds| && t.kinds[i] == s.kinds[i]
            && t.ctx.parts[i] == s.ctx.parts[i] && t.que.parts[i] == s.que.parts[i]
  {}

  /** The acting call's two entries after its step. */
  lemma ActingStep(s: State, a: Action)
    requires Enabled(s, a) && !a.Begin?
    ensures var t := Apply(s, a); var i := a.who;
            && Shaped(t) && i < |t.kinds| && t.kinds == s.kinds
            && Moves(CtxEvent(s, a), s.ctx.parts[i], t.ctx.parts[i])
            && Moves(QueEvent(s, a), s.que.parts[i], t.que.parts[i])
  {}

  /** How an event changes the participant it names. */
  predicate Moves(ev: Option<S.Event>, p: S.Part, p': S.Part) {
    && p'.want == p.want
    && (ev.None? ==> p' == p)
    && (ev.Some? ==>
          match ev.value
          case Join(_, _) => false
          case Start(_) => p'.pc.Enter?
          case Build(_, o, e) => p'.pc == S.Assign(o, e)
          case Abort(_, e) => p'.pc == S.PublishError(e)
          case Destroy(_) => p.pc.Returned? && p'.pc == S.Destroyed(p.pc.copied, p.pc.report)
          case Advance(_) =>
            match p.pc
            case Enter => p'.pc.Construct? || p'.pc.ReadError? || p'.pc.Spin?
            case Spin => p'.pc.Spin? || p'.pc.ReadError?
            case Assign(_, e) => p'.pc == S.PublishError(e)
            case PublishError(_) => p'.pc.PublishFlag?
            case PublishFlag => p'.pc.ReadError?
            case ReadError => p'.pc.CopyHandle?
            case CopyHandle(_) => p'.pc.Retain?
            case Retain(o, r) => p'.pc == S.Returned(o, r)
            case _ => false)
  }

  lemma NestedKept(s: State, a: Action, i: nat)
    requires Enabled(s, a) && i < |Apply(s, a).kinds|
    requires i < |s.kinds| ==> Nested(s.kinds[i], s.ctx.parts[i], s.que.parts[i])
    ensures var t := Apply(s, a); Shaped(t) && Nested(t.kinds[i], t.ctx.parts[i], t.que.parts[i])
  {
    if a.Begin? {
      if i < |s.kinds| { OthersKept(s, a, i); }
    } else {
      ActingStep(s, a);
      if i != a.who { OthersKept(s, a, i); }
    }
  }

  /** Once published, the context slot's contents are fixed; queue parents are never rewritten. */
  lemma FollowsKept(s: State, a: Action, o: Option<Handle>, e: int)
    requires Inv(s) && Enabled(s, a) && FollowsContext(s, o, e)
    ensures FollowsContext(Apply(s, a), o, e)
    ensures Apply(s, a).ctx.error == s.ctx.error
  {
    var ce := CtxEvent(s, a);
    if ce.Some? {
      var evs := [ce.value];
      assert S.Runs(S.Apply(s.ctx, ce.value), evs[1..]);
      R.Frozen(s.ctx, evs);
      assert S.Exec(s.ctx, evs) == S.Apply(s.ctx, ce.value);
    }
  }

  /** Only the call in the initialising section writes the queue slot. */
  lemma QueueSlotKept(s: State, a: Action, i: nat)
    requires Inv(s) && Enabled(s, a) && i < |s.kinds| && S.Initialising(s.que.parts[i]) && (a.Begin? || i != a.who)
    ensures Apply(s, a).que.stored == s.que.stored && Apply(s, a).que.error == s.que.error
  {
    var qe := QueEvent(s, a);
    if qe.Some? && qe.value.Advance? {
      assert !S.Initialising(s.que.parts[a.who]);
    }
  }

  /** The nested call's answer is the published context. */
  lemma NestedAnswer(s: State, i: nat)
    requires Inv(s) && i < |s.kinds| && s.kinds[i].QueueCall? && s.ctx.parts[i].pc.Returned?
    ensures s.ctx.flag == S.INITIALIZED
    ensures s.ctx.parts[i].pc.copied == s.ctx.stored && s.ctx.parts[i].pc.report == Some(s.ctx.error)
  {
    assert Nested(s.kinds[i], s.ctx.parts[i], s.que.parts[i]);
    assert S.Reading(s.ctx.parts[i]);
    assert S.ReadsFinal(s.ctx, s.ctx.parts[i]);
  }

  lemma ActingOrigin(s: State, a: Action)
    requires Inv(s) && Enabled(s, a) && !a.Begin? && a.who < |s.kinds|
    ensures Shaped(Apply(s, a)) && Origin(Apply(s, a), Apply(s, a).que.parts[a.who])
  {
    var t, i := Apply(s, a), a.who;
    var q := s.que.parts[i].pc;
    ActingStep(s, a);
    assert Nested(s.kinds[i], s.ctx.parts[i], s.que.parts[i]);
    assert Origin(s, s.que.parts[i]);
    var qe := QueEvent(s, a);
    if qe.None? {
      match q
      case Assign(o, e) => FollowsKept(s, a, o, e);
      case PublishError(e) => FollowsKept(s, a, s.que.stored, e);
      case PublishFlag => FollowsKept(s, a, s.que.stored, s.que.error);
      case _ =>
    } else if qe.value.Build? || qe.value.Abort? {
      NestedAnswer(s, i);
    } else if qe.value.Advance? {
      match q
      case Assign(o, e) => FollowsKept(s, a, o, e);
      case PublishError(e) => FollowsKept(s, a, s.que.stored, e);
      case _ =>
    }
  }

  lemma OriginKept(s: State, a: Action, i: nat)
    requires Inv(s) && Enabled(s, a) && i < |Apply(s, a).kinds|
    ensures Shaped(Apply(s, a)) && Origin(Apply(s, a), Apply(s, a).que.parts[i])
  {
    if a.Begin? && i == |s.kinds| {
    } else if !a.Begin? && i == a.who {
      ActingOrigin(s, a);
    } else {
      OthersKept(s, a, i);
      assert Origin(s, s.que.parts[i]);
      if S.Initialising(s.que.parts[i]) {
        QueueSlotKept(s, a, i);
        match s.que.parts[i].pc
        case Assign(o, e) => FollowsKept(s, a, o, e);
        case PublishError(e) => FollowsKept(s, a, s.que.stored, e);
        case PublishFlag => FollowsKept(s, a, s.que.stored, s.que.error);
        case _ =>
      }
    }
  }

  lemma PublishedKept(s: State, a: Action)
    requires Inv(s) && Enabled(s, a) && Apply(s, a).que.flag == S.INITIALIZED
    ensures var t := Apply(s, a); FollowsContext(t, t.que.stored, t.que.error)
  {
    if s.que.flag == S.INITIALIZED {
      FollowsKept(s, a, s.que.stored, s.que.error);
      if !a.Begin? { assert a.who < |s.kinds| ==> !S.Initialising(s.que.parts[a.who]); }
    } else {
      assert Origin(s, s.que.parts[a.who]);
      FollowsKept(s, a, s.que.stored, s.que.error);
    }
  }

  lemma SlotsKept(s: State, a: Action)
    requires Inv(s) && Enabled(s, a)
    ensures S.Inv(Apply(s, a).ctx) && S.Inv(Apply(s, a).que)
  {
    if CtxEvent(s, a).Some? { S.InvKept(s.ctx, CtxEvent(s, a).value); }
    if QueEvent(s, a).Some? { S.InvKept(s.que, QueEvent(s, a).value); }
  }

  lemma CallsKept(s: State, a: Action)
    requires Inv(s) && Enabled(s, a)
    ensures Shaped(Apply(s, a)) && AllNested(Apply(s, a)) && AllFollow(Apply(s, a))
  {
    var t := Apply(s, a);
    ShapeKept(s, a);
    forall i | 0 <= i < |t.kinds|
      ensures Nested(t.kinds[i], t.ctx.parts[i], t.que.parts[i]) && Origin(t, t.que.parts[i])
    {
      NestedKept(s, a, i);
      OriginKept(s, a, i);
    }
  }

  lemma ShapeKept(s: State, a: Action)
    requires Enabled(s, a)
    ensures Shaped(Apply(s, a))
  {}

  lemma ParentsKept(s: State, a: Action)
    requires ParentsKnown(s) && Enabled(s, a)
    ensures ParentsKnown(Apply(s, a))
  {}

  lemma InvKept(s: State, a: Action)
    requires Inv(s) && Enabled(s, a)
    ensures Inv(Apply(s, a))
  {
    var t := Apply(s, a);
    assert S.Inv(t.ctx) && S.Inv(t.que) by { SlotsKept(s, a); }
    assert Shaped(t) && AllNested(t) && AllFollow(t) by { CallsKept(s, a); }
    assert ParentsKnown(t) by { ParentsKept(s, a); }
    if t.que.flag == S.INITIALIZED { PublishedKept(s, a); }
  }
}
