/**
 One hand-written "initialise the default object once" slot, as used by
 cl::Context and cl::CommandQueue in CL/cl.hpp: an integer flag, the shared
 object `default_`, its error code `default_error_`, and any number of
 participants (calls of getDefault) that interleave atomic steps.

 The memory model is sequential consistency and exceptions are off.
 */
module SpinSlot {
  import opened Basics

  const NOT_INITIALIZED := 1
  const BEING_INITIALIZED := 2
  const INITIALIZED := 4

  /** Where one participant stands in getDefault. */
  datatype Pc =
    | Idle                                             // not called yet
    | Enter                                            // about to compare-and-exchange
    | Spin                                             // in the while loop on the flag
    | Construct                                        // about to run the initialiser
    | Assign(built: Option<Handle>, code: int)         // holds a temporary, about to move it into default_
    | PublishError(code: int)                          // about to write default_error_
    | PublishFlag                                      // about to write the flag
    | ReadError                                        // about to read default_error_ for the caller
    | CopyHandle(report: Option<int>)                  // about to read default_.object_
    | Retain(copied: Option<Handle>, report: Option<int>)   // about to retain what it read
    | Returned(copied: Option<Handle>, report: Option<int>) // owns a copy of default_
    | Destroyed(copied: Option<Handle>, report: Option<int>) // that copy was destroyed

  /** A participant: `want` says whether the caller passed a non-null err pointer. */
  datatype Part = Part(want: bool, pc: Pc)

  datatype Slot = Slot(flag: int, stored: Option<Handle>, error: int,
                       counts: map<Handle, nat>, parts: seq<Part>)

  datatype Event =
    | Join(want: bool, now: bool)                      // a new participant, calling at once or later
    | Start(who: nat)                                  // a waiting participant makes its call
    | Build(who: nat, built: Option<Handle>, code: int) // the initialiser's constructor returns
    | Abort(who: nat, code: int)                       // the initialiser fails before constructing
    | Advance(who: nat)                                // any other atomic step
    | Destroy(who: nat)                                // a returned copy goes out of scope

  /** The slot before any call, with start flag f. */
  function Fresh(f: int): Slot {
    Slot(f, None, 0, map[], [])
  }

  /** `flag & bit`, for a power of two. */
  predicate HasBit(flag: int, bit: int)
    requires bit > 0
  {
    (flag / bit) % 2 == 1
  }

  function Retained(counts: map<Handle, nat>, o: Option<Handle>): map<Handle, nat> {
    if o.None? then counts else counts[o.value := Count(counts, o.value) + 1]
  }

  function Released(counts: map<Handle, nat>, o: Option<Handle>): map<Handle, nat> {
    if o.None? || Count(counts, o.value) == 0 then counts else counts[o.value := counts[o.value] - 1]
  }

  /** Participants inside the initialising section: the flag was won and not yet published. */
  predicate Initialising(p: Part) {
    p.pc.Construct? || p.pc.Assign? || p.pc.PublishError? || p.pc.PublishFlag?
  }

  /** Participants whose next step reads default_error_ or default_, or that have read them. */
  predicate Reading(p: Part) {
    p.pc.ReadError? || p.pc.CopyHandle? || p.pc.Retain? || p.pc.Returned? || p.pc.Destroyed?
  }

  function With(s: Slot, i: nat, pc: Pc): Slot
    requires i < |s.parts|
  {
    s.(parts := s.parts[i := s.parts[i].(pc := pc)])
  }

  predicate Enabled(s: Slot, ev: Event) {
    match ev
    case Join(_, _) => true
    case Start(i) => i < |s.parts| && s.parts[i].pc.Idle?
    case Build(i, o, _) => i < |s.parts| && s.parts[i].pc.Construct? && (o.Some? ==> o.value !in s.counts)
    case Abort(i, _) => i < |s.parts| && s.parts[i].pc.Construct?
    case Advance(i) => i < |s.parts| && Steppable(s.parts[i].pc)
    case Destroy(i) => i < |s.parts| && s.parts[i].pc.Returned?
  }

  predicate Steppable(pc: Pc) {
    pc.Enter? || pc.Spin? || pc.Assign? || pc.PublishError? || pc.PublishFlag?
    || pc.ReadError? || pc.CopyHandle? || pc.Retain?
  }

  /** One atomic step of participant i. */
  function Advanced(s: Slot, i: nat): Slot
    requires i < |s.parts| && Steppable(s.parts[i].pc)
  {
    match s.parts[i].pc
    case Enter =>
      if s.flag == NOT_INITIALIZED then With(s, i, Construct).(flag := BEING_INITIALIZED)
      else if HasBit(s.flag, INITIALIZED) then With(s, i, ReadError)
      else if HasBit(s.flag, BEING_INITIALIZED) then With(s, i, Spin)
      else With(s, i, Construct)
    case Spin =>
      if s.flag != INITIALIZED then s else With(s, i, ReadError)
    case Assign(o, e) =>
      With(s, i, PublishError(e)).(stored := o, counts := Released(s.counts, s.stored))
    case PublishError(e) =>
      With(s, i, PublishFlag).(error := e)
    case PublishFlag =>
      With(s, i, ReadError).(flag := INITIALIZED)
    case ReadError =>
      With(s, i, CopyHandle(if s.parts[i].want then Some(s.error) else None))
    case CopyHandle(r) =>
      With(s, i, Retain(s.stored, r))
    case Retain(o, r) =>
      With(s, i, Returned(o, r)).(counts := Retained(s.counts, o))
  }

  function Apply(s: Slot, ev: Event): Slot
    requires Enabled(s, ev)
  {
    match ev
    case Join(want, now) => s.(parts := s.parts + [Part(want, if now then Enter else Idle)])
    case Start(i) => With(s, i, Enter)
    case Build(i, o, e) => With(s, i, Assign(o, e)).(counts := if o.Some? then s.counts[o.value := 1] else s.counts)
    case Abort(i, e) => With(s, i, PublishError(e))
    case Advance(i) => Advanced(s, i)
    case Destroy(i) =>
      var pc := s.parts[i].pc;
      With(s, i, Destroyed(pc.copied, pc.report)).(counts := Released(s.counts, pc.copied))
  }

  predicate Runs(s: Slot, evs: seq<Event>)
    decreases |evs|
  {
    evs == [] || (Enabled(s, evs[0]) && Runs(Apply(s, evs[0]), evs[1..]))
  }

  function Exec(s: Slot, evs: seq<Event>): Slot
    requires Runs(s, evs)
    decreases |evs|
  {
    if evs == [] then s else Exec(Apply(s, evs[0]), evs[1..])
  }

  // ---------------------------------------------------------------- invariant

  ghost predicate AtMostOne(s: Slot) {
    forall i, j :: 0 <= i < |s.parts| && 0 <= j < |s.parts| && Initialising(s.parts[i]) && Initialising(s.parts[j])
                   ==> i == j
  }

  /** What the flag says about every participant. */
  ghost predicate Phase(s: Slot) {
    && (s.flag == NOT_INITIALIZED || s.flag == BEING_INITIALIZED || s.flag == INITIALIZED)
    && (forall i :: 0 <= i < |s.parts| && Initialising(s.parts[i]) ==> s.flag == BEING_INITIALIZED)
    && (forall i :: 0 <= i < |s.parts| && Reading(s.parts[i]) ==> s.flag == INITIALIZED)
    && (forall i :: 0 <= i < |s.parts| && s.parts[i].pc.Spin? ==> s.flag != NOT_INITIALIZED)
    && (s.flag == BEING_INITIALIZED ==> exists i :: 0 <= i < |s.parts| && Initialising(s.parts[i]))
  }

  /** default_ is null until the initialiser assigns it. */
  ghost predicate Unassigned(s: Slot) {
    && (s.flag == NOT_INITIALIZED ==> s.stored.None?)
    && (forall i :: 0 <= i < |s.parts| && (s.parts[i].pc.Construct? || s.parts[i].pc.Assign?) ==> s.stored.None?)
  }

  function Report(want: bool, error: int): Option<int> {
    if want then Some(error) else None
  }

  /** What a participant has read is what default_ and default_error_ hold. */
  ghost predicate ReadsFinal(s: Slot, p: Part) {
    && (p.pc.CopyHandle? ==> p.pc.report == Report(p.want, s.error))
    && (p.pc.Retain? || p.pc.Returned? || p.pc.Destroyed? ==>
          p.pc.copied == s.stored && p.pc.report == Report(p.want, s.error))
  }

  ghost predicate Agreement(s: Slot) {
    forall i :: 0 <= i < |s.parts| ==> ReadsFinal(s, s.parts[i])
  }

  function Holds(o: Option<Handle>, h: Handle): nat {
    if o == Some(h) then 1 else 0
  }

  /** References on h owned by one participant: a temporary or a live copy. */
  function PartRefs(p: Part, h: Handle): nat {
    match p.pc
    case Assign(o, _) => Holds(o, h)
    case Returned(o, _) => Holds(o, h)
    case _ => 0
  }

  function Refs(parts: seq<Part>, h: Handle): nat {
    if parts == [] then 0 else PartRefs(parts[0], h) + Refs(parts[1..], h)
  }

  /** Every reference the runtime counts is owned by default_ or by a participant. */
  ghost predicate Conserved(s: Slot) {
    forall h :: Count(s.counts, h) == Holds(s.stored, h) + Refs(s.parts, h)
  }

  ghost predicate Inv(s: Slot) {
    AtMostOne(s) && Phase(s) && Unassigned(s) && Agreement(s) && Conserved(s)
  }

  lemma {:induction false} RefsUpdate(parts: seq<Part>, i: nat, p: Part, h: Handle)
    requires i < |parts|
    ensures Refs(parts[i := p], h) == Refs(parts, h) - PartRefs(parts[i], h) + PartRefs(p, h)
  {
    if i == 0 {
      assert parts[i := p][1..] == parts[1..];
    } else {
      assert parts[i := p][1..] == parts[1..][i - 1 := p];
      RefsUpdate(parts[1..], i - 1, p, h);
    }
  }

  lemma {:induction false} RefsAppend(parts: seq<Part>, p: Part, h: Handle)
    ensures Refs(parts + [p], h) == Refs(parts, h) + PartRefs(p, h)
  {
    if parts == [] {
      assert parts + [p] == [p];
    } else {
      assert (parts + [p])[1..] == parts[1..] + [p];
      RefsAppend(parts[1..], p, h);
    }
  }

  lemma {:induction false} RefsMember(parts: seq<Part>, i: nat, h: Handle)
    requires i < |parts|
    ensures PartRefs(parts[i], h) <= Refs(parts, h)
  {
    if i > 0 { RefsMember(parts[1..], i - 1, h); }
  }

  /** The handle, if any, on which an event calls clRetain or clRelease. */
  function Touched(s: Slot, ev: Event): Option<Handle>
    requires Enabled(s, ev)
  {
    match ev
    case Advance(i) =>
      (match s.parts[i].pc
       case Assign(_, _) => s.stored
       case Retain(o, _) => o
       case _ => None)
    case Destroy(i) => s.parts[i].pc.copied
    case _ => None
  }

  /** Retain and release only ever hit an object that is alive. */
  lemma TouchedIsAlive(s: Slot, ev: Event)
    requires Inv(s) && Enabled(s, ev) && Touched(s, ev).Some?
    ensures Count(s.counts, Touched(s, ev).value) > 0
  {
    var h := Touched(s, ev).value;
    RefsMember(s.parts, ev.who, h);
    assert ReadsFinal(s, s.parts[ev.who]);
  }

  /** An event moves one participant only. */
  lemma OthersKept(s: Slot, ev: Event, j: nat)
    requires Enabled(s, ev) && j < |s.parts| && (ev.Join? || j != ev.who)
    ensures j < |Apply(s, ev).parts| && Apply(s, ev).parts[j] == s.parts[j]
  {}

  /** Only winning the flag enters the initialising section. */
  lemma EntersOnce(s: Slot, ev: Event, j: nat)
    requires AtMostOne(s) && Phase(s) && Enabled(s, ev) && j < |Apply(s, ev).parts|
    requires Initialising(Apply(s, ev).parts[j])
    ensures Apply(s, ev).flag == BEING_INITIALIZED && j < |s.parts|
    ensures s.flag == NOT_INITIALIZED || Initialising(s.parts[j])
  {
    if !ev.Join? && j != ev.who { OthersKept(s, ev, j); }
  }

  lemma AtMostOneKept(s: Slot, ev: Event)
    requires AtMostOne(s) && Phase(s) && Enabled(s, ev)
    ensures AtMostOne(Apply(s, ev))
  {
    var t := Apply(s, ev);
    forall i, j | 0 <= i < |t.parts| && 0 <= j < |t.parts| && Initialising(t.parts[i]) && Initialising(t.parts[j])
      ensures i == j
    {
      EntersOnce(s, ev, i);
      EntersOnce(s, ev, j);
      if s.flag == NOT_INITIALIZED {
        if i != ev.who { OthersKept(s, ev, i); }
        if j != ev.who { OthersKept(s, ev, j); }
      }
    }
  }

  lemma PhaseKept(s: Slot, ev: Event)
    requires AtMostOne(s) && Phase(s) && Enabled(s, ev)
    ensures Phase(Apply(s, ev))
  {
    var t := Apply(s, ev);
    forall i | 0 <= i < |t.parts|
      ensures Initialising(t.parts[i]) ==> t.flag == BEING_INITIALIZED
      ensures Reading(t.parts[i]) ==> t.flag == INITIALIZED
      ensures t.parts[i].pc.Spin? ==> t.flag != NOT_INITIALIZED
    {
      if i < |s.parts| && (ev.Join? || i != ev.who) { OthersKept(s, ev, i); }
    }
    if t.flag == BEING_INITIALIZED {
      if s.flag == BEING_INITIALIZED {
        var k :| 0 <= k < |s.parts| && Initialising(s.parts[k]);
        if ev.Join? || k != ev.who { OthersKept(s, ev, k); }
        assert Initialising(t.parts[k]);
      } else {
        assert Initialising(t.parts[ev.who]);
      }
    }
  }

  lemma UnassignedKept(s: Slot, ev: Event)
    requires AtMostOne(s) && Phase(s) && Unassigned(s) && Enabled(s, ev)
    ensures Unassigned(Apply(s, ev))
  {
    var t := Apply(s, ev);
    forall i | 0 <= i < |t.parts| && (t.parts[i].pc.Construct? || t.parts[i].pc.Assign?)
      ensures t.stored.None?
    {
      EntersOnce(s, ev, i);
      if ev.Join? || i != ev.who { OthersKept(s, ev, i); }
    }
  }

  lemma AgreementKept(s: Slot, ev: Event)
    requires Inv(s) && Enabled(s, ev)
    ensures Agreement(Apply(s, ev))
  {
    var t := Apply(s, ev);
    forall i | 0 <= i < |t.parts|
      ensures ReadsFinal(t, t.parts[i])
    {
      if i < |s.parts| { assert ReadsFinal(s, s.parts[i]); }
    }
  }

  /** The count of h and its owners change alike, event by event. */
  lemma ConservedAt(s: Slot, ev: Event, h: Handle)
    requires Inv(s) && Enabled(s, ev)
    ensures var t := Apply(s, ev); Count(t.counts, h) == Holds(t.stored, h) + Refs(t.parts, h)
  {
    var t := Apply(s, ev);
    assert Count(s.counts, h) == Holds(s.stored, h) + Refs(s.parts, h);
    match ev
    case Join(want, now) => RefsAppend(s.parts, t.parts[|s.parts|], h);
    case Start(i) => RefsUpdate(s.parts, i, t.parts[i], h);
    case Build(i, o, e) => RefsUpdate(s.parts, i, t.parts[i], h);
    case Abort(i, e) => RefsUpdate(s.parts, i, t.parts[i], h);
    case Destroy(i) =>
      RefsUpdate(s.parts, i, t.parts[i], h);
      if Touched(s, ev).Some? { TouchedIsAlive(s, ev); }
    case Advance(i) => ConservedAdvance(s, i, h);
  }

  lemma ConservedAdvance(s: Slot, i: nat, h: Handle)
    requires Inv(s) && Enabled(s, Advance(i))
    ensures var t := Advanced(s, i); Count(t.counts, h) == Holds(t.stored, h) + Refs(t.parts, h)
  {
    var t := Advanced(s, i);
    AdvanceMovesOne(s, i);
    AdvanceBalances(s, i, h);
    RefsUpdate(s.parts, i, t.parts[i], h);
    assert Count(s.counts, h) == Holds(s.stored, h) + Refs(s.parts, h);
  }

  lemma AdvanceMovesOne(s: Slot, i: nat)
    requires Enabled(s, Advance(i))
    ensures |Advanced(s, i).parts| == |s.parts| && Advanced(s, i).parts == s.parts[i := Advanced(s, i).parts[i]]
  {}

  /** A step changes the count of h by what it changes in default_ and in its own participant. */
  lemma AdvanceBalances(s: Slot, i: nat, h: Handle)
    requires Unassigned(s) && Enabled(s, Advance(i))
    ensures var t := Advanced(s, i);
            |t.parts| == |s.parts| &&
            Count(t.counts, h) - Count(s.counts, h)
              == Holds(t.stored, h) - Holds(s.stored, h) + PartRefs(t.parts[i], h) - PartRefs(s.parts[i], h)
  {
    if s.parts[i].pc.Assign? { assert s.stored.None?; }
  }

  lemma ConservedKept(s: Slot, ev: Event)
    requires Inv(s) && Enabled(s, ev)
    ensures Conserved(Apply(s, ev))
  {
    forall h: Handle { ConservedAt(s, ev, h); }
  }

  lemma InvKept(s: Slot, ev: Event)
    requires Inv(s) && Enabled(s, ev)
    ensures Inv(Apply(s, ev))
  {
    AtMostOneKept(s, ev);
    PhaseKept(s, ev);
    UnassignedKept(s, ev);
    AgreementKept(s, ev);
    ConservedKept(s, ev);
  }
}
