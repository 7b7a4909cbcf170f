/**
 What every run of one slot keeps, for any number of calls and any interleaving.
 A run is a list of events; a later state of the same run is reached by a further list.
 */
module SpinRuns {
  import opened Basics
  import opened SpinSlot

  lemma {:induction false} RunInv(s: Slot, evs: seq<Event>)
    requires Inv(s) && Runs(s, evs)
    ensures Inv(Exec(s, evs))
    decreases |evs|
  {
    if evs != [] {
      InvKept(s, evs[0]);
      RunInv(Apply(s, evs[0]), evs[1..]);
    }
  }

  lemma FreshInv()
    ensures Inv(Fresh(NOT_INITIALIZED))
  {}

  // ------------------------------------------------- one initialiser, ever

  /** Once the flag has been won, nobody else enters the initialising section. */
  lemma {:induction false} NoLateEntry(s: Slot, evs: seq<Event>, j: nat)
    requires Inv(s) && Runs(s, evs) && s.flag != NOT_INITIALIZED
    requires j < |s.parts| ==> !Initialising(s.parts[j])
    ensures j < |Exec(s, evs).parts| ==> !Initialising(Exec(s, evs).parts[j])
    decreases |evs|
  {
    if evs != [] {
      var t := Apply(s, evs[0]);
      InvKept(s, evs[0]);
      if j < |t.parts| && Initialising(t.parts[j]) { EntersOnce(s, evs[0], j); }
      NoLateEntry(t, evs[1..], j);
    }
  }

  /** At most one call ever runs the initialising section, over a whole run. */
  lemma OneInitialiserEver(a: seq<Event>, b: seq<Event>, i: nat, j: nat)
    requires Runs(Fresh(NOT_INITIALIZED), a)
    requires Runs(Exec(Fresh(NOT_INITIALIZED), a), b)
    requires var s := Exec(Fresh(NOT_INITIALIZED), a); i < |s.parts| && Initialising(s.parts[i])
    requires var t := Exec(Exec(Fresh(NOT_INITIALIZED), a), b); j < |t.parts| && Initialising(t.parts[j])
    ensures i == j
  {
    FreshInv();
    RunInv(Fresh(NOT_INITIALIZED), a);
    var s := Exec(Fresh(NOT_INITIALIZED), a);
    if i != j { NoLateEntry(s, b, j); }
  }

  // ------------------------------------------------- reads see final values

  /** After publication the shared object and error never change again. */
  lemma {:induction false} Frozen(s: Slot, evs: seq<Event>)
    requires Inv(s) && Runs(s, evs) && s.flag == INITIALIZED
    ensures var t := Exec(s, evs);
            t.flag == INITIALIZED && t.stored == s.stored && t.error == s.error
    decreases |evs|
  {
    if evs != [] {
      InvKept(s, evs[0]);
      Frozen(Apply(s, evs[0]), evs[1..]);
    }
  }

  /** A call that is about to read default_ or default_error_, or has read them, meets their final values. */
  lemma ReadsAreFinal(a: seq<Event>, b: seq<Event>, i: nat)
    requires Runs(Fresh(NOT_INITIALIZED), a)
    requires Runs(Exec(Fresh(NOT_INITIALIZED), a), b)
    requires var s := Exec(Fresh(NOT_INITIALIZED), a); i < |s.parts| && Reading(s.parts[i])
    ensures var s := Exec(Fresh(NOT_INITIALIZED), a); var t := Exec(s, b);
            t.stored == s.stored && t.error == s.error
  {
    FreshInv();
    RunInv(Fresh(NOT_INITIALIZED), a);
    Frozen(Exec(Fresh(NOT_INITIALIZED), a), b);
  }

  predicate Complete(p: Part) {
    p.pc.Returned? || p.pc.Destroyed?
  }

  /** Two completed calls anywhere in a run returned the same handle, and the same error if they asked for it. */
  lemma SameAnswer(a: seq<Event>, b: seq<Event>, i: nat, j: nat)
    requires Runs(Fresh(NOT_INITIALIZED), a)
    requires Runs(Exec(Fresh(NOT_INITIALIZED), a), b)
    requires var s := Exec(Fresh(NOT_INITIALIZED), a); i < |s.parts| && Complete(s.parts[i])
    requires var t := Exec(Exec(Fresh(NOT_INITIALIZED), a), b); j < |t.parts| && Complete(t.parts[j])
    ensures var s := Exec(Fresh(NOT_INITIALIZED), a); var t := Exec(s, b);
            && s.parts[i].pc.copied == t.parts[j].pc.copied == t.stored
            && s.parts[i].pc.report == Report(s.parts[i].want, t.error)
            && t.parts[j].pc.report == Report(t.parts[j].want, t.error)
  {
    FreshInv();
    RunInv(Fresh(NOT_INITIALIZED), a);
    var s := Exec(Fresh(NOT_INITIALIZED), a);
    RunInv(s, b);
    Frozen(s, b);
    assert ReadsFinal(s, s.parts[i]);
    var t := Exec(s, b);
    assert ReadsFinal(t, t.parts[j]);
  }

  // ------------------------------------------------- counts

  /** The number of returned copies that are still alive. */
  function LiveCopies(parts: seq<Part>): nat {
    if parts == [] then 0 else (if parts[0].pc.Returned? then 1 else 0) + LiveCopies(parts[1..])
  }

  lemma {:induction false} RefsAreLiveCopies(parts: seq<Part>, h: Handle)
    requires forall i :: 0 <= i < |parts| ==> !parts[i].pc.Assign?
    requires forall i :: 0 <= i < |parts| && parts[i].pc.Returned? ==> parts[i].pc.copied == Some(h)
    ensures Refs(parts, h) == LiveCopies(parts)
  {
    if parts != [] {
      assert forall i :: 0 <= i < |parts[1..]| ==> parts[1..][i] == parts[i + 1];
      RefsAreLiveCopies(parts[1..], h);
    }
  }

  /** From its assignment to default_ on, the object's reference count is one for default_ plus one per live copy. */
  lemma CountIsOnePlusCopies(evs: seq<Event>, h: Handle)
    requires Runs(Fresh(NOT_INITIALIZED), evs)
    requires Exec(Fresh(NOT_INITIALIZED), evs).stored == Some(h)
    ensures var s := Exec(Fresh(NOT_INITIALIZED), evs); Count(s.counts, h) == 1 + LiveCopies(s.parts)
  {
    FreshInv();
    RunInv(Fresh(NOT_INITIALIZED), evs);
    var s := Exec(Fresh(NOT_INITIALIZED), evs);
    forall i | 0 <= i < |s.parts| && s.parts[i].pc.Returned?
      ensures s.parts[i].pc.copied == Some(h)
    {
      assert ReadsFinal(s, s.parts[i]);
    }
    RefsAreLiveCopies(s.parts, h);
    assert Count(s.counts, h) == Holds(s.stored, h) + Refs(s.parts, h);
  }

  // ------------------------------------------------- the start value of the flag

  /** A start value whose mask tests divert every call away from the initialising section. */
  predicate Diverting(f: int) {
    HasBit(f, INITIALIZED) || HasBit(f, BEING_INITIALIZED)
  }

  /** Every run from start flag f keeps the initialising section exclusive. */
  ghost predicate ExclusiveFrom(f: int) {
    forall evs :: Runs(Fresh(f), evs) ==> AtMostOne(Exec(Fresh(f), evs))
  }

  /** From a diverting start value nobody ever initialises. */
  lemma {:induction false} DivertedRun(s: Slot, evs: seq<Event>)
    requires s.flag != NOT_INITIALIZED && Diverting(s.flag) && Runs(s, evs)
    requires forall i :: 0 <= i < |s.parts| ==> !Initialising(s.parts[i])
    ensures forall i :: 0 <= i < |Exec(s, evs).parts| ==> !Initialising(Exec(s, evs).parts[i])
    ensures Exec(s, evs).stored == s.stored
    decreases |evs|
  {
    if evs != [] {
      var t := Apply(s, evs[0]);
      forall i | 0 <= i < |t.parts|
        ensures !Initialising(t.parts[i])
      {
        if i < |s.parts| && (evs[0].Join? || i != evs[0].who) { OthersKept(s, evs[0], i); }
      }
      DivertedRun(t, evs[1..]);
    }
  }

  /** Two calls that both find a start value with neither mask bit set. */
  lemma TwoInitialisers(f: int)
    requires f != NOT_INITIALIZED && !Diverting(f)
    ensures !ExclusiveFrom(f)
  {
    var s0 := Fresh(f);
    var s1 := Apply(s0, Join(true, true));
    var s2 := Apply(s1, Join(true, true));
    var s3 := Apply(s2, Advance(0));
    var s4 := Apply(s3, Advance(1));
    var evs := [Join(true, true), Join(true, true), Advance(0), Advance(1)];
    assert evs[1..] == [Join(true, true), Advance(0), Advance(1)];
    assert evs[1..][1..] == [Advance(0), Advance(1)];
    assert evs[1..][1..][1..] == [Advance(1)];
    assert evs[1..][1..][1..][1..] == [];
    assert Runs(s4, []) && Exec(s4, []) == s4;
    assert Runs(s3, [Advance(1)]) && Exec(s3, [Advance(1)]) == s4;
    assert Runs(s2, evs[1..][1..]) && Exec(s2, evs[1..][1..]) == s4;
    assert Runs(s1, evs[1..]) && Exec(s1, evs[1..]) == s4;
    assert Runs(s0, evs) && Exec(s0, evs) == s4;
    assert Initialising(s4.parts[0]) && Initialising(s4.parts[1]);
  }

  /** A zero-initialised std::atomic<int>, which names no start value, is such a flag. */
  lemma ZeroStartFails()
    ensures !ExclusiveFrom(0)
  {
    TwoInitialisers(0);
  }

  /** Bits 2 and 4 are both clear exactly in the numbers 0 and 1 modulo 8. */
  lemma DivertingBits(f: int)
    ensures Diverting(f) <==> f % 8 >= 2
  {}

  /** Mutual exclusion holds from start flag f exactly when f is 1 or carries one of the two mask bits. */
  lemma ExclusiveExactly(f: int)
    ensures ExclusiveFrom(f) <==> f == 1 || f % 8 >= 2
  {
    DivertingBits(f);
    if f == NOT_INITIALIZED {
      forall evs | Runs(Fresh(f), evs)
        ensures AtMostOne(Exec(Fresh(f), evs))
      {
        FreshInv();
        RunInv(Fresh(f), evs);
      }
    } else if Diverting(f) {
      forall evs | Runs(Fresh(f), evs)
        ensures AtMostOne(Exec(Fresh(f), evs))
      {
        DivertedRun(Fresh(f), evs);
      }
    } else {
      TwoInitialisers(f);
    }
  }

  /** Some run from start flag f publishes an object. */
  ghost predicate CanPublish(f: int) {
    exists evs :: Runs(Fresh(f), evs) && Published(Exec(Fresh(f), evs))
  }

  predicate Published(s: Slot) {
    s.flag == INITIALIZED && s.stored.Some?
  }

  lemma Prepend(s: Slot, ev: Event, evs: seq<Event>, t: Slot)
    requires Enabled(s, ev) && Runs(Apply(s, ev), evs) && Exec(Apply(s, ev), evs) == t
    ensures Runs(s, [ev] + evs) && Exec(s, [ev] + evs) == t
  {
    assert ([ev] + evs)[1..] == evs;
  }

  /** One call, alone, that builds an object and publishes it. */
  lemma LoneCall(f: int)
    requires !Diverting(f)
    ensures CanPublish(f)
  {
    var s0 := Fresh(f);
    var s1 := Apply(s0, Join(true, true));
    var s2 := Apply(s1, Advance(0));
    var s3 := Apply(s2, Build(0, Some(1), 0));
    var s4 := Apply(s3, Advance(0));
    var s5 := Apply(s4, Advance(0));
    var s6 := Apply(s5, Advance(0));
    assert Runs(s6, []) && Exec(s6, []) == s6;
    Prepend(s5, Advance(0), [], s6);
    Prepend(s4, Advance(0), [Advance(0)] + [], s6);
    Prepend(s3, Advance(0), [Advance(0)] + ([Advance(0)] + []), s6);
    var rest := [Advance(0)] + ([Advance(0)] + ([Advance(0)] + []));
    Prepend(s2, Build(0, Some(1), 0), rest, s6);
    Prepend(s1, Advance(0), [Build(0, Some(1), 0)] + rest, s6);
    Prepend(s0, Join(true, true), [Advance(0)] + ([Build(0, Some(1), 0)] + rest), s6);
    assert Published(s6);
  }

  /** An object can be published from start flag f exactly when f has neither mask bit. */
  lemma CanPublishExactly(f: int)
    ensures CanPublish(f) <==> f % 8 < 2
  {
    DivertingBits(f);
    if Diverting(f) {
      forall evs | Runs(Fresh(f), evs) ensures !Published(Exec(Fresh(f), evs)) { DivertedRun(Fresh(f), evs); }
    } else {
      LoneCall(f);
    }
  }

  /** The only start value that both initialises and excludes is 1. */
  lemma OnlyStartIsOne(f: int)
    ensures ExclusiveFrom(f) && CanPublish(f) <==> f == 1
  {
    ExclusiveExactly(f);
    CanPublishExactly(f);
  }

  // ------------------------------------------------- what is published is what was built

  /** Call i is on its way to publish (o, e), or somebody has published it. */
  predicate Carries(s: Slot, i: nat, o: Option<Handle>, e: int) {
    || (i < |s.parts| && s.parts[i].pc == Assign(o, e))
    || (i < |s.parts| && s.parts[i].pc == PublishError(e) && s.stored == o)
    || (i < |s.parts| && s.parts[i].pc.PublishFlag? && s.stored == o && s.error == e)
    || (s.flag == INITIALIZED && s.stored == o && s.error == e)
  }

  lemma CarriesKept(s: Slot, ev: Event, i: nat, o: Option<Handle>, e: int)
    requires Inv(s) && Enabled(s, ev) && Carries(s, i, o, e)
    ensures Carries(Apply(s, ev), i, o, e)
  {
    if s.flag != INITIALIZED {
      assert Initialising(s.parts[i]);
      if !ev.Join? && ev.who != i { assert !Initialising(s.parts[ev.who]); }
      if ev.Join? || ev.who != i { OthersKept(s, ev, i); }
    } else if !ev.Join? {
      assert !Initialising(s.parts[ev.who]);
    }
  }

  lemma {:induction false} CarriesToTheEnd(s: Slot, evs: seq<Event>, i: nat, o: Option<Handle>, e: int)
    requires Inv(s) && Runs(s, evs) && Carries(s, i, o, e)
    ensures Carries(Exec(s, evs), i, o, e) && Inv(Exec(s, evs))
    decreases |evs|
  {
    if evs != [] {
      CarriesKept(s, evs[0], i, o, e);
      InvKept(s, evs[0]);
      CarriesToTheEnd(Apply(s, evs[0]), evs[1..], i, o, e);
    }
  }

  /** Once published, object and error are those that the constructor returned, and so is every answer. */
  lemma BuiltIsPublished(s: Slot, evs: seq<Event>, i: nat, o: Option<Handle>, e: int)
    requires Inv(s) && Runs(s, evs) && i < |s.parts| && s.parts[i].pc == Assign(o, e)
    requires Exec(s, evs).flag == INITIALIZED
    ensures var t := Exec(s, evs);
            && t.stored == o && t.error == e
            && forall j :: 0 <= j < |t.parts| && Complete(t.parts[j]) ==>
                 t.parts[j].pc.copied == o && t.parts[j].pc.report == if t.parts[j].want then Some(e) else None
  {
    CarriesToTheEnd(s, evs, i, o, e);
    var t := Exec(s, evs);
    assert i < |t.parts| ==> !Initialising(t.parts[i]);
    forall j | 0 <= j < |t.parts| && Complete(t.parts[j])
      ensures t.parts[j].pc.copied == o && t.parts[j].pc.report == if t.parts[j].want then Some(e) else None
    {
      assert ReadsFinal(t, t.parts[j]);
    }
  }
}
