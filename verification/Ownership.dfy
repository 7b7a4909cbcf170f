/**
 Reference counts and the wrappers that own them: detail::Wrapper<T> and its
 specialisation for cl_device_id, in CL/cl.hpp and CL/cl2.hpp. The two headers
 test for null in different places but make the same runtime calls.

 A wrapper's fields are a cell. A plain wrapper has no flag: it counts as set
 exactly when the handle is not null. A device wrapper stores whether its device
 can be reference counted at all.
 */
module Ownership {
  import opened Basics
  import Version

  const NULL: Handle := 0

  /** object_ and referenceCountable_. */
  datatype Cell = Cell(obj: Handle, flag: bool)

  /** A call into the OpenCL runtime. */
  datatype Call = Retain(h: Handle) | Release(h: Handle)

  const EMPTY := Cell(NULL, false)

  function After(counts: map<Handle, nat>, c: Call): map<Handle, nat> {
    var n := Count(counts, c.h);
    counts[c.h := if c.Retain? then n + 1 else if n == 0 then 0 else n - 1]
  }

  function Play(counts: map<Handle, nat>, calls: seq<Call>): map<Handle, nat>
    decreases |calls|
  {
    if calls == [] then counts else Play(After(counts, calls[0]), calls[1..])
  }

  /** No call of the list hits an object whose count is zero. */
  predicate Safe(counts: map<Handle, nat>, calls: seq<Call>)
    decreases |calls|
  {
    calls == [] || (Count(counts, calls[0].h) > 0 && Safe(After(counts, calls[0]), calls[1..]))
  }

  predicate Owning(c: Cell) { c.obj != NULL && c.flag }

  function Retaining(c: Cell): seq<Call> { if Owning(c) then [Retain(c.obj)] else [] }
  function Releasing(c: Cell): seq<Call> { if Owning(c) then [Release(c.obj)] else [] }

  // ------------------------------------------------- isReferenceCountable

  /** Which handles a wrapper counts references of. */
  type Counting = Handle -> bool

  /**
   isReferenceCountable of a build with these CL_HPP_TARGET_OPENCL_VERSION and CL_HPP_MINIMUM_OPENCL_VERSION;
   CL/cl.hpp always takes the middle branch. `version` is the unsigned word of getDevicePlatformVersion, which the
   test first converts to int.
   */
  function IsReferenceCountable(target: nat, minimum: nat, version: Handle -> nat, device: Handle): bool {
    if target < 120 then false
    else if minimum < 120 then device != NULL && Version.Signed(version(device)) > 0x10001
    else true
  }

  function DeviceCounting(target: nat, minimum: nat, version: Handle -> nat): Counting {
    (device: Handle) => IsReferenceCountable(target, minimum, version, device)
  }

  /**
   A build for 1.2 or later that need not run on older platforms counts every device. One that may run on them
   counts a device exactly from OpenCL 1.2 on and below major 2^15, where the packed version turns negative. A
   build for older versions counts none.
   */
  predicate Counted(target: nat, minimum: nat, device: Handle, major: nat, minor: nat) {
    && target >= 120
    && (minimum >= 120 || (device != NULL && major < 0x8000 && (major > 1 || (major == 1 && minor > 1))))
  }

  lemma CountedExactly(target: nat, minimum: nat, version: Handle -> nat, device: Handle, major: nat, minor: nat)
    requires major < 0x1_0000 && minor < 0x1_0000 && version(device) == Version.Pack(major, minor)
    ensures DeviceCounting(target, minimum, version)(device) <==> Counted(target, minimum, device, major, minor)
  {
    Version.SignedPack(major, minor);
  }

  // ------------------------------------------------- a program's wrappers

  /** `held` lists every wrapper ever constructed, None once destroyed; `ext` counts references owned elsewhere. */
  datatype World = World(counts: map<Handle, nat>, held: seq<Option<Cell>>, ext: map<Handle, nat>)

  datatype Op =
    | Create(h: Handle)                   // the runtime returns a new object, owned by the caller
    | ExtRetain(h: Handle)                // a reference is taken outside the wrappers
    | ExtRelease(h: Handle)               // and given back
    | New(h: Handle, retain: bool)        // Wrapper(obj, retainObject)
    | Copy(j: nat)                        // Wrapper(const Wrapper &)
    | Move(j: nat)                        // Wrapper(Wrapper &&)
    | AssignCopy(i: nat, j: nat)
    | AssignMove(i: nat, j: nat)
    | AssignRaw(i: nat, h: Handle)
    | Destroy(i: nat)

  predicate Live(w: World, i: int) {
    0 <= i < |w.held| && w.held[i].Some?
  }

  /** A raw handle may be handed over only by someone who owns a reference on it. */
  predicate Offered(w: World, h: Handle) {
    h == NULL || Count(w.ext, h) > 0
  }

  predicate Enabled(w: World, op: Op) {
    match op
    case Create(h) => h != NULL && h !in w.counts
    case ExtRetain(h) => h != NULL && Count(w.ext, h) > 0
    case ExtRelease(h) => h != NULL && Count(w.ext, h) > 0
    case New(h, _) => Offered(w, h)
    case Copy(j) => Live(w, j)
    case Move(j) => Live(w, j)
    case AssignCopy(i, j) => Live(w, i) && Live(w, j)
    case AssignMove(i, j) => Live(w, i) && Live(w, j)
    case AssignRaw(i, h) => Live(w, i) && Offered(w, h)
    case Destroy(i) => Live(w, i)
  }

  /** The runtime calls an operation makes, in order. */
  function Calls(ct: Counting, w: World, op: Op): seq<Call>
    requires Enabled(w, op)
  {
    match op
    case Create(_) => []
    case ExtRetain(h) => [Retain(h)]
    case ExtRelease(h) => [Release(h)]
    case New(h, retain) => if retain then Retaining(Cell(h, ct(h))) else []
    case Copy(j) => var c := w.held[j].value; Retaining(Cell(c.obj, ct(c.obj)))
    case Move(_) => []
    case AssignCopy(i, j) => if i == j then [] else Releasing(w.held[i].value) + Retaining(w.held[j].value)
    case AssignMove(i, j) => if i == j then [] else Releasing(w.held[i].value)
    case AssignRaw(i, _) => Releasing(w.held[i].value)
    case Destroy(i) => Releasing(w.held[i].value)
  }

  function Held(ct: Counting, w: World, op: Op): seq<Option<Cell>>
    requires Enabled(w, op)
  {
    var held := w.held;
    match op
    case Create(_) => held
    case ExtRetain(_) => held
    case ExtRelease(_) => held
    case New(h, _) => held + [Some(Cell(h, ct(h)))]
    case Copy(j) => held + [Some(Cell(held[j].value.obj, ct(held[j].value.obj)))]
    case Move(j) => held[j := Some(EMPTY)] + [held[j]]
    case AssignCopy(i, j) => if i == j then held else held[i := held[j]]
    case AssignMove(i, j) => if i == j then held else held[i := held[j]][j := Some(EMPTY)]
    case AssignRaw(i, h) => held[i := Some(Cell(h, ct(h)))]
    case Destroy(i) => held[i := None]
  }

  /** A reference handed over to a wrapper is no longer owned outside. */
  function HandOver(ct: Counting, ext: map<Handle, nat>, h: Handle): map<Handle, nat>
    requires h == NULL || Count(ext, h) > 0
  {
    if h != NULL && ct(h) then ext[h := ext[h] - 1] else ext
  }

  function Ext(ct: Counting, w: World, op: Op): map<Handle, nat>
    requires Enabled(w, op)
  {
    match op
    case Create(h) => w.ext[h := 1]
    case ExtRetain(h) => w.ext[h := w.ext[h] + 1]
    case ExtRelease(h) => w.ext[h := w.ext[h] - 1]
    case New(h, retain) => if retain then w.ext else HandOver(ct, w.ext, h)
    case AssignRaw(_, h) => HandOver(ct, w.ext, h)
    case _ => w.ext
  }

  function Apply(ct: Counting, w: World, op: Op): World
    requires Enabled(w, op)
  {
    var counts := if op.Create? then w.counts[op.h := 1] else w.counts;
    World(Play(counts, Calls(ct, w, op)), Held(ct, w, op), Ext(ct, w, op))
  }

  predicate Runs(ct: Counting, w: World, ops: seq<Op>)
    decreases |ops|
  {
    ops == [] || (Enabled(w, ops[0]) && Runs(ct, Apply(ct, w, ops[0]), ops[1..]))
  }

  function Exec(ct: Counting, w: World, ops: seq<Op>): World
    requires Runs(ct, w, ops)
    decreases |ops|
  {
    if ops == [] then w else Exec(ct, Apply(ct, w, ops[0]), ops[1..])
  }

  const START := World(map[], [], map[])

  // ------------------------------------------------- conservation

  function CellRefs(c: Option<Cell>, h: Handle): nat {
    if c.Some? && Owning(c.value) && c.value.obj == h then 1 else 0
  }

  /** The number of wrappers that own a reference on h. */
  function Owners(held: seq<Option<Cell>>, h: Handle): nat {
    if held == [] then 0 else CellRefs(held[0], h) + Owners(held[1..], h)
  }

  ghost predicate Conserved(w: World) {
    forall h: Handle :: h != NULL ==> Count(w.counts, h) == Count(w.ext, h) + Owners(w.held, h)
  }

  /** The stored flag is what isReferenceCountable would say, whenever the handle is not null. */
  ghost predicate FlagsRight(ct: Counting, w: World) {
    forall i :: Live(w, i) && w.held[i].value.obj != NULL ==> w.held[i].value.flag == ct(w.held[i].value.obj)
  }

  ghost predicate Inv(ct: Counting, w: World) {
    Conserved(w) && FlagsRight(ct, w)
  }

  lemma {:induction false} OwnersUpdate(held: seq<Option<Cell>>, i: nat, c: Option<Cell>, h: Handle)
    requires i < |held|
    ensures Owners(held[i := c], h) == Owners(held, h) - CellRefs(held[i], h) + CellRefs(c, h)
  {
    if i == 0 {
      assert held[i := c][1..] == held[1..];
    } else {
      assert held[i := c][1..] == held[1..][i - 1 := c];
      OwnersUpdate(held[1..], i - 1, c, h);
    }
  }

  lemma {:induction false} OwnersAppend(held: seq<Option<Cell>>, c: Option<Cell>, h: Handle)
    ensures Owners(held + [c], h) == Owners(held, h) + CellRefs(c, h)
  {
    if held == [] {
      assert held + [c] == [c];
    } else {
      assert (held + [c])[1..] == held[1..] + [c];
      OwnersAppend(held[1..], c, h);
    }
  }

  /** Two different wrappers of one object own two references on it. */
  lemma {:induction false} OwnersMember(held: seq<Option<Cell>>, i: nat, h: Handle)
    requires i < |held|
    ensures CellRefs(held[i], h) <= Owners(held, h)
    ensures forall j :: i < j < |held| ==> CellRefs(held[i], h) + CellRefs(held[j], h) <= Owners(held, h)
  {
    if i > 0 {
      OwnersMember(held[1..], i - 1, h);
      assert forall j :: i < j < |held| ==> held[j] == held[1..][j - 1];
    } else {
      forall j | 0 < j < |held|
        ensures CellRefs(held[0], h) + CellRefs(held[j], h) <= Owners(held, h)
      {
        OwnersMember(held[1..], j - 1, h);
      }
    }
  }

  /** The change that the runtime sees on h over a list of calls. */
  function Delta(calls: seq<Call>, h: Handle): int {
    if calls == [] then 0 else
    (if calls[0].h != h then 0 else if calls[0].Retain? then 1 else -1) + Delta(calls[1..], h)
  }

  lemma {:induction false} PlayDelta(counts: map<Handle, nat>, calls: seq<Call>, h: Handle)
    requires Safe(counts, calls)
    ensures Count(Play(counts, calls), h) == Count(counts, h) + Delta(calls, h)
    decreases |calls|
  {
    if calls != [] { PlayDelta(After(counts, calls[0]), calls[1..], h); }
  }

  lemma DeltaOne(c: Call, h: Handle)
    ensures Delta([c], h) == if c.h != h then 0 else if c.Retain? then 1 else -1
  {
    assert [c][1..] == [];
  }

  lemma {:induction false} DeltaConcat(a: seq<Call>, b: seq<Call>, h: Handle)
    ensures Delta(a + b, h) == Delta(a, h) + Delta(b, h)
  {
    if a == [] {
      assert a + b == b;
    } else {
      assert (a + b)[1..] == a[1..] + b;
      DeltaConcat(a[1..], b, h);
    }
  }

  lemma DeltaCell(c: Cell, h: Handle)
    ensures Delta(Retaining(c), h) == CellRefs(Some(c), h)
    ensures Delta(Releasing(c), h) == 0 - CellRefs(Some(c), h)
  {
    DeltaOne(Retain(c.obj), h);
    DeltaOne(Release(c.obj), h);
  }

  lemma SafeOne(counts: map<Handle, nat>, c: Call)
    requires Count(counts, c.h) > 0
    ensures Safe(counts, [c])
  {
    assert [c][1..] == [];
  }

  lemma SafeTwo(counts: map<Handle, nat>, c: Call, d: Call)
    requires Count(counts, c.h) > 0 && Count(After(counts, c), d.h) > 0
    ensures Safe(counts, [c] + [d])
  {
    assert ([c] + [d])[1..] == [d];
    SafeOne(After(counts, c), d);
  }

  /** An object owned by a wrapper is alive; one owned by two survives a release. */
  lemma OwnedAlive(w: World, i: nat, h: Handle)
    requires Conserved(w) && Live(w, i) && CellRefs(w.held[i], h) == 1
    ensures h != NULL && Count(w.counts, h) > 0
    ensures forall j :: Live(w, j) && j != i && CellRefs(w.held[j], h) == 1 ==> Count(w.counts, h) > 1
  {
    OwnersMember(w.held, i, h);
    forall j | Live(w, j) && j != i && CellRefs(w.held[j], h) == 1
      ensures Count(w.counts, h) > 1
    {
      OwnersMember(w.held, j, h);
    }
  }

  /** No retain or release of an operation hits a dead object, even when copying between wrappers of one object. */
  lemma CallsSafe(ct: Counting, w: World, op: Op)
    requires Inv(ct, w) && Enabled(w, op)
    ensures Safe(w.counts, Calls(ct, w, op))
  {
    match op
    case ExtRetain(h) => SafeOne(w.counts, Retain(h));
    case ExtRelease(h) => SafeOne(w.counts, Release(h));
    case New(h, retain) =>
      if retain && h != NULL && ct(h) { SafeOne(w.counts, Retain(h)); }
    case Copy(j) =>
      var c := w.held[j].value;
      if c.obj != NULL && ct(c.obj) {
        OwnedAlive(w, j, c.obj);
        SafeOne(w.counts, Retain(c.obj));
      }
    case AssignCopy(i, j) => if i != j { AssignCopySafe(w, i, j); }
    case AssignMove(i, j) => ReleaseSafe(w, i);
    case AssignRaw(i, _) => ReleaseSafe(w, i);
    case Destroy(i) => ReleaseSafe(w, i);
    case _ =>
  }

  lemma ReleaseSafe(w: World, i: nat)
    requires Conserved(w) && Live(w, i)
    ensures Safe(w.counts, Releasing(w.held[i].value))
  {
    var c := w.held[i].value;
    if Owning(c) {
      OwnedAlive(w, i, c.obj);
      SafeOne(w.counts, Release(c.obj));
    }
  }

  lemma AssignCopySafe(w: World, i: nat, j: nat)
    requires Conserved(w) && Live(w, i) && Live(w, j) && i != j
    ensures Safe(w.counts, Releasing(w.held[i].value) + Retaining(w.held[j].value))
  {
    var a, b := w.held[i].value, w.held[j].value;
    if Owning(b) {
      OwnedAlive(w, j, b.obj);
      if Owning(a) {
        OwnedAlive(w, i, a.obj);
        SafeTwo(w.counts, Release(a.obj), Retain(b.obj));
      } else {
        SafeOne(w.counts, Retain(b.obj));
        assert Releasing(a) + Retaining(b) == Retaining(b);
      }
    } else {
      ReleaseSafe(w, i);
      assert Releasing(a) + Retaining(b) == Releasing(a);
    }
  }

  lemma BalancedAssign(ct: Counting, w: World, op: Op, h: Handle)
    requires Inv(ct, w) && Enabled(w, op) && h != NULL
    requires op.AssignCopy? || op.AssignMove? || op.AssignRaw? || op.Destroy?
    ensures Delta(Calls(ct, w, op), h)
            == Owners(Held(ct, w, op), h) + Count(Ext(ct, w, op), h) - Owners(w.held, h) - Count(w.ext, h)
  {
    match op
    case AssignCopy(i, j) =>
      if i != j {
        OwnersUpdate(w.held, i, w.held[j], h);
        DeltaConcat(Releasing(w.held[i].value), Retaining(w.held[j].value), h);
        DeltaCell(w.held[i].value, h);
        DeltaCell(w.held[j].value, h);
      }
    case AssignMove(i, j) =>
      if i != j {
        OwnersUpdate(w.held, i, w.held[j], h);
        OwnersUpdate(w.held[i := w.held[j]], j, Some(EMPTY), h);
        DeltaCell(w.held[i].value, h);
      }
    case AssignRaw(i, g) =>
      OwnersUpdate(w.held, i, Some(Cell(g, ct(g))), h);
      DeltaCell(w.held[i].value, h);
    case Destroy(i) =>
      OwnersUpdate(w.held, i, None, h);
      DeltaCell(w.held[i].value, h);
  }

  /** What an operation's calls add on h is what it adds to the owners of h, inside and outside. */
  lemma Balanced(ct: Counting, w: World, op: Op, h: Handle)
    requires Inv(ct, w) && Enabled(w, op) && h != NULL && !op.Create?
    ensures Delta(Calls(ct, w, op), h)
            == Owners(Held(ct, w, op), h) + Count(Ext(ct, w, op), h) - Owners(w.held, h) - Count(w.ext, h)
  {
    match op
    case ExtRetain(g) => DeltaOne(Retain(g), h);
    case ExtRelease(g) => DeltaOne(Release(g), h);
    case New(g, retain) =>
      OwnersAppend(w.held, Some(Cell(g, ct(g))), h);
      DeltaCell(Cell(g, ct(g)), h);
    case Copy(j) =>
      var c := Cell(w.held[j].value.obj, ct(w.held[j].value.obj));
      OwnersAppend(w.held, Some(c), h);
      DeltaCell(c, h);
    case Move(j) =>
      OwnersUpdate(w.held, j, Some(EMPTY), h);
      OwnersAppend(w.held[j := Some(EMPTY)], w.held[j], h);
    case _ => BalancedAssign(ct, w, op, h);
  }

  lemma FlagsKept(ct: Counting, w: World, op: Op)
    requires FlagsRight(ct, w) && Enabled(w, op)
    ensures FlagsRight(ct, Apply(ct, w, op))
  {
    var held := Held(ct, w, op);
    forall i | 0 <= i < |held| && held[i].Some? && held[i].value.obj != NULL
      ensures held[i].value.flag == ct(held[i].value.obj)
    {
      if i < |w.held| && held[i] == w.held[i] { assert Live(w, i); }
    }
  }

  lemma InvKept(ct: Counting, w: World, op: Op)
    requires Inv(ct, w) && Enabled(w, op)
    ensures Inv(ct, Apply(ct, w, op))
  {
    var w' := Apply(ct, w, op);
    forall h: Handle | h != NULL
      ensures Count(w'.counts, h) == Count(w'.ext, h) + Owners(w'.held, h)
    {
      if op.Create? {
        assert Count(w.counts, op.h) == 0;
      } else {
        CallsSafe(ct, w, op);
        PlayDelta(w.counts, Calls(ct, w, op), h);
        Balanced(ct, w, op, h);
      }
    }
    FlagsKept(ct, w, op);
  }

  lemma {:induction false} RunInv(ct: Counting, w: World, ops: seq<Op>)
    requires Inv(ct, w) && Runs(ct, w, ops)
    ensures Inv(ct, Exec(ct, w, ops))
    decreases |ops|
  {
    if ops != [] {
      InvKept(ct, w, ops[0]);
      RunInv(ct, Apply(ct, w, ops[0]), ops[1..]);
    }
  }

  // ------------------------------------------------- what every run keeps

  lemma StartInv(ct: Counting)
    ensures Inv(ct, START)
  {}

  /** After every run, each count is the wrappers owning the object plus the references owned elsewhere. */
  lemma Conservation(ct: Counting, ops: seq<Op>, h: Handle)
    requires Runs(ct, START, ops) && h != NULL
    ensures var w := Exec(ct, START, ops); Count(w.counts, h) == Count(w.ext, h) + Owners(w.held, h)
  {
    StartInv(ct);
    RunInv(ct, START, ops);
  }

  /** In every run, no retain or release ever hits an object whose count is zero. */
  lemma NeverTouchesDead(ct: Counting, ops: seq<Op>, op: Op)
    requires Runs(ct, START, ops) && Enabled(Exec(ct, START, ops), op)
    ensures Safe(Exec(ct, START, ops).counts, Calls(ct, Exec(ct, START, ops), op))
  {
    StartInv(ct);
    RunInv(ct, START, ops);
    CallsSafe(ct, Exec(ct, START, ops), op);
  }

  /** An object is dead exactly when nobody outside owns it and no wrapper does. */
  lemma DeadExactly(ct: Counting, ops: seq<Op>, h: Handle)
    requires Runs(ct, START, ops) && h != NULL
    ensures var w := Exec(ct, START, ops);
            Count(w.counts, h) == 0 <==>
            Count(w.ext, h) == 0 && forall i :: Live(w, i) ==> !(Owning(w.held[i].value) && w.held[i].value.obj == h)
  {
    StartInv(ct);
    RunInv(ct, START, ops);
    var w := Exec(ct, START, ops);
    if Owners(w.held, h) > 0 {
      var i := SomeOwner(w.held, h);
      assert Live(w, i);
    } else {
      forall i | Live(w, i) ensures CellRefs(w.held[i], h) == 0 { OwnersMember(w.held, i, h); }
    }
  }

  lemma {:induction false} SomeOwner(held: seq<Option<Cell>>, h: Handle) returns (i: nat)
    requires Owners(held, h) > 0
    ensures i < |held| && CellRefs(held[i], h) == 1
  {
    if CellRefs(held[0], h) == 1 {
      i := 0;
    } else {
      var k := SomeOwner(held[1..], h);
      i := k + 1;
    }
  }

  /** In every run each wrapper's flag agrees with isReferenceCountable, recomputed or copied. */
  lemma FlagsAlwaysRight(ct: Counting, ops: seq<Op>, i: nat)
    requires Runs(ct, START, ops) && Live(Exec(ct, START, ops), i)
    requires Exec(ct, START, ops).held[i].value.obj != NULL
    ensures var c := Exec(ct, START, ops).held[i].value; c.flag == ct(c.obj)
  {
    StartInv(ct);
    RunInv(ct, START, ops);
  }

  /** A wrapper operation never calls the runtime on an object that is not countable. */
  lemma UncountableUntouched(ct: Counting, ops: seq<Op>, op: Op, k: nat)
    requires Runs(ct, START, ops) && Enabled(Exec(ct, START, ops), op) && !op.ExtRetain? && !op.ExtRelease?
    requires k < |Calls(ct, Exec(ct, START, ops), op)|
    ensures ct(Calls(ct, Exec(ct, START, ops), op)[k].h)
  {
    StartInv(ct);
    RunInv(ct, START, ops);
    var w := Exec(ct, START, ops);
    match op
    case AssignCopy(i, j) => assert Live(w, i) && Live(w, j);
    case AssignMove(i, _) => assert Live(w, i);
    case AssignRaw(i, _) => assert Live(w, i);
    case Destroy(i) => assert Live(w, i);
    case _ =>
  }

  /** The number of live wrappers of h, whether they own a reference or not. */
  function Wrapping(held: seq<Option<Cell>>, h: Handle): nat {
    if held == [] then 0
    else (if held[0].Some? && held[0].value.obj == h then 1 else 0) + Wrapping(held[1..], h)
  }

  lemma {:induction false} OwnersByFlag(held: seq<Option<Cell>>, h: Handle, flag: bool)
    requires h != NULL
    requires forall i :: 0 <= i < |held| && held[i].Some? && held[i].value.obj == h ==> held[i].value.flag == flag
    ensures Owners(held, h) == if flag then Wrapping(held, h) else 0
  {
    if held != [] {
      assert forall i :: 0 <= i < |held[1..]| ==> held[1..][i] == held[i + 1];
      OwnersByFlag(held[1..], h, flag);
    }
  }

  /**
   After every run of device wrappers, a device is counted once for each reference owned elsewhere, and once for
   each live wrapper of it exactly when the build and the version let devices be counted.
   */
  lemma DeviceCounts(target: nat, minimum: nat, version: Handle -> nat, ops: seq<Op>, device: Handle,
                     major: nat, minor: nat)
    requires device != NULL && major < 0x1_0000 && minor < 0x1_0000 && version(device) == Version.Pack(major, minor)
    requires Runs(DeviceCounting(target, minimum, version), START, ops)
    ensures var w := Exec(DeviceCounting(target, minimum, version), START, ops);
            Count(w.counts, device) == Count(w.ext, device)
              + if Counted(target, minimum, device, major, minor) then Wrapping(w.held, device) else 0
  {
    var ct := DeviceCounting(target, minimum, version);
    CountedExactly(target, minimum, version, device, major, minor);
    StartInv(ct);
    RunInv(ct, START, ops);
    var w := Exec(ct, START, ops);
    forall i | 0 <= i < |w.held| && w.held[i].Some? && w.held[i].value.obj == device
      ensures w.held[i].value.flag == ct(device)
    {
      assert Live(w, i);
    }
    OwnersByFlag(w.held, device, ct(device));
  }

  /** In the default build, for 2.0 and from 2.0 on, every live wrapper of a device owns one reference. */
  lemma DefaultBuildCounts(version: Handle -> nat, ops: seq<Op>, device: Handle)
    requires device != NULL && Runs(DeviceCounting(200, 200, version), START, ops)
    ensures var w := Exec(DeviceCounting(200, 200, version), START, ops);
            Count(w.counts, device) == Count(w.ext, device) + Wrapping(w.held, device)
  {
    var ct := DeviceCounting(200, 200, version);
    StartInv(ct);
    RunInv(ct, START, ops);
    var w := Exec(ct, START, ops);
    forall i | 0 <= i < |w.held| && w.held[i].Some? && w.held[i].value.obj == device
      ensures w.held[i].value.flag
    {
      assert Live(w, i);
    }
    OwnersByFlag(w.held, device, true);
  }
}
