/**
 Programs of wrappers on the heap. Running any operation of the ownership model
 on the objects gives the model's next state, so everything the model proves of
 its runs holds of both wrapper classes.
 */
module Programs {
  import opened Basics
  import opened Ownership
  import opened Wrappers

  /** Plain wrappers count every object. */
  const PLAIN: Counting := h => h != NULL

  /** A program's wrappers of contexts, queues and other plain objects. */
  class PlainProgram {
    const rt: Runtime
    var wrappers: seq<Wrapper?>
    var ext: map<Handle, nat>

    ghost predicate Distinct()
      reads this
    {
      forall i, j :: 0 <= i < j < |wrappers| && wrappers[i] != null ==> wrappers[i] != wrappers[j]
    }

    ghost function Abs(): World
      reads this, rt, set i | 0 <= i < |wrappers| :: wrappers[i]
    {
      World(rt.counts,
            seq(|wrappers|, i requires 0 <= i < |wrappers|
                              reads this, if 0 <= i < |wrappers| then {wrappers[i]} else {} =>
                              if wrappers[i] == null then None else Some(wrappers[i].Fields())),
            ext)
    }

    ghost predicate Valid()
      reads this, rt, set i | 0 <= i < |wrappers| :: wrappers[i]
    {
      Distinct() && Inv(PLAIN, Abs())
    }

    constructor (rt: Runtime)
      requires rt.counts == map[]
      ensures Valid() && Abs() == START && this.rt == rt
    {
      this.rt := rt;
      wrappers := [];
      ext := map[];
    }

    /** The runtime hands out a new object, or references change hands outside the wrappers. */
    method Outside(op: Op)
      requires Valid() && Enabled(Abs(), op) && (op.Create? || op.ExtRetain? || op.ExtRelease?)
      modifies this, rt
      ensures Valid() && Abs() == Apply(PLAIN, old(Abs()), op)
    {
      ghost var w := Abs();
      CallsSafe(PLAIN, w, op);
      InvKept(PLAIN, w, op);
      if op.Create? {
        rt.counts := rt.counts[op.h := 1];
        ext := ext[op.h := 1];
        assert rt.counts == Play(rt.counts, []);
      } else if op.ExtRetain? {
        PlayOne(rt.counts, Retain(op.h));
        rt.Call(Retain(op.h));
        ext := ext[op.h := ext[op.h] + 1];
      } else {
        PlayOne(rt.counts, Release(op.h));
        rt.Call(Release(op.h));
        ext := ext[op.h := ext[op.h] - 1];
      }
      assert Abs().held == Held(PLAIN, w, op);
    }

    method Construct(h: Handle, retain: bool)
      requires Valid() && Enabled(Abs(), New(h, retain))
      modifies this, rt, set i | 0 <= i < |wrappers| :: wrappers[i]
      ensures Valid() && Abs() == Apply(PLAIN, old(Abs()), New(h, retain))
    {
      ghost var w, op := Abs(), New(h, retain);
      CallsSafe(PLAIN, w, op);
      InvKept(PLAIN, w, op);
      var n := new Wrapper.Raw(h, retain, rt);
      wrappers := wrappers + [n];
      ext := if !retain && h != NULL then ext[h := ext[h] - 1] else ext;
      assert Abs().held == Held(PLAIN, w, op);
    }

    method ConstructCopy(j: nat)
      requires Valid() && Enabled(Abs(), Copy(j))
      modifies this, rt, set i | 0 <= i < |wrappers| :: wrappers[i]
      ensures Valid() && Abs() == Apply(PLAIN, old(Abs()), Copy(j))
    {
      ghost var w, op := Abs(), Copy(j);
      CallsSafe(PLAIN, w, op);
      InvKept(PLAIN, w, op);
      assert Live(w, j);
      var n := new Wrapper.Copy(wrappers[j], rt);
      wrappers := wrappers + [n];
      assert Abs().held == Held(PLAIN, w, op);
    }

    method ConstructMove(j: nat)
      requires Valid() && Enabled(Abs(), Move(j))
      modifies this, rt, set i | 0 <= i < |wrappers| :: wrappers[i]
      ensures Valid() && Abs() == Apply(PLAIN, old(Abs()), Move(j))
    {
      ghost var w, op := Abs(), Move(j);
      CallsSafe(PLAIN, w, op);
      InvKept(PLAIN, w, op);
      assert Live(w, j);
      var n := new Wrapper.Move(wrappers[j]);
      wrappers := wrappers + [n];
      assert Abs().held == Held(PLAIN, w, op);
    }

    method CopyAssign(i: nat, j: nat)
      requires Valid() && Enabled(Abs(), AssignCopy(i, j))
      modifies this, rt, set i | 0 <= i < |wrappers| :: wrappers[i]
      ensures Valid() && Abs() == Apply(PLAIN, old(Abs()), AssignCopy(i, j))
    {
      ghost var w, op := Abs(), AssignCopy(i, j);
      CallsSafe(PLAIN, w, op);
      InvKept(PLAIN, w, op);
      assert Live(w, i) && Live(w, j);
      wrappers[i].AssignCopy(wrappers[j], rt);
      assert Abs().held == Held(PLAIN, w, op);
    }

    method MoveAssign(i: nat, j: nat)
      requires Valid() && Enabled(Abs(), AssignMove(i, j))
      modifies this, rt, set i | 0 <= i < |wrappers| :: wrappers[i]
      ensures Valid() && Abs() == Apply(PLAIN, old(Abs()), AssignMove(i, j))
    {
      ghost var w, op := Abs(), AssignMove(i, j);
      CallsSafe(PLAIN, w, op);
      InvKept(PLAIN, w, op);
      assert Live(w, i) && Live(w, j);
      wrappers[i].AssignMove(wrappers[j], rt);
      assert Abs().held == Held(PLAIN, w, op);
    }

    method RawAssign(i: nat, h: Handle)
      requires Valid() && Enabled(Abs(), AssignRaw(i, h))
      modifies this, rt, set i | 0 <= i < |wrappers| :: wrappers[i]
      ensures Valid() && Abs() == Apply(PLAIN, old(Abs()), AssignRaw(i, h))
    {
      ghost var w, op := Abs(), AssignRaw(i, h);
      CallsSafe(PLAIN, w, op);
      InvKept(PLAIN, w, op);
      assert Live(w, i);
      wrappers[i].AssignRaw(h, rt);
      ext := if h != NULL then ext[h := ext[h] - 1] else ext;
      assert Abs().held == Held(PLAIN, w, op);
    }

    method Delete(i: nat)
      requires Valid() && Enabled(Abs(), Destroy(i))
      modifies this, rt, set i | 0 <= i < |wrappers| :: wrappers[i]
      ensures Valid() && Abs() == Apply(PLAIN, old(Abs()), Destroy(i))
    {
      ghost var w, op := Abs(), Destroy(i);
      CallsSafe(PLAIN, w, op);
      InvKept(PLAIN, w, op);
      assert Live(w, i);
      wrappers[i].Destroy(rt);
      wrappers := wrappers[i := null];
      assert Abs().held == Held(PLAIN, w, op);
    }
  }

  /** A program's device wrappers. */
  class DeviceProgram {
    const rt: Runtime
    var wrappers: seq<DeviceWrapper?>
    var ext: map<Handle, nat>

    ghost predicate Distinct()
      reads this
    {
      forall i, j :: 0 <= i < j < |wrappers| && wrappers[i] != null ==> wrappers[i] != wrappers[j]
    }

    ghost function Abs(): World
      reads this, rt, set i | 0 <= i < |wrappers| :: wrappers[i]
    {
      World(rt.counts,
            seq(|wrappers|, i requires 0 <= i < |wrappers|
                              reads this, if 0 <= i < |wrappers| then {wrappers[i]} else {} =>
                              if wrappers[i] == null then None else Some(wrappers[i].Fields())),
            ext)
    }

    ghost predicate Valid()
      reads this, rt, set i | 0 <= i < |wrappers| :: wrappers[i]
    {
      Distinct() && Inv(rt.countable, Abs())
    }

    constructor (rt: Runtime)
      requires rt.counts == map[]
      ensures Valid() && Abs() == START && this.rt == rt
    {
      this.rt := rt;
      wrappers := [];
      ext := map[];
    }

    /** The runtime hands out a new object, or references change hands outside the wrappers. */
    method Outside(op: Op)
      requires Valid() && Enabled(Abs(), op) && (op.Create? || op.ExtRetain? || op.ExtRelease?)
      modifies this, rt
      ensures Valid() && Abs() == Apply(rt.countable, old(Abs()), op)
    {
      ghost var w := Abs();
      CallsSafe(rt.countable, w, op);
      InvKept(rt.countable, w, op);
      if op.Create? {
        rt.counts := rt.counts[op.h := 1];
        ext := ext[op.h := 1];
        assert rt.counts == Play(rt.counts, []);
      } else if op.ExtRetain? {
        PlayOne(rt.counts, Retain(op.h));
        rt.Call(Retain(op.h));
        ext := ext[op.h := ext[op.h] + 1];
      } else {
        PlayOne(rt.counts, Release(op.h));
        rt.Call(Release(op.h));
        ext := ext[op.h := ext[op.h] - 1];
      }
      assert Abs().held == Held(rt.countable, w, op);
    }

    method Construct(h: Handle, retain: bool)
      requires Valid() && Enabled(Abs(), New(h, retain))
      modifies this, rt, set i | 0 <= i < |wrappers| :: wrappers[i]
      ensures Valid() && Abs() == Apply(rt.countable, old(Abs()), New(h, retain))
    {
      ghost var w, op := Abs(), New(h, retain);
      CallsSafe(rt.countable, w, op);
      InvKept(rt.countable, w, op);
      var n := new DeviceWrapper.Raw(h, retain, rt);
      wrappers := wrappers + [n];
      ext := if !retain && h != NULL && rt.countable(h) then ext[h := ext[h] - 1] else ext;
      assert Abs().held == Held(rt.countable, w, op);
    }

    method ConstructCopy(j: nat)
      requires Valid() && Enabled(Abs(), Copy(j))
      modifies this, rt, set i | 0 <= i < |wrappers| :: wrappers[i]
      ensures Valid() && Abs() == Apply(rt.countable, old(Abs()), Copy(j))
    {
      ghost var w, op := Abs(), Copy(j);
      CallsSafe(rt.countable, w, op);
      InvKept(rt.countable, w, op);
      assert Live(w, j);
      var n := new DeviceWrapper.Copy(wrappers[j], rt);
      wrappers := wrappers + [n];
      assert Abs().held == Held(rt.countable, w, op);
    }

    method ConstructMove(j: nat)
      requires Valid() && Enabled(Abs(), Move(j))
      modifies this, rt, set i | 0 <= i < |wrappers| :: wrappers[i]
      ensures Valid() && Abs() == Apply(rt.countable, old(Abs()), Move(j))
    {
      ghost var w, op := Abs(), Move(j);
      CallsSafe(rt.countable, w, op);
      InvKept(rt.countable, w, op);
      assert Live(w, j);
      var n := new DeviceWrapper.Move(wrappers[j]);
      wrappers := wrappers + [n];
      assert Abs().held == Held(rt.countable, w, op);
    }

    method CopyAssign(i: nat, j: nat)
      requires Valid() && Enabled(Abs(), AssignCopy(i, j))
      modifies this, rt, set i | 0 <= i < |wrappers| :: wrappers[i]
      ensures Valid() && Abs() == Apply(rt.countable, old(Abs()), AssignCopy(i, j))
    {
      ghost var w, op := Abs(), AssignCopy(i, j);
      CallsSafe(rt.countable, w, op);
      InvKept(rt.countable, w, op);
      assert Live(w, i) && Live(w, j);
      wrappers[i].AssignCopy(wrappers[j], rt);
      assert Abs().held == Held(rt.countable, w, op);
    }

    method MoveAssign(i: nat, j: nat)
      requires Valid() && Enabled(Abs(), AssignMove(i, j))
      modifies this, rt, set i | 0 <= i < |wrappers| :: wrappers[i]
      ensures Valid() && Abs() == Apply(rt.countable, old(Abs()), AssignMove(i, j))
    {
      ghost var w, op := Abs(), AssignMove(i, j);
      CallsSafe(rt.countable, w, op);
      InvKept(rt.countable, w, op);
      assert Live(w, i) && Live(w, j);
      wrappers[i].AssignMove(wrappers[j], rt);
      assert Abs().held == Held(rt.countable, w, op);
    }

    method RawAssign(i: nat, h: Handle)
      requires Valid() && Enabled(Abs(), AssignRaw(i, h))
      modifies this, rt, set i | 0 <= i < |wrappers| :: wrappers[i]
      ensures Valid() && Abs() == Apply(rt.countable, old(Abs()), AssignRaw(i, h))
    {
      ghost var w, op := Abs(), AssignRaw(i, h);
      CallsSafe(rt.countable, w, op);
      InvKept(rt.countable, w, op);
      assert Live(w, i);
      wrappers[i].AssignRaw(h, rt);
      ext := if h != NULL && rt.countable(h) then ext[h := ext[h] - 1] else ext;
      assert Abs().held == Held(rt.countable, w, op);
    }

    method Delete(i: nat)
      requires Valid() && Enabled(Abs(), Destroy(i))
      modifies this, rt, set i | 0 <= i < |wrappers| :: wrappers[i]
      ensures Valid() && Abs() == Apply(rt.countable, old(Abs()), Destroy(i))
    {
      ghost var w, op := Abs(), Destroy(i);
      CallsSafe(rt.countable, w, op);
      InvKept(rt.countable, w, op);
      assert Live(w, i);
      wrappers[i].ReleaseSelf(rt);
      wrappers := wrappers[i := null];
      assert Abs().held == Held(rt.countable, w, op);
    }
  }
}
