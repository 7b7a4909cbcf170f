/**
 The wrapper classes themselves, as objects whose fields are reassigned. Each
 method makes a stated list of runtime calls and needs no more than that those
 calls are safe; Programs connects both classes to the runs of the ownership model.
 */
module Wrappers {
  import opened Basics
  import opened Ownership

  /** The OpenCL runtime: a reference count per object, and what isReferenceCountable answers. */
  class Runtime {
    var counts: map<Handle, nat>
    const countable: Counting

    constructor (ct: Counting)
      ensures counts == map[] && countable == ct
    {
      counts := map[];
      countable := ct;
    }

    method Call(c: Call)
      requires Count(counts, c.h) > 0
      modifies this
      ensures counts == After(old(counts), c)
    {
      var n := counts[c.h];
      if c.Retain? {
        counts := counts[c.h := n + 1];
      } else {
        counts := counts[c.h := n - 1];
      }
    }
  }

  /** detail::Wrapper<T>. */
  class Wrapper {
    var obj: Handle

    function Fields(): Cell
      reads this
    {
      Cell(obj, obj != NULL)
    }

    constructor Null()
      ensures Fields() == EMPTY
    {
      obj := NULL;
    }

    constructor Raw(h: Handle, retain: bool, rt: Runtime)
      requires retain ==> Safe(rt.counts, Retaining(Cell(h, h != NULL)))
      modifies rt
      ensures Fields() == Cell(h, h != NULL)
      ensures rt.counts == Play(old(rt.counts), if retain then Retaining(Cell(h, h != NULL)) else [])
    {
      obj := h;
      new;
      if retain { RetainSelf(rt); }
    }

    constructor Copy(rhs: Wrapper, rt: Runtime)
      requires Safe(rt.counts, Retaining(rhs.Fields()))
      modifies rt
      ensures Fields() == old(rhs.Fields())
      ensures rt.counts == Play(old(rt.counts), Retaining(old(rhs.Fields())))
    {
      obj := rhs.obj;
      new;
      RetainSelf(rt);
    }

    constructor Move(rhs: Wrapper)
      modifies rhs
      ensures Fields() == old(rhs.Fields()) && rhs.Fields() == EMPTY
    {
      obj := rhs.obj;
      new;
      rhs.obj := NULL;
    }

    method RetainSelf(rt: Runtime)
      requires Safe(rt.counts, Retaining(Fields()))
      modifies rt
      ensures rt.counts == Play(old(rt.counts), Retaining(Fields()))
    {
      if obj != NULL { rt.Call(Retain(obj)); }
    }

    method ReleaseSelf(rt: Runtime)
      requires Safe(rt.counts, Releasing(Fields()))
      modifies rt
      ensures rt.counts == Play(old(rt.counts), Releasing(Fields()))
    {
      if obj != NULL { rt.Call(Release(obj)); }
    }

    method Destroy(rt: Runtime)
      requires Safe(rt.counts, Releasing(Fields()))
      modifies rt
      ensures rt.counts == Play(old(rt.counts), Releasing(Fields()))
    {
      ReleaseSelf(rt);
    }

    method AssignCopy(rhs: Wrapper, rt: Runtime)
      requires this != rhs ==> Safe(rt.counts, Releasing(Fields()) + Retaining(rhs.Fields()))
      modifies this, rt
      ensures Fields() == old(rhs.Fields())
      ensures rt.counts == if this == rhs then old(rt.counts)
                           else Play(old(rt.counts), old(Releasing(Fields()) + Retaining(rhs.Fields())))
    {
      if this != rhs {
        SplitCalls(rt.counts, Releasing(Fields()), Retaining(rhs.Fields()));
        ReleaseSelf(rt);
        obj := rhs.obj;
        RetainSelf(rt);
      }
    }

    method AssignMove(rhs: Wrapper, rt: Runtime)
      requires this != rhs ==> Safe(rt.counts, Releasing(Fields()))
      modifies this, rhs, rt
      ensures Fields() == old(rhs.Fields())
      ensures this != rhs ==> rhs.Fields() == EMPTY
      ensures rt.counts == if this == rhs then old(rt.counts) else Play(old(rt.counts), old(Releasing(Fields())))
    {
      if this != rhs {
        ReleaseSelf(rt);
        obj := rhs.obj;
        rhs.obj := NULL;
      }
    }

    method AssignRaw(h: Handle, rt: Runtime)
      requires Safe(rt.counts, Releasing(Fields()))
      modifies this, rt
      ensures Fields() == Cell(h, h != NULL)
      ensures rt.counts == Play(old(rt.counts), old(Releasing(Fields())))
    {
      ReleaseSelf(rt);
      obj := h;
    }
  }

  /** detail::Wrapper<cl_device_id>: the flag is recomputed on construction and raw assignment, copied on assignment. */
  class DeviceWrapper {
    var obj: Handle
    var referenceCountable: bool

    function Fields(): Cell
      reads this
    {
      Cell(obj, referenceCountable)
    }

    constructor Null()
      ensures Fields() == EMPTY
    {
      obj, referenceCountable := NULL, false;
    }

    constructor Raw(h: Handle, retain: bool, rt: Runtime)
      requires retain ==> Safe(rt.counts, Retaining(Cell(h, rt.countable(h))))
      modifies rt
      ensures Fields() == Cell(h, rt.countable(h))
      ensures rt.counts == Play(old(rt.counts), if retain then Retaining(Cell(h, rt.countable(h))) else [])
    {
      obj, referenceCountable := h, rt.countable(h);
      new;
      if retain { RetainSelf(rt); }
    }

    constructor Copy(rhs: DeviceWrapper, rt: Runtime)
      requires Safe(rt.counts, Retaining(Cell(rhs.obj, rt.countable(rhs.obj))))
      modifies rt
      ensures Fields() == Cell(old(rhs.obj), rt.countable(old(rhs.obj)))
      ensures rt.counts == Play(old(rt.counts), Retaining(Fields()))
    {
      obj := rhs.obj;
      referenceCountable := rt.countable(rhs.obj);
      new;
      RetainSelf(rt);
    }

    constructor Move(rhs: DeviceWrapper)
      modifies rhs
      ensures Fields() == old(rhs.Fields()) && rhs.Fields() == EMPTY
    {
      obj, referenceCountable := rhs.obj, rhs.referenceCountable;
      new;
      rhs.obj := NULL;
      rhs.referenceCountable := false;
    }

    method RetainSelf(rt: Runtime)
      requires Safe(rt.counts, Retaining(Fields()))
      modifies rt
      ensures rt.counts == Play(old(rt.counts), Retaining(Fields()))
    {
      if obj != NULL && referenceCountable { rt.Call(Retain(obj)); }
    }

    method ReleaseSelf(rt: Runtime)
      requires Safe(rt.counts, Releasing(Fields()))
      modifies rt
      ensures rt.counts == Play(old(rt.counts), Releasing(Fields()))
    {
      if obj != NULL && referenceCountable { rt.Call(Release(obj)); }
    }

    method AssignCopy(rhs: DeviceWrapper, rt: Runtime)
      requires this != rhs ==> Safe(rt.counts, Releasing(Fields()) + Retaining(rhs.Fields()))
      modifies this, rt
      ensures Fields() == old(rhs.Fields())
      ensures rt.counts == if this == rhs then old(rt.counts)
                           else Play(old(rt.counts), old(Releasing(Fields()) + Retaining(rhs.Fields())))
    {
      if this != rhs {
        SplitCalls(rt.counts, Releasing(Fields()), Retaining(rhs.Fields()));
        ReleaseSelf(rt);
        obj := rhs.obj;
        referenceCountable := rhs.referenceCountable;
        RetainSelf(rt);
      }
    }

    method AssignMove(rhs: DeviceWrapper, rt: Runtime)
      requires this != rhs ==> Safe(rt.counts, Releasing(Fields()))
      modifies this, rhs, rt
      ensures Fields() == old(rhs.Fields())
      ensures this != rhs ==> rhs.Fields() == EMPTY
      ensures rt.counts == if this == rhs then old(rt.counts) else Play(old(rt.counts), old(Releasing(Fields())))
    {
      if this != rhs {
        ReleaseSelf(rt);
        obj := rhs.obj;
        referenceCountable := rhs.referenceCountable;
        rhs.obj := NULL;
        rhs.referenceCountable := false;
      }
    }

    method AssignRaw(h: Handle, rt: Runtime)
      requires Safe(rt.counts, Releasing(Fields()))
      modifies this, rt
      ensures Fields() == Cell(h, rt.countable(h))
      ensures rt.counts == Play(old(rt.counts), old(Releasing(Fields())))
    {
      ReleaseSelf(rt);
      obj := h;
      referenceCountable := rt.countable(h);
    }
  }

  lemma {:induction false} SplitCalls(counts: map<Handle, nat>, a: seq<Call>, b: seq<Call>)
    requires Safe(counts, a + b)
    ensures Safe(counts, a) && Safe(Play(counts, a), b)
    ensures Play(counts, a + b) == Play(Play(counts, a), b)
    decreases |a|
  {
    if a == [] {
      assert a + b == b;
    } else {
      assert (a + b)[1..] == a[1..] + b;
      SplitCalls(After(counts, a[0]), a[1..], b);
    }
  }

  lemma PlayOne(counts: map<Handle, nat>, c: Call)
    ensures Play(counts, [c]) == After(counts, c)
  {
    assert [c][1..] == [];
  }
}
