/**
 The getInfoHelper overloads for reference-counted results. The list-valued ones
 differ: CL/cl.hpp assigns the raw handles to the vector and then retains each
 element, CL/cl2.hpp resizes the vector and move-assigns a retained temporary to
 each element. Both are proved to leave the same elements and the same counts.
 */
module InfoHelpers {
  import opened Basics
  import opened Ownership
  import opened Wrappers

  /** What the queried function f answers: an error for the size, an error for the data, or the handles. */
  datatype Query = SizeFails(err: int) | DataFails(err: int) | Handles(values: seq<Handle>)

  predicate WellFormed(q: Query) {
    !q.Handles? ==> q.err != 0
  }

  function Wrap(ct: Counting, values: seq<Handle>): (cells: seq<Cell>)
    ensures |cells| == |values|
    ensures forall i :: 0 <= i < |values| ==> cells[i] == Cell(values[i], ct(values[i]))
  {
    seq(|values|, i requires 0 <= i < |values| => Cell(values[i], ct(values[i])))
  }

  /** The number of cells that own a reference on h. */
  function Owned(cells: seq<Cell>, h: Handle): nat {
    if cells == [] then 0 else CellRefs(Some(cells[0]), h) + Owned(cells[1..], h)
  }

  lemma {:induction false} OwnedConcat(a: seq<Cell>, b: seq<Cell>, h: Handle)
    ensures Owned(a + b, h) == Owned(a, h) + Owned(b, h)
  {
    if a == [] {
      assert a + b == b;
    } else {
      assert (a + b)[1..] == a[1..] + b;
      OwnedConcat(a[1..], b, h);
    }
  }

  lemma OwnedOne(c: Cell, h: Handle)
    ensures Owned([c], h) == CellRefs(Some(c), h)
  {
    assert [c][1..] == [];
  }

  lemma OwnedSplit(cells: seq<Cell>, k: nat, h: Handle)
    requires k < |cells|
    ensures Owned(cells[k..], h) == CellRefs(Some(cells[k]), h) + Owned(cells[k + 1..], h)
    ensures Owned(cells[..k + 1], h) == Owned(cells[..k], h) + CellRefs(Some(cells[k]), h)
    ensures Owned(cells, h) == Owned(cells[..k], h) + CellRefs(Some(cells[k]), h) + Owned(cells[k + 1..], h)
  {
    assert cells[..k + 1] == cells[..k] + [cells[k]];
    assert cells[k..] == [cells[k]] + cells[k + 1..];
    assert cells == cells[..k] + cells[k..];
    OwnedConcat(cells[..k], [cells[k]], h);
    OwnedConcat([cells[k]], cells[k + 1..], h);
    OwnedConcat(cells[..k], cells[k..], h);
    OwnedOne(cells[k], h);
  }

  lemma OwnedPush(cells: seq<Cell>, c: Cell, h: Handle)
    ensures Owned(cells + [c], h) == Owned(cells, h) + CellRefs(Some(c), h)
  {
    OwnedConcat(cells, [c], h);
    OwnedOne(c, h);
  }

  lemma OwnedPut(cells: seq<Cell>, k: nat, c: Cell, h: Handle)
    requires k < |cells|
    ensures Owned(cells[k := c], h) == Owned(cells, h) - CellRefs(Some(cells[k]), h) + CellRefs(Some(c), h)
  {
    OwnedSplit(cells, k, h);
    OwnedSplit(cells[k := c], k, h);
    assert cells[k := c][..k] == cells[..k] && cells[k := c][k + 1..] == cells[k + 1..];
  }

  /** The vector owns its elements, and the queried parent holds one more reference on each countable listed object. */
  ghost predicate Backed(ct: Counting, counts: map<Handle, nat>, items: seq<Cell>, values: seq<Handle>) {
    forall h: Handle :: h != NULL ==> Count(counts, h) >= Owned(items, h) + (if h in values && ct(h) then 1 else 0)
  }

  /** Each count loses what the old elements owned and gains what the new ones own. */
  ghost predicate Exchanged(before: map<Handle, nat>, oldItems: seq<Cell>,
                            after: map<Handle, nat>, newItems: seq<Cell>)
  {
    forall h: Handle :: h != NULL ==> Count(after, h) == Count(before, h) - Owned(oldItems, h) + Owned(newItems, h)
  }

  /** ~Wrapper() of an element with these fields. */
  method ReleaseCell(c: Cell, rt: Runtime)
    requires Owning(c) ==> Count(rt.counts, c.obj) > 0
    modifies rt
    ensures forall h: Handle :: Count(rt.counts, h) == Count(old(rt.counts), h) - CellRefs(Some(c), h)
  {
    if c.obj != NULL && c.flag { rt.Call(Release(c.obj)); }
  }

  /** retain() of an element with these fields. */
  method RetainCell(c: Cell, rt: Runtime)
    requires Owning(c) ==> Count(rt.counts, c.obj) > 0
    modifies rt
    ensures forall h: Handle :: Count(rt.counts, h) == Count(old(rt.counts), h) + CellRefs(Some(c), h)
  {
    if c.obj != NULL && c.flag { rt.Call(Retain(c.obj)); }
  }

  /** A vector of wrappers: device wrappers, or plain ones if the runtime counts every object that is not null. */
  class HandleVector {
    var items: seq<Cell>

    constructor (cells: seq<Cell>)
      ensures items == cells
    {
      items := cells;
    }

    /** Destroys the last element. */
    method PopLast(ghost n: nat, rt: Runtime)
      requires |items| > n
      requires forall h: Handle :: h != NULL ==> Count(rt.counts, h) >= Owned(Tail(items, n), h)
      modifies this, rt
      ensures items == old(items)[..|old(items)| - 1]
      ensures forall h: Handle :: h != NULL ==> Count(rt.counts, h) >= Owned(Tail(items, n), h)
      ensures Exchanged(old(rt.counts), old(items), rt.counts, items)
    {
      var c := items[|items| - 1];
      forall h: Handle | h != NULL
        ensures Owned(items, h) == Owned(items[..|items| - 1], h) + CellRefs(Some(c), h)
        ensures Owned(Tail(items, n), h) == Owned(Tail(items[..|items| - 1], n), h) + CellRefs(Some(c), h)
      {
        PopOwned(items, n, h);
      }
      ReleaseCell(c, rt);
      items := items[..|items| - 1];
    }

    /** Destroys trailing elements down to length n. */
    method Shrink(n: nat, rt: Runtime)
      requires forall h: Handle :: h != NULL ==> Count(rt.counts, h) >= Owned(Tail(items, n), h)
      modifies this, rt
      ensures items == Head(old(items), n)
      ensures Exchanged(old(rt.counts), old(items), rt.counts, items)
    {
      ghost var all := items;
      while |items| > n
        invariant n <= |items| <= |all| || items == all
        invariant items == all[..|items|]
        invariant forall h: Handle :: h != NULL ==> Count(rt.counts, h) >= Owned(Tail(items, n), h)
        invariant Exchanged(old(rt.counts), all, rt.counts, items)
        decreases |items|
      {
        ghost var before, counts := items, rt.counts;
        PopLast(n, rt);
        ExchangedTrans(old(rt.counts), all, counts, before, rt.counts, items);
      }
    }

    /** operator=(const cl_type &) of element k. */
    method AssignElement(k: nat, v: Handle, rt: Runtime)
      requires k < |items| && (Owning(items[k]) ==> Count(rt.counts, items[k].obj) > 0)
      modifies this, rt
      ensures items == old(items)[k := Cell(v, rt.countable(v))]
      ensures forall h: Handle :: Count(rt.counts, h) == Count(old(rt.counts), h) - CellRefs(Some(old(items)[k]), h)
    {
      ReleaseCell(items[k], rt);
      items := items[k := Cell(v, rt.countable(v))];
    }

    /** Raw assignment to the elements that exist on both sides. */
    method AssignCommon(values: seq<Handle>, rt: Runtime) returns (k: nat)
      requires Backed(rt.countable, rt.counts, items, [])
      modifies this, rt
      ensures k == (if |old(items)| < |values| then |old(items)| else |values|)
      ensures items == Wrap(rt.countable, values)[..k] + old(items)[k..]
      ensures Exchanged(old(rt.counts), old(items), rt.counts, old(items)[k..])
    {
      ghost var all, cells := items, Wrap(rt.countable, values);
      k := 0;
      assert all[0..] == all;
      while k < |items| && k < |values|
        invariant k <= |items| == |all| && k <= |values|
        invariant forall i :: 0 <= i < |all| ==> items[i] == if i < k then cells[i] else all[i]
        invariant Exchanged(old(rt.counts), all, rt.counts, all[k..])
        invariant Backed(rt.countable, rt.counts, all[k..], [])
      {
        ghost var counts := rt.counts;
        FirstBacked(rt.countable, counts, all, k);
        AssignElement(k, values[k], rt);
        ReleasedOne(rt.countable, old(rt.counts), all, counts, rt.counts, k);
        k := k + 1;
      }
      assert items == cells[..k] + all[k..];
    }

    /** VECTOR_CLASS<T>::assign from raw handles: elements are raw-assigned, constructed or destroyed as needed. */
    method AssignRange(values: seq<Handle>, rt: Runtime)
      requires Backed(rt.countable, rt.counts, items, [])
      modifies this, rt
      ensures items == Wrap(rt.countable, values)
      ensures Exchanged(old(rt.counts), old(items), rt.counts, [])
    {
      ghost var all, cells := items, Wrap(rt.countable, values);
      var k := AssignCommon(values, rt);
      ghost var mid, counts := items, rt.counts;
      assert Tail(mid, |values|) == all[k..] && Head(mid, |values|) == cells[..k];
      forall h: Handle | h != NULL
        ensures Count(counts, h) >= Owned(all[k..], h)
        ensures Owned(mid, h) == Owned(cells[..k], h) + Owned(all[k..], h)
      {
        assert Count(old(rt.counts), h) >= Owned(all, h);
        OwnedConcat(cells[..k], all[k..], h);
      }
      Shrink(|values|, rt);
      while |items| < |values|
        invariant k <= |items| <= |values| && items == cells[..|items|]
        modifies this
      {
        items := items + [Cell(values[|items|], rt.countable(values[|items|]))];
      }
    }

    /** CL/cl.hpp: assign, then retain every element whose handle is not null. */
    method AssignThenRetain(q: Query, rt: Runtime) returns (err: int)
      requires WellFormed(q)
      requires q.Handles? ==> Backed(rt.countable, rt.counts, items, q.values)
      modifies this, rt
      ensures err == if q.Handles? then 0 else q.err
      ensures q.Handles? ==> items == Wrap(rt.countable, q.values)
      ensures q.Handles? ==> Exchanged(old(rt.counts), old(items), rt.counts, items)
      ensures !q.Handles? ==> items == old(items) && rt.counts == old(rt.counts)
    {
      if !q.Handles? { return q.err; }
      var values := q.values;
      AssignRange(values, rt);
      ghost var base := rt.counts;
      var i := 0;
      while i < |values|
        invariant 0 <= i <= |values| && items == Wrap(rt.countable, values)
        invariant Exchanged(base, [], rt.counts, items[..i])
      {
        forall h: Handle
          ensures Owned(items[..i + 1], h) == Owned(items[..i], h) + CellRefs(Some(items[i]), h)
        {
          OwnedSplit(items, i, h);
        }
        if values[i] != NULL { RetainCell(items[i], rt); }
        i := i + 1;
      }
      assert items[..i] == items;
      return 0;
    }

    /** CL/cl2.hpp: resize, then move-assign a retained temporary to each element. */
    method RetainThenMove(values: seq<Handle>, rt: Runtime)
      requires Backed(rt.countable, rt.counts, items, values)
      modifies this, rt
      ensures items == Wrap(rt.countable, values) && Exchanged(old(rt.counts), old(items), rt.counts, items)
    {
      Resize(|values|, rt);
      ghost var cells := Wrap(rt.countable, values);
      var i := 0;
      while i < |values|
        invariant 0 <= i <= |values| == |items| && items[..i] == cells[..i]
        invariant Exchanged(old(rt.counts), old(items), rt.counts, items)
        invariant Backed(rt.countable, rt.counts, items, values)
      {
        ghost var before, counts := items, rt.counts;
        MoveTemporary(i, values, rt);
        ExchangedTrans(old(rt.counts), old(items), counts, before, rt.counts, items);
        i := i + 1;
      }
      assert items == cells;
    }

    /** One turn of the loop: T(value[i], true) is built, moved into the element, and destroyed empty. */
    method MoveTemporary(i: nat, values: seq<Handle>, rt: Runtime)
      requires i < |values| == |items| && Backed(rt.countable, rt.counts, items, values)
      modifies this, rt
      ensures items == old(items)[i := Cell(values[i], rt.countable(values[i]))]
      ensures Exchanged(old(rt.counts), old(items), rt.counts, items)
      ensures Backed(rt.countable, rt.counts, items, values)
    {
      var temp, was := Cell(values[i], rt.countable(values[i])), items[i];
      forall h: Handle
        ensures Owned(items[i := temp], h) == Owned(items, h) - CellRefs(Some(was), h) + CellRefs(Some(temp), h)
        ensures CellRefs(Some(was), h) <= Owned(items, h)
      {
        OwnedPut(items, i, temp, h);
        OwnedSplit(items, i, h);
      }
      RetainCell(temp, rt);
      ReleaseCell(was, rt);
      items := items[i := temp];
      BackedKept(rt.countable, old(rt.counts), old(items), rt.counts, items, values);
    }

    method Resize(n: nat, rt: Runtime)
      requires Backed(rt.countable, rt.counts, items, [])
      modifies this, rt
      ensures |items| == n && Exchanged(old(rt.counts), old(items), rt.counts, items)
    {
      forall h: Handle | h != NULL
        ensures Count(rt.counts, h) >= Owned(Tail(items, n), h)
      {
        assert items == Head(items, n) + Tail(items, n);
        OwnedConcat(Head(items, n), Tail(items, n), h);
      }
      Shrink(n, rt);
      while |items| < n
        invariant |items| <= n && Exchanged(old(rt.counts), old(items), rt.counts, items)
      {
        forall h: Handle ensures Owned(items + [EMPTY], h) == Owned(items, h) { OwnedPush(items, EMPTY, h); }
        items := items + [EMPTY];
      }
    }
  }

  function Head(s: seq<Cell>, n: nat): seq<Cell> { if n < |s| then s[..n] else s }
  function Tail(s: seq<Cell>, n: nat): seq<Cell> { if n < |s| then s[n..] else [] }

  lemma FirstBacked(ct: Counting, counts: map<Handle, nat>, all: seq<Cell>, k: nat)
    requires k < |all| && Backed(ct, counts, all[k..], [])
    ensures Owning(all[k]) ==> Count(counts, all[k].obj) > 0
  {
    OwnedSplit(all, k, all[k].obj);
  }

  /** Releasing element k of a partly released vector. */
  lemma ReleasedOne(ct: Counting, base: map<Handle, nat>, all: seq<Cell>,
                    counts: map<Handle, nat>, counts': map<Handle, nat>, k: nat)
    requires k < |all| && Exchanged(base, all, counts, all[k..]) && Backed(ct, counts, all[k..], [])
    requires forall h: Handle :: Count(counts', h) == Count(counts, h) - CellRefs(Some(all[k]), h)
    ensures Exchanged(base, all, counts', all[k + 1..]) && Backed(ct, counts', all[k + 1..], [])
  {
    forall h: Handle
      ensures Owned(all[k..], h) == CellRefs(Some(all[k]), h) + Owned(all[k + 1..], h)
    {
      OwnedSplit(all, k, h);
    }
    assert Exchanged(counts, all[k..], counts', all[k + 1..]);
    BackedKept(ct, counts, all[k..], counts', all[k + 1..], []);
  }

  lemma PopOwned(s: seq<Cell>, n: nat, h: Handle)
    requires |s| > n
    ensures Owned(s, h) == Owned(s[..|s| - 1], h) + CellRefs(Some(s[|s| - 1]), h)
    ensures Owned(Tail(s, n), h) == Owned(Tail(s[..|s| - 1], n), h) + CellRefs(Some(s[|s| - 1]), h)
  {
    var c, r := s[|s| - 1], s[..|s| - 1];
    assert s == r + [c] && Tail(s, n) == Tail(r, n) + [c];
    OwnedPush(r, c, h);
    OwnedPush(Tail(r, n), c, h);
  }

  lemma ExchangedTrans(a: map<Handle, nat>, x: seq<Cell>, b: map<Handle, nat>, y: seq<Cell>,
                       c: map<Handle, nat>, z: seq<Cell>)
    requires Exchanged(a, x, b, y) && Exchanged(b, y, c, z)
    ensures Exchanged(a, x, c, z)
  {}

  lemma BackedKept(ct: Counting, a: map<Handle, nat>, x: seq<Cell>, b: map<Handle, nat>, y: seq<Cell>,
                   values: seq<Handle>)
    requires Backed(ct, a, x, values) && Exchanged(a, x, b, y)
    ensures Backed(ct, b, y, values)
  {
    forall h: Handle | h != NULL
      ensures Count(b, h) >= Owned(y, h) + (if h in values && ct(h) then 1 else 0)
    {
      assert Count(a, h) >= Owned(x, h) + (if h in values && ct(h) then 1 else 0);
    }
  }

  /** The list-valued helper of CL/cl2.hpp, whose vector may be null: then only the query is made. */
  method GetList(param: HandleVector?, q: Query, rt: Runtime) returns (err: int)
    requires WellFormed(q)
    requires q.Handles? && param != null ==> Backed(rt.countable, rt.counts, param.items, q.values)
    modifies param, rt
    ensures err == if q.Handles? then 0 else q.err
    ensures q.Handles? && param != null ==> param.items == Wrap(rt.countable, q.values)
    ensures q.Handles? && param != null ==> Exchanged(old(rt.counts), old(param.items), rt.counts, param.items)
    ensures !q.Handles? || param == null ==> rt.counts == old(rt.counts)
    ensures !q.Handles? && param != null ==> param.items == old(param.items)
  {
    if !q.Handles? { return q.err; }
    if param != null { param.RetainThenMove(q.values, rt); }
    return 0;
  }

  /** From equal vectors and equal counts, the two headers leave equal errors, elements and counts. */
  method HeadersAgree(q: Query, v: HandleVector, rt: Runtime, v': HandleVector, rt': Runtime)
    returns (err: int, err': int)
    requires WellFormed(q) && v != v' && rt != rt'
    requires v.items == v'.items && rt.counts == rt'.counts && rt.countable == rt'.countable
    requires q.Handles? ==> Backed(rt.countable, rt.counts, v.items, q.values)
    modifies v, rt, v', rt'
    ensures err == err' && v.items == v'.items
    ensures forall h: Handle :: h != NULL ==> Count(rt.counts, h) == Count(rt'.counts, h)
  {
    err := v.AssignThenRetain(q, rt);
    err' := GetList(v', q, rt');
  }

  lemma OwnedSingles(c: Cell, d: Cell)
    ensures forall h: Handle :: Owned([c], h) == CellRefs(Some(c), h) && Owned([d], h) == CellRefs(Some(d), h)
  {
    forall h: Handle
      ensures Owned([c], h) == CellRefs(Some(c), h) && Owned([d], h) == CellRefs(Some(d), h)
    {
      OwnedOne(c, h);
      OwnedOne(d, h);
    }
  }

  /** What the single-valued overload may rely on: the parent it queries holds one more reference on the value. */
  predicate BackedOne(counts: map<Handle, nat>, was: Cell, now: Cell) {
    && (Owning(was) ==> Count(counts, was.obj) > 0)
    && (Owning(now) ==> Count(counts, now.obj) > CellRefs(Some(was), now.obj))
  }

  /** The single-valued overload for plain wrappers: raw-assign, then retain. */
  method GetOne(param: Wrapper, err: int, value: Handle, rt: Runtime)
    requires err == 0 ==> BackedOne(rt.counts, param.Fields(), Cell(value, value != NULL))
    modifies param, rt
    ensures err != 0 ==> param.Fields() == old(param.Fields()) && rt.counts == old(rt.counts)
    ensures err == 0 ==>
              && param.Fields() == Cell(value, value != NULL)
              && Exchanged(old(rt.counts), [old(param.Fields())], rt.counts, [param.Fields()])
  {
    if err == 0 {
      OwnedSingles(param.Fields(), Cell(value, value != NULL));
      param.AssignRaw(value, rt);
      if value != NULL { param.RetainSelf(rt); }
    }
  }

  /** The same overload for device wrappers. */
  method GetOneDevice(param: DeviceWrapper, err: int, value: Handle, rt: Runtime)
    requires err == 0 ==> BackedOne(rt.counts, param.Fields(), Cell(value, rt.countable(value)))
    modifies param, rt
    ensures err != 0 ==> param.Fields() == old(param.Fields()) && rt.counts == old(rt.counts)
    ensures err == 0 ==>
              && param.Fields() == Cell(value, rt.countable(value))
              && Exchanged(old(rt.counts), [old(param.Fields())], rt.counts, [param.Fields()])
  {
    if err == 0 {
      OwnedSingles(param.Fields(), Cell(value, rt.countable(value)));
      param.AssignRaw(value, rt);
      if value != NULL { param.RetainSelf(rt); }
    }
  }
}
