/**
 cl::string of CL/cl.hpp: a size and a heap buffer that is null when empty and
 otherwise private and NUL-terminated. Freed memory is not modelled; allocation
 succeeds.
 */
module ClString {
  import opened Basics

  const NUL := '\0'

  /** resize keeps a prefix and pads with NUL. */
  function Resized(s: seq<char>, n: nat): (r: seq<char>)
    ensures |r| == n && forall i :: 0 <= i < n ==> r[i] == if i < |s| then s[i] else NUL
  {
    s[..Min(|s|, n)] + seq(n - Min(|s|, n), _ => NUL)
  }

  /** strlen: the position of the first NUL. */
  function StrLen(s: seq<char>): (n: nat)
    requires NUL in s
    ensures n < |s| && s[n] == NUL && forall i :: 0 <= i < n ==> s[i] != NUL
  {
    if s[0] == NUL then 0 else 1 + StrLen(s[1..])
  }

  class String {
    var size: nat
    var str: array?<char>

    ghost predicate Valid()
      reads this, str
    {
      && (str == null <==> size == 0)
      && (str != null ==> str.Length == size + 1 && str[size] == NUL)
    }

    ghost function Contents(): seq<char>
      requires Valid()
      reads this, str
    {
      if str == null then [] else str[..size]
    }

    constructor ()
      ensures Valid() && Contents() == []
    {
      size, str := 0, null;
    }

    /** string(const char *, size): NUL characters inside get no special treatment. */
    constructor Sized(source: Option<seq<char>>, n: nat)
      requires n > 0 ==> source.Some? && n <= |source.value|
      ensures Valid() && Contents() == (if n == 0 then [] else source.value[..n]) && (str != null ==> fresh(str))
    {
      size, str := n, null;
      new;
      if n > 0 {
        var buffer := new char[n + 1];
        CopyInto(buffer, source.value[..n]);
        buffer[n] := NUL;
        str := buffer;
      }
    }

    /** string(const char *): a null source gives the empty string; else it runs to its first NUL, copied too. */
    constructor Terminated(source: Option<seq<char>>)
      requires source.Some? ==> NUL in source.value
      ensures Valid() && (str != null ==> fresh(str))
      ensures Contents() == if source.None? then [] else source.value[..StrLen(source.value)]
    {
      size, str := if source.None? then 0 else StrLen(source.value), null;
      new;
      if size > 0 {
        var buffer := new char[size + 1];
        CopyInto(buffer, source.value[..size + 1]);
        str := buffer;
      }
    }

    constructor Copy(rhs: String)
      requires rhs.Valid()
      ensures Valid() && Contents() == rhs.Contents() && (str != null ==> fresh(str))
    {
      size, str := 0, null;
      new;
      Assign(rhs);
    }

    method Assign(rhs: String)
      requires Valid() && rhs.Valid()
      modifies this
      ensures Valid() && Contents() == old(rhs.Contents())
      ensures if this == rhs then str == old(str) else str != null ==> fresh(str)
    {
      if this == rhs { return; }
      if str != null { str, size := null, 0; }
      if rhs.size == 0 || rhs.str == null {
        str, size := null, 0;
      } else {
        var buffer := new char[rhs.size + 1];
        CopyInto(buffer, rhs.str[..rhs.size + 1]);
        str, size := buffer, rhs.size;
      }
    }

    method Resize(n: nat)
      requires Valid()
      modifies this
      ensures Valid() && Contents() == Resized(old(Contents()), n)
      ensures str == old(str) || str == null || fresh(str)
      ensures n != old(size) ==> str == null || fresh(str)
    {
      if size == n { return; }
      if n == 0 {
        str, size := null, 0;
      } else {
        var buffer := new char[n + 1];
        var copySize := Min(size, n);
        if str != null { CopyInto(buffer, str[..copySize + 1]); }
        if copySize < n { Zero(buffer, copySize, n); }
        buffer[n] := NUL;
        size := n;
        str := buffer;
      }
    }
  }

  /** memcpy(dst, src, |src|): in bounds, and nothing else is written. */
  method CopyInto(dst: array<char>, src: seq<char>)
    requires |src| <= dst.Length
    modifies dst
    ensures dst[..|src|] == src && forall i :: |src| <= i < dst.Length ==> dst[i] == old(dst[i])
  {
    for i := 0 to |src|
      invariant dst[..i] == src[..i] && forall k :: i <= k < dst.Length ==> dst[k] == old(dst[k])
    {
      dst[i] := src[i];
    }
  }

  /** memset(dst + from, 0, to - from). */
  method Zero(dst: array<char>, from: nat, to: nat)
    requires from <= to <= dst.Length
    modifies dst
    ensures forall i :: 0 <= i < dst.Length ==> dst[i] == if from <= i < to then NUL else old(dst[i])
  {
    for i := from to to
      invariant forall k :: 0 <= k < dst.Length ==> dst[k] == if from <= k < i then NUL else old(dst[k])
    {
      dst[i] := NUL;
    }
  }

  // ------------------------------------------------- any run of a program's strings

  /** All the strings of a program. They behave as values because no two ever share a buffer. */
  class Program {
    var strings: seq<String>

    ghost predicate Private()
      reads this, strings
    {
      forall i, j :: 0 <= i < j < |strings| ==>
        strings[i] != strings[j] && (strings[i].str != null ==> strings[i].str != strings[j].str)
    }

    ghost predicate Valid()
      reads this, strings, set i | 0 <= i < |strings| :: strings[i].str
    {
      Private() && forall i :: 0 <= i < |strings| ==> strings[i].Valid()
    }

    /** The values the strings hold. */
    ghost predicate Holds(texts: seq<seq<char>>)
      requires Valid()
      reads this, strings, set i | 0 <= i < |strings| :: strings[i].str
    {
      |texts| == |strings| && forall i :: 0 <= i < |texts| ==> strings[i].Contents() == texts[i]
    }

    constructor ()
      ensures Valid() && Holds([])
    {
      strings := [];
    }

    /** A string of its own joins the program. */
    method Join(s: String, ghost text: seq<char>, ghost texts: seq<seq<char>>)
      requires Valid() && Holds(texts) && s.Valid() && s.Contents() == text
      requires forall k :: 0 <= k < |strings| ==> strings[k] != s && (s.str != null ==> strings[k].str != s.str)
      modifies this
      ensures Valid() && Holds(texts + [text])
    {
      strings := strings + [s];
    }

    method Append(source: seq<char>, ghost texts: seq<seq<char>>)
      requires Valid() && Holds(texts)
      modifies this
      ensures Valid() && Holds(texts + [source])
    {
      var s := new String.Sized(Some(source), |source|);
      assert source[..|source|] == source;
      Join(s, source, texts);
    }

    method AppendCopy(j: nat, ghost texts: seq<seq<char>>)
      requires Valid() && Holds(texts) && j < |strings|
      modifies this
      ensures Valid() && Holds(texts + [texts[j]])
    {
      var s := new String.Copy(strings[j]);
      Join(s, texts[j], texts);
    }

    method CopyAssign(i: nat, j: nat, ghost texts: seq<seq<char>>)
      requires Valid() && Holds(texts) && i < |strings| && j < |strings|
      modifies strings
      ensures Valid() && Holds(texts[i := texts[j]])
    {
      strings[i].Assign(strings[j]);
      assert forall k :: 0 <= k < |strings| && k != i ==> strings[k].Valid() && strings[k].Contents() == texts[k];
    }

    method ResizeAt(i: nat, n: nat, ghost texts: seq<seq<char>>)
      requires Valid() && Holds(texts) && i < |strings|
      modifies strings
      ensures Valid() && Holds(texts[i := Resized(texts[i], n)])
    {
      strings[i].Resize(n);
      assert forall k :: 0 <= k < |strings| && k != i ==> strings[k].Valid() && strings[k].Contents() == texts[k];
    }
  }
}
