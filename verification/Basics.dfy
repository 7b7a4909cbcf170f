/** What several modules share: optional values, OpenCL handles and the counts kept on them. */
module Basics {

  datatype Option<+T> = None | Some(value: T)

  /** A handle of an OpenCL object. */
  type Handle = nat

  /** The reference count of h; zero for an object that was never created. */
  function Count(counts: map<Handle, nat>, h: Handle): nat {
    if h in counts then counts[h] else 0
  }

  function Min(a: nat, b: nat): nat { if a < b then a else b }
}
