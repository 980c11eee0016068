/** Sequence operations that several modules share. */
module Sequences {
  /** A sequence without its `k`th element. */
  function Without<T>(s: seq<T>, k: nat): (r: seq<T>)
    requires k < |s|
  {
    s[..k] + s[k + 1..]
  }
}
