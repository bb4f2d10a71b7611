/** What the other modules share: bytes, optional values, and sequences with one element more or
    less. */
module Basics {

  type Byte = x: nat | x < 0x100

  datatype Option<+T> = None | Some(value: T)

  /** s with x inserted before position k. */
  function With<T>(s: seq<T>, k: nat, x: T): seq<T>
    requires k <= |s|
  {
    s[..k] + [x] + s[k..]
  }

  /** s without the element at position k. */
  function Without<T>(s: seq<T>, k: nat): seq<T>
    requires k < |s|
  {
    s[..k] + s[k + 1..]
  }
}
