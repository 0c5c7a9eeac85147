/** Value types shared by every module of the model. */
module Common {
  datatype Option<+T> = None | Some(value: T)

  /** The source's `Result`: which of several error texts is produced is not modelled. */
  datatype Result<+T> = Ok(value: T) | Err

  type byte = b: int | 0 <= b < 256

  function Min(a: int, b: int): (m: int)
    ensures m <= a && m <= b && (m == a || m == b)
  {
    if a <= b then a else b
  }

  /** `content` with `chunk` written over it from `pos` on. */
  function Overlay(content: seq<byte>, pos: nat, chunk: seq<byte>): (r: seq<byte>)
    requires pos + |chunk| <= |content|
    ensures |r| == |content|
  {
    content[..pos] + chunk + content[pos + |chunk|..]
  }

  /** State `n` of a run comes right after state `k`. */
  predicate Successive(k: int, n: int) { 0 <= k && n == k + 1 }
}
