/** Shared value types. */
module Prelude {

  datatype Option<+T> = None | Some(value: T)

  datatype Result<+T, +E> = Ok(value: T) | Err(error: E)

  newtype byte = x: int | 0 <= x < 256

  lemma Associate<T>(a: seq<T>, b: seq<T>, c: seq<T>)
    ensures a + b + c == a + (b + c)
  {
  }

  /** Equal concatenations of equally long beginnings have equal parts. */
  lemma SplitAlike<T>(a: seq<T>, b: seq<T>, r: seq<T>, t: seq<T>)
    requires |a| == |b| && a + r == b + t
    ensures a == b && r == t
  {
    assert (a + r)[..|a|] == a && (b + t)[..|b|] == b;
    assert (a + r)[|a|..] == r && (b + t)[|b|..] == t;
  }
}
