/** Small shared vocabulary: optional values, outcomes that may fail, and
    the sequence helpers (join with a separator, concatenation) that the
    JavaScript code gets from `Array.prototype.join` and nested loops. */
module Base {

  /** `undefined` versus a present value. */
  datatype Option<+T> = None | Some(value: T)

  /** A computation that either produces a value or throws. */
  datatype Result<+T, +E> = Ok(value: T) | Err(error: E)

  /** `xs.join(sep)`: the elements with `sep` between neighbours; empty for no elements. */
  function Join(xs: seq<string>, sep: string): string
    decreases |xs|
  {
    if |xs| == 0 then ""
    else if |xs| == 1 then xs[0]
    else xs[0] + sep + Join(xs[1..], sep)
  }

  /** All the sequences one after another, in order. */
  function Concat<T>(xss: seq<seq<T>>): seq<T>
    decreases |xss|
  {
    if |xss| == 0 then [] else xss[0] + Concat(xss[1..])
  }
}
