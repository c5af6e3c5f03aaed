/** Shared wrapper types: Python's `None`-or-value and its "truthiness". */
module Base {

  /** A value that may be absent, as an optional field of a Python dict or a `None` argument. */
  datatype Option<+T> = None | Some(value: T) {

    /** The wrapped value, or `default` when absent (Python's `d.get(k, default)`). */
    function GetOr(default: T): T
    {
      match this
      case Some(v) => v
      case None => default
    }
  }

  /** Python's `x or fallback` for an optional number: `None` and zero are falsy. */
  function OrElse(x: Option<real>, fallback: real): (r: real)
    ensures x.Some? && x.value != 0.0 ==> r == x.value
    ensures (x.None? || x.value == 0.0) ==> r == fallback
  {
    if x.Some? && x.value != 0.0 then x.value else fallback
  }

  /** Python truthiness of an optional number: present and non-zero. */
  predicate Truthy(x: Option<real>)
  {
    x.Some? && x.value != 0.0
  }

  /** Concatenation regroups freely; stated once so that large contexts need not rediscover it. */
  lemma ConcatAssoc<T>(a: seq<T>, b: seq<T>, c: seq<T>)
    ensures a + (b + c) == a + b + c
  {
  }
}
