/** Shared value types. */
module Common {

  datatype Option<+T> = None | Some(value: T)

  // Whatever `a` holds, or else what `b` holds.
  function OrElse<T>(a: Option<T>, b: Option<T>): Option<T> {
    if a.Some? then a else b
  }

  lemma Regroup<T>(a: seq<T>, b: seq<T>, c: seq<T>)
    ensures a + (b + c) == a + b + c
  {
  }
}
