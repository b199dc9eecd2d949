/** Failure values for the adapter: each constructor of `Error` stands for one
    accessor of the Kotlin adapter that can throw while it reads a response
    (`NotAnObject` also for a body that does not decode as an object), and
    `Result` replaces the throw by an explicit failure value. */
module Results {

  datatype Option<+T> = None | Some(value: T)

  datatype Error =
    | NotAnObject                            // `.jsonObject`, or decoding the body as a `JsonObject`
    | NotAnArray                             // `.jsonArray` on something else
    | NotAPrimitive                          // `.jsonPrimitive` on an array or an object
    | MissingKey(key: string)                // `!!` on the absent value of `object[key]`
    | IndexOutOfBounds(index: nat, size: nat) // `list[index]` past the end

  datatype Result<+T> = Ok(value: T) | Err(error: Error) {

    predicate IsFailure() {
      Err?
    }

    function PropagateFailure<U>(): Result<U>
      requires Err?
    {
      Err(error)
    }

    function Extract(): T
      requires Ok?
    {
      value
    }
  }

  /** Kotlin's `map` over a list with a lambda that may throw: either every
      element is converted, in order, or the first failing element's error is
      the outcome. */
  function MapAll<A, B>(f: A -> Result<B>, xs: seq<A>): (r: Result<seq<B>>)
    ensures r.Ok? <==> forall i :: 0 <= i < |xs| ==> f(xs[i]).Ok?
    ensures r.Ok? ==> |r.value| == |xs| && forall i :: 0 <= i < |xs| ==> r.value[i] == f(xs[i]).value
    ensures r.Err? ==>
      exists i :: 0 <= i < |xs| && f(xs[i]).Err? && r.error == f(xs[i]).error &&
        forall k :: 0 <= k < i ==> f(xs[k]).Ok?
    decreases |xs|
  {
    if xs == [] then Ok([])
    else
      var head :- f(xs[0]);
      var tail :- MapAll(f, xs[1..]);
      Ok([head] + tail)
  }
}
