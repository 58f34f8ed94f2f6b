/** The JavaScript values the library receives and returns, made explicit.
    Dynamic typing becomes tagged inputs: an argument that should be an array,
    a function or a selector may be something else, and the guards reject it. */
module Values {

  /** A present value or JavaScript's `undefined`. */
  datatype Option<T> = None | Some(value: T)

  /** A sort key read from an element; `None` is `undefined` (a missing field). */
  type Key = Option<int>

  /** An element to be sorted: a plain object whose fields hold integers. */
  type Record = map<string, int>

  /** Property access `x[name]`: `undefined` when the object has no such field. */
  function Field(x: Record, name: string): Key {
    if name in x then Some(x[name]) else None
  }

  /** JavaScript's `<` on two keys: `undefined` is neither below nor above anything. */
  predicate KeyLess(a: Key, b: Key) {
    a.Some? && b.Some? && a.value < b.value
  }

  /** The exceptions the library raises, as variants (their message text is not modelled).
      TypeError is the host's own error for `undefined.push(...)` and `[...undefined]`. */
  datatype Error =
    | NotAnArray        // "Argument is not an array"
    | NotAFunction      // "Argument is not a function"
    | NotASelector      // "Selectors must be a string or a function"
    | NoComparators     // "Must provide at least one comparator"
    | TypeError

  datatype Result<R> = Ok(value: R) | Err(error: Error)

  /** The outcome of a guard that returns nothing or throws. */
  datatype Check = Pass | Fail(error: Error)

  /** A value passed where an array is expected. */
  datatype ArrayArg<A> = IsArray(elements: A) | NotArray

  /** A value passed where a function is expected. */
  datatype FnArg<F> = IsFunction(fn: F) | NotFunction

  /** A list of functions, seen as the JavaScript array of function values it is. */
  function AsFunctionArgs<F>(fs: seq<F>): (args: seq<FnArg<F>>)
    ensures |args| == |fs|
    ensures forall i :: 0 <= i < |fs| ==> args[i] == IsFunction(fs[i])
  {
    seq(|fs|, i requires 0 <= i < |fs| => IsFunction(fs[i]))
  }

  /** A value passed where a field selector is expected: a key function,
      a string naming one field, or anything else. */
  datatype SelectorArg = KeyFunction(key: Record -> Key) | FieldName(name: string) | NotSelector
}
