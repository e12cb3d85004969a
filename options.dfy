/** An optional value: the model's stand-in for JavaScript's `undefined`/`null`
    results and for Python's raised exceptions. */
module Options {

  datatype Option<+T> = None | Some(value: T)

}
