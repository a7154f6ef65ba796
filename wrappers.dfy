/** Optional values and the Python exceptions the converter can raise, as values. */
module Wrappers {

  datatype Option<+T> = None | Some(value: T)

  /** The exceptions that escape the conversion and abort a whole run. */
  datatype Error =
    | ValueError      // datetime.strptime rejects a date string
    | IndexError      // files[0] on an empty folder, or obj_i_dpts[1] on a name without '_'
    | AttributeError  // .getText() called on the None of a failed find

  datatype Result<+T> = Ok(value: T) | Err(error: Error) {

    predicate IsFailure() {
      Err?
    }

    function PropagateFailure<U>(): Result<U>
      requires Err?
    {
      Err(error)
    }

    function Extract(): T
      requires Ok?
    {
      value
    }
  }

  function Get<K, V>(m: map<K, V>, k: K): Option<V>
  {
    if k in m then Some(m[k]) else None
  }
}
