/** Option and Result, used for JavaScript `null`/`undefined`, Python `None`
    and for the error paths of the backend and of collaborator calls. */
module Common {

  datatype Option<+T> = None | Some(value: T)

  datatype Result<+T, +E> = Ok(value: T) | Err(error: E)

  /** Replaces the error of a failed result and keeps a successful one. */
  function MapErr<T, E, F>(r: Result<T, E>, f: E -> F): (m: Result<T, F>)
    ensures m.Ok? <==> r.Ok?
    ensures r.Ok? ==> m.value == r.value
    ensures r.Err? ==> m.error == f(r.error)
  {
    match r
    case Ok(v) => Ok(v)
    case Err(e) => Err(f(e))
  }
}
