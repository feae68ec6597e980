/** Small value types shared by the three components: optional values and
    the abstract outcome of a request to the REST backend. */
module Common {

  /** A value that may be absent (`null` / `undefined` in the UI code). */
  datatype Option<+T> = None | Some(value: T)

  /** Outcome of a request whose body the component does not read:
      a response with `ok`, a response without `ok`, or an exception. */
  datatype Response = Ok | NotOk | Threw

  /** Outcome of a GET whose JSON body the component keeps. */
  datatype FetchResult<+T> = Fetched(data: T) | FetchNotOk | FetchThrew
}
