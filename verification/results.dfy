/** Failure-carrying values shared by every service.  The Python services
    return `(data, success, error)` triples; here a success carries the data
    and a failure carries a typed error instead of a message string. */
module Results {

  datatype Option<+T> = None | Some(value: T)

  datatype Result<+T, +E> = Ok(value: T) | Err(error: E)
}
