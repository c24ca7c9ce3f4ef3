/** Result and option types shared by the modules. */
module Wrappers {

  datatype Option<+T> = None | Some(value: T)

  datatype Result<+T, +E> = Ok(value: T) | Err(error: E)
  {
    /** The value, without the reason when there is none. */
    function ToOption(): Option<T> {
      if Ok? then Some(value) else None
    }
  }
}
