/** Option and Result values shared by the other modules. A `Result` failure
    carries the `message` of the JavaScript `Error` it stands for. */
module Wrappers {

  datatype Option<+T> = None | Some(value: T)

  datatype Result<+T> = Ok(value: T) | Err(message: string)
}
