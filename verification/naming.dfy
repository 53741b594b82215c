/** Global references (`naming::id_type`) as plain integers. The model never
    looks inside a reference; it only compares references and tells the
    reserved invalid one apart from the rest. */
module Naming {

  type Id = nat

  /** `naming::invalid_id`: the "unset" reference. */
  const Invalid: Id := 0

  /** What `HPX_THROW_EXCEPTION` reports in `stencil_value`. */
  datatype Error = BadParameter

  /** An operation that either succeeds with a value or throws. */
  datatype Result<+T> = Ok(value: T) | Err(error: Error)

  datatype Option<+T> = None | Some(value: T)
}
