/** The optional value used where a Python operation may raise instead of returning. */
module Opcion {
  datatype Option<+T> = None | Some(value: T)
}
