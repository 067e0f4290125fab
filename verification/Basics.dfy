/** What several components share. */
module Basics {

  datatype Option<T> = None | Some(value: T)

  /** A Dart port; the virtual machine hands out positive numbers, and 0 stands for no port. */
  type Port = nat
}
