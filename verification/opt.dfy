/** The optional value used wherever the Java code keeps a reference that may be null. */
module Opt {

  datatype Option<+T> = None | Some(value: T)
}
