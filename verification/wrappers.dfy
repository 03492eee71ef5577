/** The optional value used wherever the tool may or may not obtain something:
    a capture time in the image metadata, a file modification time, a menu choice. */
module Wrappers {

  datatype Option<+T> = None | Some(value: T)
}
