/** The optional value used wherever the server may have "nothing": no
    `file` part in an upload form, no MIME type guessed for a name. */
module Wrappers {

  datatype Option<+T> = None | Some(value: T)
}
