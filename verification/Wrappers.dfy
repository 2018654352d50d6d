/** Values that may be missing: an expiry that is not set, an environment variable that is not
    there, a date that cannot be read, a download that came to nothing. */
module Wrappers {

  datatype Option<+T> = None | Some(value: T)
}
