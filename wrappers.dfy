/** The optional values of the model: a chunk whose delta content may be
    absent, a tokenizer that may have failed to load, a timestamp not yet set. */
module Wrappers {

  datatype Option<+T> = None | Some(value: T)
}
