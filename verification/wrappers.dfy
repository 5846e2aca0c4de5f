/** The failure-signalling value shared by the oracle reply and the JSON decoder. */
module Wrappers {

  /** `None` stands for Python's `None`: no reply from the model, or a parse that raised. */
  datatype Option<+T> = None | Some(value: T)
}
