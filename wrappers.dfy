/** An optional value: what `md2mp3.py` expresses by returning `None` on
    failure. */
module Wrappers {
  datatype Option<+T> = None | Some(value: T)
}
