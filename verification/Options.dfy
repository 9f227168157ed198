/** The usual "value or nothing", used for empty slots, absent timers and blocked steps. */
module Options {
  datatype Option<+T> = None | Some(value: T)
}
