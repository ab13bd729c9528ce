/** The configuration of one run and the faults an update can end in. */
module Config {
  import opened Wrappers

  /** The update strategy; `Tag` is the default when no mode is given. */
  datatype Mode = Tag | Package

  /**
   * The parsed command-line options, handed to every update explicitly. A `None` field is
   * a string option left unset (a null string). The file or folder name is not part of it:
   * enumerating and loading files is outside the model.
   */
  datatype Options = Options(mode: Mode, tag: Option<string>, subtag: Option<string>, value: Option<string>)

  /** Exceptions the program does not catch; each one ends the run. */
  datatype Fault =
    | NullValue    // a text or attribute value setter was handed the unset (null) value
    | NoFirstLine  // the saved file has no lines, so its first line cannot be inspected

  datatype Outcome = Done | Failed(fault: Fault)

  datatype Result<+T> = Ok(value: T) | Err(fault: Fault)

  /** Tag mode writes element text exactly when the sub-tag is null or empty. */
  predicate WritesText(opts: Options)
  {
    opts.subtag == None || opts.subtag == Some("")
  }
}
