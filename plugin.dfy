/**
  The plugin contract the dispatcher relies on: the kind of message a plugin
  answers, and the dictionary its `run` returns.
*/
module Plugin {
  import opened Wrappers

  /** `'active'` (the bot is addressed) or `'passive'` (overheard). */
  datatype Kind = Active | Passive

  /** The result dictionary: `matched`, and the keys `output`, `direct` and
      `file` when present (`direct` counts by presence, whatever its value). */
  datatype Result = Result(matched: int, output: Option<string>, direct: bool, file: Option<string>)

  /** `{'matched': 0}` */
  const NoMatch: Result := Result(0, None, false, None)
}
