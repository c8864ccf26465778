/** Values shared by the three components: optional values, the outcome of
    an awaited API call, and the toast notices the handlers raise. */
module Common {

  datatype Option<+T> = None | Some(value: T)

  /** The outcome of an awaited `api.get`/`api.post`/`api.delete` call.
      `Failed` is a rejected promise (network error or error status), which
      the handlers catch; `Replied` carries the `success` flag of the JSON
      body and the payload the handler reads from it. */
  datatype Response<+T> = Failed | Replied(success: bool, data: T)

  datatype Level = SuccessLevel | InfoLevel | WarningLevel | ErrorLevel

  /** A toast: its title and its status. */
  datatype Notice = Notice(title: string, level: Level)

  /** JavaScript truthiness of a string that may be `undefined`/`null`. */
  predicate Truthy(s: Option<string>)
  {
    s.Some? && s.value != ""
  }
}
