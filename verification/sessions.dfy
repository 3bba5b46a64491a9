/** The records of types.ts and the two payloads App.tsx accepts from the session log.
    Times are milliseconds since the epoch; ids are opaque strings. */
module Sessions {
  import opened Options
  import opened Durations

  /** A student who is signed in and has not yet signed out. */
  datatype ActiveSession = ActiveSession(id: string, studentName: string, level: int, timeIn: int)

  /** A finished visit; `notes` is absent until someone writes one. */
  datatype CompletedSession = CompletedSession(
    id: string, studentName: string, level: int, timeIn: int, timeOut: int,
    duration: Duration, notes: Option<string>)

  /** `SessionUpdateData` of App.tsx: the edited fields of an existing completed session. */
  datatype SessionUpdate = SessionUpdate(
    id: string, studentName: string, level: int, timeIn: int, timeOut: int, notes: Option<string>)

  /** `NewSessionData` of App.tsx: a session entered by hand. */
  datatype NewSession = NewSession(
    studentName: string, level: int, timeIn: int, timeOut: int, notes: Option<string>)

  /** A session's duration in seconds, as every total adds it up. */
  function SessionSeconds(s: CompletedSession): int
  {
    ToSeconds(s.duration)
  }
}
