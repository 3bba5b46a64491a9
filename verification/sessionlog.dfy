/** The session log of components/SessionLog.tsx: the four filters over the completed sessions,
    the total time of what they keep, the CSV and PDF exports of the kept sessions, and the
    checks the add and edit dialogs run before they hand a session to the store.
    Calendar dates are given as the millisecond bounds of their day (`setHours(0, 0, 0, 0)` of
    the start date, `setHours(23, 59, 59, 999)` of the end date); `toLocaleString` is a
    parameter `locale` from milliseconds to text. */
module SessionLog {
  import opened Options
  import opened Text
  import opened Seqs
  import opened Durations
  import opened Sessions
  import opened Csv
  import opened Store

  // The filters: `searchQuery`, `startDate`, `endDate`, `levelFilter`.

  /** The filter inputs; an empty date or level input is `None`. */
  datatype Filters = Filters(query: string, dayStart: Option<int>, dayEnd: Option<int>,
    level: Option<int>)

  /** What `handleClearFilters` sets and what the log opens with. */
  const NoFilters := Filters("", None, None, None)

  /** `areFiltersActive`. */
  predicate AreFiltersActive(f: Filters)
  {
    f.query != "" || f.dayStart.Some? || f.dayEnd.Some? || f.level.Some?
  }

  /** The filters are active exactly when they differ from the cleared ones; clearing turns
      them off. */
  lemma FiltersActiveUnlessCleared(f: Filters)
    ensures AreFiltersActive(f) <==> f != NoFilters
    ensures !AreFiltersActive(NoFilters)
  {
  }

  /** The `dateMatch` flag: it starts true and each bound that is set may turn it false. */
  function DateMatch(f: Filters, timeIn: int): bool
  {
    var afterStart := if f.dayStart.Some? && timeIn < f.dayStart.value then false else true;
    if f.dayEnd.Some? && timeIn > f.dayEnd.value then false else afterStart
  }

  /** The predicate of `filteredSessions`: the name test, then the level test, then the dates. */
  function Keep(f: Filters): CompletedSession -> bool
  {
    (s: CompletedSession) =>
      if !Contains(ToLower(s.studentName), ToLower(f.query)) then false
      else if !(f.level.None? || s.level == f.level.value) then false
      else DateMatch(f, s.timeIn)
  }

  /** `filteredSessions`. */
  function FilteredSessions(sessions: seq<CompletedSession>, f: Filters): seq<CompletedSession>
  {
    Filter(sessions, Keep(f))
  }

  /** The kept sessions are the sessions, in their order, whose lower-cased name contains the
      lower-cased query, whose level is the chosen one when one is chosen, and whose time-in
      lies in the chosen days, both ends included. */
  lemma FilteredSessionsExact(sessions: seq<CompletedSession>, f: Filters)
    ensures var r := FilteredSessions(sessions, f);
      && IsSubsequence(r, sessions)
      && forall s :: s in r <==> (s in sessions
        && Contains(ToLower(s.studentName), ToLower(f.query))
        && (f.level.Some? ==> s.level == f.level.value)
        && (f.dayStart.Some? ==> f.dayStart.value <= s.timeIn)
        && (f.dayEnd.Some? ==> s.timeIn <= f.dayEnd.value))
  {
    FilterIsSubsequence(sessions, Keep(f));
  }

  /** With every filter cleared the log shows every session, in order. */
  lemma NoFiltersKeepAll(sessions: seq<CompletedSession>)
    ensures FilteredSessions(sessions, NoFilters) == sessions
  {
    assert ToLower("") == "";
    forall i | 0 <= i < |sessions| ensures Keep(NoFilters)(sessions[i]) {
      ContainsEmpty(ToLower(sessions[i].studentName));
      assert DateMatch(NoFilters, sessions[i].timeIn);
    }
    FilterAllPass(sessions, Keep(NoFilters));
  }

  /** Filtering what the filters kept keeps it all. */
  lemma FilteringTwice(sessions: seq<CompletedSession>, f: Filters)
    ensures FilteredSessions(FilteredSessions(sessions, f), f) == FilteredSessions(sessions, f)
  {
    FilterIdempotent(sessions, Keep(f));
  }

  // The total under the table: `totalDuration`.

  /** `totalDuration`: the durations of the kept sessions added up in seconds and split as
      everywhere else in the app. */
  function TotalDuration(filtered: seq<CompletedSession>): Duration
  {
    Decompose(Sum(filtered, SessionSeconds))
  }

  /** When the kept durations add up to a non-negative number, the total shows that number of
      seconds, with minutes and seconds below 60. */
  lemma TotalDurationAddsUp(filtered: seq<CompletedSession>)
    requires Sum(filtered, SessionSeconds) >= 0
    ensures var d := TotalDuration(filtered);
      && ToSeconds(d) == Sum(filtered, SessionSeconds)
      && d.hours >= 0 && 0 <= d.minutes < 60 && 0 <= d.seconds < 60
  {
    DecomposeCanonical(Sum(filtered, SessionSeconds));
  }

  /** When no duration is negative, the total of the kept sessions lies between zero and the
      total of the whole log. */
  lemma {:induction false} FilteredTotalBounded(sessions: seq<CompletedSession>, p: CompletedSession -> bool)
    requires forall i :: 0 <= i < |sessions| ==> SessionSeconds(sessions[i]) >= 0
    ensures 0 <= Sum(Filter(sessions, p), SessionSeconds) <= Sum(sessions, SessionSeconds)
  {
    if sessions != [] {
      FilteredTotalBounded(sessions[1..], p);
      assert sessions == [sessions[0]] + sessions[1..];
      if p(sessions[0]) {
        assert Filter(sessions, p) == [sessions[0]] + Filter(sessions[1..], p);
      } else {
        assert Filter(sessions, p) == Filter(sessions[1..], p);
      }
    }
  }

  // The CSV export: `handleExportCSV`.

  const LogHeader := "Student Name,Level,Time In,Time Out,Duration (HH:MM:SS),Notes"

  /** The six fields of one session: the escaped name, the level, the two times as locale text
      in quotes, the zero-padded duration and the escaped notes. */
  function LogFields(s: CompletedSession, locale: int -> string): seq<string>
  {
    [EscapeCsv(Some(s.studentName)), IntToString(s.level), "\"" + locale(s.timeIn) + "\"",
     "\"" + locale(s.timeOut) + "\"", ClockText(s.duration), EscapeCsv(s.notes)]
  }

  function LogLines(filtered: seq<CompletedSession>, locale: int -> string): (r: seq<string>)
    ensures |r| == |filtered|
    ensures forall i :: 0 <= i < |r| ==> r[i] == Join(LogFields(filtered[i], locale), ",")
  {
    seq(|filtered|, i requires 0 <= i < |filtered| => Join(LogFields(filtered[i], locale), ","))
  }

  /** The file's text, or `None` for "No data to export.". */
  function LogCsv(filtered: seq<CompletedSession>, locale: int -> string): Option<string>
  {
    if filtered == [] then None else Some(Join([LogHeader] + LogLines(filtered, locale), "\n"))
  }

  /** Nothing is exported when no session is kept; otherwise the header line comes first and
      then one line per kept session, in the order shown. */
  lemma LogCsvShape(filtered: seq<CompletedSession>, locale: int -> string)
    ensures LogCsv(filtered, locale).None? <==> filtered == []
    ensures filtered != [] ==>
      LogCsv(filtered, locale).value == LogHeader + "\n" + Join(LogLines(filtered, locale), "\n")
  {
    if filtered != [] { JoinCons(LogHeader, LogLines(filtered, locale), "\n"); }
  }

  /** A session's fields read back as its name and its notes (empty when it has none); for a
      canonical duration the duration field is the clock text of the session's seconds. */
  lemma LogFieldsReadBack(s: CompletedSession, locale: int -> string)
    ensures var f := LogFields(s, locale);
      && |f| == 6
      && ReadField(f[0]) == s.studentName
      && ReadField(f[5]) == (if s.notes.Some? then s.notes.value else "")
      && (s.duration.hours >= 0 && 0 <= s.duration.minutes < 60 && 0 <= s.duration.seconds < 60
          ==> f[4] == SecondsToClock(SessionSeconds(s)))
  {
    EscapeCsvRoundTrip(s.studentName);
    if s.notes.Some? { EscapeCsvRoundTrip(s.notes.value); } else { EscapeCsvRoundTrip(""); }
    if s.duration.hours >= 0 && 0 <= s.duration.minutes < 60 && 0 <= s.duration.seconds < 60 {
      DecomposeRoundTrip(s.duration);
    }
  }

  // The PDF export: the `body` rows handed to the table renderer.

  /** `session.notes || 'N/A'`. */
  function NotesCell(notes: Option<string>): (r: string)
    ensures r == "N/A" <==> notes.None? || notes.value == "" || notes.value == "N/A"
    ensures r != "N/A" ==> notes == Some(r)
  {
    if notes.None? || notes.value == "" then "N/A" else notes.value
  }

  function PdfRow(s: CompletedSession, locale: int -> string): seq<string>
  {
    [s.studentName, IntToString(s.level), locale(s.timeIn), locale(s.timeOut),
     ClockText(s.duration), NotesCell(s.notes)]
  }

  /** `body`, or `None` for "No data to export.". */
  function PdfBody(filtered: seq<CompletedSession>, locale: int -> string)
    : (r: Option<seq<seq<string>>>)
    ensures r.None? <==> filtered == []
    ensures r.Some? ==> |r.value| == |filtered|
    ensures r.Some? ==> forall i :: 0 <= i < |filtered| ==> (|r.value[i]| == 6
      && r.value[i][0] == filtered[i].studentName
      && r.value[i][4] == ClockText(filtered[i].duration)
      && (r.value[i][5] == "N/A" <==> filtered[i].notes.None? || filtered[i].notes.value in {"", "N/A"}))
  {
    if filtered == [] then None
    else Some(seq(|filtered|, i requires 0 <= i < |filtered| => PdfRow(filtered[i], locale)))
  }

  // The add and edit dialogs: `handleSave`.

  /** A dialog's save: the payload handed to `onSave`, or the message shown instead. */
  datatype Saved<T> = Accepted(payload: T) | Refused(message: string)

  const BlankNameMessage := "Student name cannot be empty."
  const TimeOrderMessage := "Validation failed: Time In must be earlier than Time Out."

  /** The two checks both dialogs run, name first. */
  function SaveCheck(name: string, timeIn: int, timeOut: int): (r: Option<string>)
    ensures r == Some(BlankNameMessage) <==> Trim(name) == ""
    ensures r == Some(TimeOrderMessage) <==> Trim(name) != "" && timeIn >= timeOut
    ensures r.None? <==> Trim(name) != "" && timeIn < timeOut
  {
    if Trim(name) == "" then Some(BlankNameMessage)
    else if timeIn >= timeOut then Some(TimeOrderMessage)
    else None
  }

  /** `handleSave` of the add dialog: the name and the notes go out trimmed. */
  function SaveNew(name: string, level: int, timeIn: int, timeOut: int, notes: string)
    : (r: Saved<NewSession>)
    ensures r.Accepted? <==> Trim(name) != "" && timeIn < timeOut
    ensures r.Accepted? ==> r.payload == NewSession(Trim(name), level, timeIn, timeOut, Some(Trim(notes)))
  {
    var check := SaveCheck(name, timeIn, timeOut);
    if check.Some? then Refused(check.value)
    else Accepted(NewSession(Trim(name), level, timeIn, timeOut, Some(Trim(notes))))
  }

  /** `handleSave` of the edit dialog: as for a new session, with the edited session's id. */
  function SaveEdit(session: CompletedSession, name: string, level: int, timeIn: int,
      timeOut: int, notes: string): (r: Saved<SessionUpdate>)
    ensures r.Accepted? <==> Trim(name) != "" && timeIn < timeOut
    ensures r.Accepted? ==>
      r.payload == SessionUpdate(session.id, Trim(name), level, timeIn, timeOut, Some(Trim(notes)))
  {
    var check := SaveCheck(name, timeIn, timeOut);
    if check.Some? then Refused(check.value)
    else Accepted(SessionUpdate(session.id, Trim(name), level, timeIn, timeOut, Some(Trim(notes))))
  }

  /** A session the add dialog accepts is one the store accepts too, and it enters the log
      under a name that is not blank. */
  lemma SavedNewIsLogged(completed: seq<CompletedSession>, name: string, level: int,
      timeIn: int, timeOut: int, notes: string, id: string)
    requires SaveNew(name, level, timeIn, timeOut, notes).Accepted?
    ensures var n := SaveNew(name, level, timeIn, timeOut, notes).payload;
      && AddToLog(completed, n, id).Some?
      && NewRecord(n, id) in AddToLog(completed, n, id).value
      && NewRecord(n, id).studentName == Trim(name) != ""
  {
    var n := SaveNew(name, level, timeIn, timeOut, notes).payload;
    TrimIdempotent(name);
    assert NewRecord(n, id) in multiset(AddToLog(completed, n, id).value);
  }

  /** An edit the dialog accepts rewrites every session with the edited id, and only those,
      with the trimmed, non-blank name, the new level, times and notes. */
  lemma SavedEditIsLogged(completed: seq<CompletedSession>, session: CompletedSession,
      name: string, level: int, timeIn: int, timeOut: int, notes: string)
    requires SaveEdit(session, name, level, timeIn, timeOut, notes).Accepted?
    ensures var r := UpdateLog(completed, SaveEdit(session, name, level, timeIn, timeOut, notes).payload);
      && |r| == |completed|
      && forall i :: 0 <= i < |r| ==>
        if completed[i].id == session.id then
          r[i].studentName == Trim(name) != "" && r[i].level == level
          && r[i].timeIn == timeIn && r[i].timeOut == timeOut && r[i].notes == Some(Trim(notes))
        else r[i] == completed[i]
  {
  }
}
