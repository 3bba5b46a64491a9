/** The list of signed-in students of components/CurrentSessions.tsx: the search box, the sort
    by name or by time-in with its tie-breaks, the header click that picks the sort, and the
    running clock each row shows. Names are compared as `localeCompare` with base sensitivity
    compares them, taken here as the order of their lower-cased forms. */
module CurrentSessions {
  import opened Text
  import opened Seqs
  import opened Durations
  import opened Sessions

  // The sort: `sortConfig`, `requestSort`.

  datatype ActiveKey = ByStudentName | ByTimeIn

  datatype ActiveSort = ActiveSort(key: ActiveKey, ascending: bool)

  /** The list opens sorted by time-in, earliest first. */
  const DefaultActiveSort := ActiveSort(ByTimeIn, true)

  /** `requestSort`: a click on the column already sorted ascending turns it descending; any
      other click sorts that column ascending. */
  function RequestSort(cfg: ActiveSort, key: ActiveKey): (r: ActiveSort)
    ensures r.key == key
    ensures r.ascending <==> !(cfg.key == key && cfg.ascending)
  {
    var direction := if cfg.key == key && cfg.ascending then false else true;
    ActiveSort(key, direction)
  }

  /** From the opening sort, a click on the time-in column turns it descending and a click on
      the name column sorts by name ascending. */
  lemma FirstClicks()
    ensures RequestSort(DefaultActiveSort, ByTimeIn) == ActiveSort(ByTimeIn, false)
    ensures RequestSort(DefaultActiveSort, ByStudentName) == ActiveSort(ByStudentName, true)
  {
  }

  /** `a.localeCompare(b, undefined, { sensitivity: 'base' })`, as -1, 0 or 1. */
  function NameCompare(a: string, b: string): int
  {
    if LexLess(ToLower(a), ToLower(b)) then -1
    else if LexLess(ToLower(b), ToLower(a)) then 1
    else 0
  }

  /** The comparator of `filteredAndSortedSessions`. By name: the name order times the
      direction, and for equal names the earlier time-in first. By time-in: the time
      difference times the direction, and for equal times the name order. */
  function Compare(cfg: ActiveSort, a: ActiveSession, b: ActiveSession): int
  {
    var order := if cfg.ascending then 1 else -1;
    match cfg.key
    case ByStudentName =>
      var nameComparison := NameCompare(a.studentName, b.studentName);
      if nameComparison != 0 then nameComparison * order else a.timeIn - b.timeIn
    case ByTimeIn =>
      var timeComparison := a.timeIn - b.timeIn;
      if timeComparison != 0 then timeComparison * order
      else NameCompare(a.studentName, b.studentName)
  }

  /** The comparator read as "may precede", as a stable sort reads it. */
  function Le(cfg: ActiveSort): (ActiveSession, ActiveSession) -> bool
  {
    (a: ActiveSession, b: ActiveSession) => Compare(cfg, a, b) <= 0
  }

  /** The intended order, stated without the comparator. By name: names in the chosen direction,
      ignoring case, and equal names earliest first even when descending. By time-in: times in
      the chosen direction, and equal times by name, A before B, even when descending. */
  predicate InOrder(cfg: ActiveSort, a: ActiveSession, b: ActiveSession)
  {
    var na, nb := ToLower(a.studentName), ToLower(b.studentName);
    match cfg.key
    case ByStudentName =>
      if na == nb then a.timeIn <= b.timeIn
      else if cfg.ascending then LexLess(na, nb) else LexLess(nb, na)
    case ByTimeIn =>
      if a.timeIn == b.timeIn then !LexLess(nb, na)
      else if cfg.ascending then a.timeIn < b.timeIn else b.timeIn < a.timeIn
  }

  lemma NameCompareMeaning(a: string, b: string)
    ensures var na, nb := ToLower(a), ToLower(b);
      && (NameCompare(a, b) == 0 <==> na == nb)
      && (NameCompare(a, b) < 0 <==> LexLess(na, nb))
      && (NameCompare(a, b) > 0 <==> LexLess(nb, na))
      && NameCompare(a, b) == -NameCompare(b, a)
  {
    var na, nb := ToLower(a), ToLower(b);
    LexLessTotal(na, nb);
    LexLessIrreflexive(na);
    if LexLess(na, nb) { LexLessAsymmetric(na, nb); }
    if LexLess(nb, na) { LexLessAsymmetric(nb, na); }
  }

  /** The comparator says "may precede" exactly when the sessions are in the intended order. */
  lemma CompareMeaning(cfg: ActiveSort, a: ActiveSession, b: ActiveSession)
    ensures Compare(cfg, a, b) <= 0 <==> InOrder(cfg, a, b)
  {
    NameCompareMeaning(a.studentName, b.studentName);
  }

  /** Swapping the sessions flips the comparator's sign. */
  lemma CompareAntisymmetric(cfg: ActiveSort, a: ActiveSession, b: ActiveSession)
    ensures Compare(cfg, a, b) == -Compare(cfg, b, a)
  {
    NameCompareMeaning(a.studentName, b.studentName);
  }

  lemma InOrderTransitive(cfg: ActiveSort, a: ActiveSession, b: ActiveSession, c: ActiveSession)
    requires InOrder(cfg, a, b) && InOrder(cfg, b, c)
    ensures InOrder(cfg, a, c)
  {
    var na, nb, nc := ToLower(a.studentName), ToLower(b.studentName), ToLower(c.studentName);
    match cfg.key
    case ByStudentName =>
      if na != nb && nb != nc {
        if cfg.ascending { LexLessTransitive(na, nb, nc); } else { LexLessTransitive(nc, nb, na); }
      }
      if na == nc && na != nb {
        if cfg.ascending { LexLessAsymmetric(na, nb); } else { LexLessAsymmetric(nb, na); }
      }
    case ByTimeIn =>
      if a.timeIn == b.timeIn && b.timeIn == c.timeIn {
        NotLexLessTransitive(na, nb, nc);
      }
  }

  /** Whatever the column and direction, the comparator is a total preorder, so the sort is
      well defined. */
  lemma LeIsTotalPreorder(cfg: ActiveSort)
    ensures TotalPreorder(Le(cfg))
  {
    forall a, b ensures Le(cfg)(a, b) || Le(cfg)(b, a) {
      CompareAntisymmetric(cfg, a, b);
    }
    forall a, b, c | Le(cfg)(a, b) && Le(cfg)(b, c) ensures Le(cfg)(a, c) {
      CompareMeaning(cfg, a, b);
      CompareMeaning(cfg, b, c);
      InOrderTransitive(cfg, a, b, c);
      CompareMeaning(cfg, a, c);
    }
  }

  // The search box and the sorted list: `filteredAndSortedSessions`.

  /** `session.studentName.toLowerCase().includes(searchQuery.toLowerCase())`. */
  function Matches(query: string): ActiveSession -> bool
  {
    (s: ActiveSession) => Contains(ToLower(s.studentName), ToLower(query))
  }

  /** `filteredAndSortedSessions`. */
  function ShownSessions(sessions: seq<ActiveSession>, cfg: ActiveSort, query: string)
    : seq<ActiveSession>
  {
    Sort(Filter(sessions, Matches(query)), Le(cfg))
  }

  /** The rows shown are exactly the sessions whose name contains the query, ignoring case,
      each as often as it occurs, in the intended order. */
  lemma ShownSessionsExact(sessions: seq<ActiveSession>, cfg: ActiveSort, query: string)
    ensures var r := ShownSessions(sessions, cfg, query);
      && multiset(r) == multiset(Filter(sessions, Matches(query)))
      && (forall s :: s in r <==> s in sessions && Contains(ToLower(s.studentName), ToLower(query)))
      && (forall i, j :: 0 <= i < j < |r| ==> InOrder(cfg, r[i], r[j]))
  {
    var r := ShownSessions(sessions, cfg, query);
    LeIsTotalPreorder(cfg);
    SortSorted(Filter(sessions, Matches(query)), Le(cfg));
    forall i, j | 0 <= i < j < |r| ensures InOrder(cfg, r[i], r[j]) {
      CompareMeaning(cfg, r[i], r[j]);
    }
    forall s ensures s in r <==> s in Filter(sessions, Matches(query)) {
      assert s in r <==> s in multiset(r);
    }
  }

  /** With the search box empty every signed-in student is listed. */
  lemma EmptySearchShowsAll(sessions: seq<ActiveSession>, cfg: ActiveSort)
    ensures multiset(ShownSessions(sessions, cfg, "")) == multiset(sessions)
  {
    forall i | 0 <= i < |sessions| ensures Matches("")(sessions[i]) {
      ContainsEmpty(ToLower(sessions[i].studentName));
    }
    FilterAllPass(sessions, Matches(""));
  }

  // The running clock: `LiveDurationDisplay`.

  /** What a row shows before its first tick. */
  const InitialClock := "00:00:00"

  /** One tick of `calculateAndSetDuration`: a negative elapsed time keeps what is shown;
      otherwise the whole seconds elapsed, split and printed as `HH:MM:SS`. */
  function Tick(shown: string, elapsedMs: int): string
  {
    if elapsedMs < 0 then shown
    else
      var totalSeconds := WholeSeconds(elapsedMs);
      ClockText(Decompose(totalSeconds))
  }

  /** A tick with a non-negative elapsed time shows the clock text of its whole seconds; that
      text reads back as those seconds, with minutes and seconds below 60. A negative one
      changes nothing. */
  lemma TickShowsElapsed(shown: string, elapsedMs: int)
    ensures elapsedMs < 0 ==> Tick(shown, elapsedMs) == shown
    ensures elapsedMs >= 0 ==>
      var t := WholeSeconds(elapsedMs);
      && t >= 0 && t * 1000 <= elapsedMs < t * 1000 + 1000
      && Tick(shown, elapsedMs) == SecondsToClock(t)
      && ClockOf(Tick(shown, elapsedMs), t)
  {
    if elapsedMs >= 0 {
      SecondsToClockReadsBack(WholeSeconds(elapsedMs));
    }
  }

  /** The first tick of a session signed in less than a second ago shows the initial text. */
  lemma FirstSecondShowsZero(shown: string, elapsedMs: int)
    requires 0 <= elapsedMs < 1000
    ensures Tick(shown, elapsedMs) == InitialClock
  {
    assert Decompose(0) == Duration(0, 0, 0);
  }
}
