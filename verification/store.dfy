/** The session state App.tsx keeps: the students signed in now and the log of finished
    sessions, with the handlers the components call to change them. The clock reading
    (`new Date()`) and the generated id (`Date.now()` and the name) are parameters. */
module Store {
  import opened Options
  import opened Text
  import opened Seqs
  import opened Durations
  import opened Sessions

  /** How `handleTimeIn` answers: it signs the student in, or it alerts that the name is blank
      or that the student is already signed in. */
  datatype TimeInOutcome = SignedIn | BlankName | AlreadySignedIn

  /** Some signed-in student has `name`, trimmed, as their name up to letter case. */
  predicate SignedInAs(active: seq<ActiveSession>, name: string)
  {
    exists i :: 0 <= i < |active| && ToLower(active[i].studentName) == ToLower(Trim(name))
  }

  /** The two checks of `handleTimeIn`, blank name first. */
  function TimeInCheck(active: seq<ActiveSession>, name: string): (r: TimeInOutcome)
    ensures r == BlankName <==> AllSpace(name)
    ensures r == SignedIn <==> (!AllSpace(name)
      && forall i :: 0 <= i < |active| ==> ToLower(active[i].studentName) != ToLower(Trim(name)))
  {
    if Trim(name) == "" then BlankName
    else if SignedInAs(active, name) then AlreadySignedIn
    else SignedIn
  }

  /** The signed-in list after `handleTimeIn`: on success the trimmed name is appended. */
  function SignIn(active: seq<ActiveSession>, name: string, level: int, now: int, id: string)
    : seq<ActiveSession>
  {
    if TimeInCheck(active, name) == SignedIn
    then active + [ActiveSession(id, Trim(name), level, now)]
    else active
  }

  /** No two signed-in students share a name up to letter case. */
  ghost predicate NamesDistinct(active: seq<ActiveSession>)
  {
    Pairwise(active, (a: ActiveSession, b: ActiveSession) =>
      ToLower(a.studentName) != ToLower(b.studentName))
  }

  /** Signing in keeps the signed-in names distinct, and a success adds exactly one session. */
  lemma SignInKeepsNamesDistinct(active: seq<ActiveSession>, name: string, level: int, now: int,
      id: string)
    requires NamesDistinct(active)
    ensures NamesDistinct(SignIn(active, name, level, now, id))
    ensures |SignIn(active, name, level, now, id)| ==
      |active| + (if TimeInCheck(active, name) == SignedIn then 1 else 0)
  {
    if TimeInCheck(active, name) == SignedIn {
      var r := SignIn(active, name, level, now, id);
      forall i, j | 0 <= i < j < |r|
        ensures ToLower(r[i].studentName) != ToLower(r[j].studentName)
      {
        if j == |active| {
          assert r[i] == active[i];
        } else {
          assert r[i] == active[i] && r[j] == active[j];
        }
      }
    }
  }

  /** Once a student is signed in, another time-in under the same name, whatever its letter case
      and surrounding blanks, is refused. */
  lemma {:induction false} SecondTimeInRefused(active: seq<ActiveSession>, name: string,
      level: int, now: int, id: string, again: string)
    requires TimeInCheck(active, name) == SignedIn
    requires ToLower(Trim(again)) == ToLower(Trim(name))
    ensures TimeInCheck(SignIn(active, name, level, now, id), again) == AlreadySignedIn
  {
    var r := SignIn(active, name, level, now, id);
    assert Trim(name) != "";
    assert |Trim(again)| == |ToLower(Trim(again))| == |Trim(name)|;
    assert r[|active|].studentName == Trim(name);
    TrimIdempotent(name);
  }

  lemma TrimIdempotent(s: string)
    ensures ToLower(Trim(Trim(s))) == ToLower(Trim(s))
  {
    var t := Trim(s);
    if t != [] {
      assert Trim(t) == t by {
        assert TrimStart(t) == t;
        assert TrimEnd(t) == t;
      }
    }
  }

  /** `activeSessions.find(s => s.id === sessionId)`: the first session with that id. */
  function FindActive(active: seq<ActiveSession>, id: string): (r: Option<ActiveSession>)
    ensures r.None? <==> forall i :: 0 <= i < |active| ==> active[i].id != id
    ensures r.Some? ==> r.value.id == id && r.value in active
    ensures r.Some? ==> active[FirstWithId(active, id)] == r.value
  {
    if active == [] then None
    else if active[0].id == id then Some(active[0])
    else
      var r := FindActive(active[1..], id);
      if r.Some? then assert active[1..][FirstWithId(active[1..], id)] == r.value; r else r
  }

  /** Index of the first session with the id, |active| when there is none. */
  function FirstWithId(active: seq<ActiveSession>, id: string): (k: nat)
    ensures k <= |active|
    ensures forall i :: 0 <= i < k ==> active[i].id != id
    ensures k < |active| ==> active[k].id == id
  {
    if active == [] || active[0].id == id then 0 else 1 + FirstWithId(active[1..], id)
  }

  /** The completed record `handleTimeOut` builds: the session's fields, the time-out and the
      elapsed whole seconds split into hours, minutes and seconds (not clamped at zero). */
  function EndSession(s: ActiveSession, now: int): (c: CompletedSession)
    ensures c.id == s.id && c.studentName == s.studentName && c.level == s.level
    ensures c.timeIn == s.timeIn && c.timeOut == now && c.notes == None
    ensures now >= s.timeIn ==> (c.duration.hours >= 0 && 0 <= c.duration.minutes < 60
      && 0 <= c.duration.seconds < 60
      && ToSeconds(c.duration) * 1000 <= now - s.timeIn < ToSeconds(c.duration) * 1000 + 1000)
  {
    var t := WholeSeconds(now - s.timeIn);
    if t >= 0 then DecomposeCanonical(t); EndedRecord(s, now, t) else EndedRecord(s, now, t)
  }

  function EndedRecord(s: ActiveSession, now: int, t: int): CompletedSession
  {
    CompletedSession(s.id, s.studentName, s.level, s.timeIn, now, Decompose(t), None)
  }

  function ActiveIdIsNot(id: string): ActiveSession -> bool
  {
    (s: ActiveSession) => s.id != id
  }

  function CompletedIdIsNot(id: string): CompletedSession -> bool
  {
    (s: CompletedSession) => s.id != id
  }

  /** The signed-in list after `handleTimeOut`: every session with the id is gone, the others
      keep their order. */
  function SignOutActive(active: seq<ActiveSession>, id: string): (r: seq<ActiveSession>)
    ensures forall s :: s in r <==> s in active && s.id != id
    ensures FindActive(active, id).None? ==> r == active
    ensures IsSubsequence(r, active)
  {
    FilterIsSubsequence(active, ActiveIdIsNot(id));
    var r := Filter(active, ActiveIdIsNot(id));
    if FindActive(active, id).None? then
      FilterAllPass(active, ActiveIdIsNot(id)); r
    else r
  }

  /** The log after `handleTimeOut`: the ended session in front, nothing when the id is unknown. */
  function SignOutLog(active: seq<ActiveSession>, completed: seq<CompletedSession>, id: string,
      now: int): (r: seq<CompletedSession>)
    ensures FindActive(active, id).None? ==> r == completed
    ensures FindActive(active, id).Some? ==>
      |r| == |completed| + 1 && r[1..] == completed && r[0].id == id
      && r[0] == EndSession(active[FirstWithId(active, id)], now)
  {
    match FindActive(active, id)
    case None => completed
    case Some(s) => [EndSession(s, now)] + completed
  }

  /** Signing out keeps the remaining names distinct, and a second sign-out of the same id
      changes nothing. */
  lemma SignOutOnce(active: seq<ActiveSession>, completed: seq<CompletedSession>, id: string,
      now: int, later: int)
    requires NamesDistinct(active)
    ensures NamesDistinct(SignOutActive(active, id))
    ensures var a := SignOutActive(active, id);
      SignOutActive(a, id) == a && SignOutLog(a, SignOutLog(active, completed, id, now), id, later)
        == SignOutLog(active, completed, id, now)
  {
    FilterPairwise(active, ActiveIdIsNot(id), (a: ActiveSession, b: ActiveSession) =>
      ToLower(a.studentName) != ToLower(b.studentName));
    var a := SignOutActive(active, id);
    assert FindActive(a, id).None?;
  }

  /** `b.timeIn - a.timeIn` read as "a may stand before b": the later time-in first. */
  predicate LaterFirst(a: CompletedSession, b: CompletedSession)
  {
    a.timeIn >= b.timeIn
  }

  lemma LaterFirstIsTotalPreorder()
    ensures TotalPreorder(LaterFirst)
  {
  }

  /** The record `handleAddSession` builds; the name is trimmed, the duration clamped at zero. */
  function NewRecord(n: NewSession, id: string): (c: CompletedSession)
    requires n.timeIn < n.timeOut
    ensures c.id == id && c.studentName == Trim(n.studentName) && c.level == n.level
    ensures c.timeIn == n.timeIn && c.timeOut == n.timeOut && c.notes == n.notes
    ensures c.duration.hours >= 0 && 0 <= c.duration.minutes < 60 && 0 <= c.duration.seconds < 60
    ensures ToSeconds(c.duration) * 1000 <= n.timeOut - n.timeIn
      < ToSeconds(c.duration) * 1000 + 1000
  {
    var t := ClampedWholeSeconds(n.timeOut - n.timeIn);
    DecomposeCanonical(t);
    CompletedSession(id, Trim(n.studentName), n.level, n.timeIn, n.timeOut, Decompose(t), n.notes)
  }

  /** The log after `handleAddSession`: `None` when the time range is refused, otherwise the new
      record put in front and the whole list sorted by time-in, latest first. */
  function AddToLog(completed: seq<CompletedSession>, n: NewSession, id: string)
    : (r: Option<seq<CompletedSession>>)
    ensures r.None? <==> n.timeIn >= n.timeOut
    ensures r.Some? ==> multiset(r.value) == multiset(completed) + multiset{NewRecord(n, id)}
  {
    if n.timeIn >= n.timeOut then None
    else Some(Sort([NewRecord(n, id)] + completed, LaterFirst))
  }

  /** After a manual add the log is in time-in order, latest first. */
  lemma AddToLogSorted(completed: seq<CompletedSession>, n: NewSession, id: string)
    requires n.timeIn < n.timeOut
    ensures Pairwise(AddToLog(completed, n, id).value, LaterFirst)
  {
    LaterFirstIsTotalPreorder();
    SortSorted([NewRecord(n, id)] + completed, LaterFirst);
  }

  /** Into a log already in that order, the new record goes after every session that began
      strictly later and before all the others, which keep their order. */
  lemma {:induction false} AddToSortedLog(completed: seq<CompletedSession>, n: NewSession,
      id: string)
    requires n.timeIn < n.timeOut
    requires Pairwise(completed, LaterFirst)
    ensures var x := NewRecord(n, id);
      var k := LeadCount(x, completed, LaterFirst);
      && AddToLog(completed, n, id).value == completed[..k] + [x] + completed[k..]
      && (forall i :: 0 <= i < k ==> completed[i].timeIn > n.timeIn)
      && (k < |completed| ==> completed[k].timeIn <= n.timeIn)
  {
    var x := NewRecord(n, id);
    SortOfSorted(completed, LaterFirst);
    assert ([x] + completed)[1..] == completed;
    InsertSplits(x, completed, LaterFirst);
  }

  /** One completed session after `handleUpdateSession`: the session with the id takes the new
      fields and a duration recomputed from the new times (clamped at zero); a refused range
      (time-in not before time-out) or another id leaves the session as it was. */
  function Revise(s: CompletedSession, u: SessionUpdate): (r: CompletedSession)
    ensures s.id != u.id || u.timeIn >= u.timeOut ==> r == s
    ensures s.id == u.id && u.timeIn < u.timeOut ==>
      && r.id == s.id && r.studentName == u.studentName && r.level == u.level
      && r.timeIn == u.timeIn && r.timeOut == u.timeOut && r.notes == u.notes
      && r.duration.hours >= 0 && 0 <= r.duration.minutes < 60 && 0 <= r.duration.seconds < 60
      && ToSeconds(r.duration) * 1000 <= u.timeOut - u.timeIn
         < ToSeconds(r.duration) * 1000 + 1000
  {
    if s.id != u.id || u.timeIn >= u.timeOut then s
    else
      var t := ClampedWholeSeconds(u.timeOut - u.timeIn);
      DecomposeCanonical(t);
      CompletedSession(s.id, u.studentName, u.level, u.timeIn, u.timeOut, Decompose(t), u.notes)
  }

  /** The log after `handleUpdateSession`: `Revise` applied to every session, order kept. */
  function UpdateLog(completed: seq<CompletedSession>, u: SessionUpdate)
    : (r: seq<CompletedSession>)
    ensures |r| == |completed|
    ensures forall i :: 0 <= i < |r| ==> r[i] == Revise(completed[i], u)
  {
    seq(|completed|, i requires 0 <= i < |completed| => Revise(completed[i], u))
  }

  /** An edit changes no id and touches nothing but the sessions with the edited id. */
  lemma UpdateLogKeepsOthers(completed: seq<CompletedSession>, u: SessionUpdate)
    ensures var r := UpdateLog(completed, u);
      && (forall i :: 0 <= i < |r| ==> r[i].id == completed[i].id)
      && (forall i :: 0 <= i < |r| && completed[i].id != u.id ==> r[i] == completed[i])
      && (u.timeIn >= u.timeOut ==> r == completed)
  {
  }

  /** The log after `handleDeleteSession`: every session with the id removed. */
  function DeleteFromLog(completed: seq<CompletedSession>, id: string)
    : (r: seq<CompletedSession>)
    ensures forall s :: s in r <==> s in completed && s.id != id
    ensures IsSubsequence(r, completed)
  {
    FilterIsSubsequence(completed, CompletedIdIsNot(id));
    Filter(completed, CompletedIdIsNot(id))
  }

  /** Deleting twice is deleting once. */
  lemma DeleteIdempotent(completed: seq<CompletedSession>, id: string)
    ensures DeleteFromLog(DeleteFromLog(completed, id), id) == DeleteFromLog(completed, id)
  {
    FilterIdempotent(completed, CompletedIdIsNot(id));
  }

  /** Where `x` first occurs in `names`. */
  function FirstIndex(names: seq<string>, x: string): (k: nat)
    requires x in names
    ensures k < |names| && names[k] == x
    ensures forall m :: 0 <= m < k ==> names[m] != x
  {
    if names[0] == x then 0
    else
      assert x in names[1..];
      1 + FirstIndex(names[1..], x)
  }

  /** Appending a name does not move the first occurrence of the names already there. */
  lemma FirstIndexAppend(p: seq<string>, y: string)
    ensures forall x :: x in p ==> FirstIndex(p + [y], x) == FirstIndex(p, x)
  {
    forall x | x in p
      ensures FirstIndex(p + [y], x) == FirstIndex(p, x)
    {
      var k := FirstIndex(p, x);
      assert (p + [y])[k] == x;
    }
  }

  /** `Array.from(new Set(names))`: each name once, in order of first appearance. */
  function Distinct(names: seq<string>): (r: seq<string>)
    ensures forall x :: x in r <==> x in names
    ensures forall i, j :: 0 <= i < j < |r| ==> r[i] != r[j]
    ensures forall i, j :: 0 <= i < j < |r| ==> FirstIndex(names, r[i]) < FirstIndex(names, r[j])
    ensures |r| <= |names|
  {
    if names == [] then []
    else
      var p, y := names[..|names| - 1], names[|names| - 1];
      var r := Distinct(p);
      assert names == p + [y];
      FirstIndexAppend(p, y);
      if y in r then r else r + [y]
  }

  /** A list without repeats is its own distinct list. */
  lemma {:induction false} DistinctOfDistinct(names: seq<string>)
    requires forall i, j :: 0 <= i < j < |names| ==> names[i] != names[j]
    ensures Distinct(names) == names
  {
    if names != [] {
      var p, y := names[..|names| - 1], names[|names| - 1];
      DistinctOfDistinct(p);
      assert y !in p;
      assert Distinct(names) == Distinct(p) + [y];
      assert p + [y] == names;
    }
  }

  function StudentNames(completed: seq<CompletedSession>): (r: seq<string>)
    ensures |r| == |completed|
    ensures forall i :: 0 <= i < |r| ==> r[i] == completed[i].studentName
  {
    seq(|completed|, i requires 0 <= i < |completed| => completed[i].studentName)
  }

  /** `uniqueStudentNames`: each name in the log once, in order of first appearance. */
  function UniqueStudentNames(completed: seq<CompletedSession>): (r: seq<string>)
    ensures forall x :: x in r <==> exists i :: 0 <= i < |completed| && completed[i].studentName == x
    ensures forall i, j :: 0 <= i < j < |r| ==> r[i] != r[j]
    ensures forall x :: x in r <==> x in StudentNames(completed)
    ensures forall i, j :: 0 <= i < j < |r| ==>
      FirstIndex(StudentNames(completed), r[i]) < FirstIndex(StudentNames(completed), r[j])
  {
    var names := StudentNames(completed);
    assert forall x :: x in names <==> exists i :: 0 <= i < |completed| && completed[i].studentName == x;
    Distinct(names)
  }

  /** The state of App.tsx. */
  class SessionStore {
    var active: seq<ActiveSession>
    var completed: seq<CompletedSession>

    ghost predicate Valid()
      reads this
    {
      NamesDistinct(active)
    }

    constructor()
      ensures Valid() && active == [] && completed == []
    {
      active := [];
      completed := [];
    }

    /** `handleTimeIn`. */
    method TimeIn(name: string, level: int, now: int, freshId: string)
      returns (outcome: TimeInOutcome)
      requires Valid()
      modifies this
      ensures Valid()
      ensures outcome == TimeInCheck(old(active), name)
      ensures active == SignIn(old(active), name, level, now, freshId)
      ensures completed == old(completed)
    {
      outcome := TimeInCheck(active, name);
      SignInKeepsNamesDistinct(active, name, level, now, freshId);
      if outcome == SignedIn {
        active := active + [ActiveSession(freshId, Trim(name), level, now)];
      }
    }

    /** `handleTimeOut`. */
    method TimeOut(id: string, now: int)
      requires Valid()
      modifies this
      ensures Valid()
      ensures active == SignOutActive(old(active), id)
      ensures completed == SignOutLog(old(active), old(completed), id, now)
    {
      SignOutOnce(active, completed, id, now, now);
      var found := FindActive(active, id);
      if found.Some? {
        completed := [EndSession(found.value, now)] + completed;
        active := Filter(active, ActiveIdIsNot(id));
      }
    }

    /** `handleUpdateSession`. */
    method UpdateSession(u: SessionUpdate)
      requires Valid()
      modifies this
      ensures Valid()
      ensures active == old(active)
      ensures completed == UpdateLog(old(completed), u)
    {
      completed := UpdateLog(completed, u);
    }

    /** `handleAddSession`; `accepted` is false where the source alerts about the time range. */
    method AddSession(n: NewSession, freshId: string) returns (accepted: bool)
      requires Valid()
      modifies this
      ensures Valid()
      ensures accepted <==> n.timeIn < n.timeOut
      ensures active == old(active)
      ensures accepted ==> completed == AddToLog(old(completed), n, freshId).value
      ensures !accepted ==> completed == old(completed)
    {
      var r := AddToLog(completed, n, freshId);
      accepted := r.Some?;
      if accepted {
        completed := r.value;
      }
    }

    /** `handleDeleteSession`. */
    method DeleteSession(id: string)
      requires Valid()
      modifies this
      ensures Valid()
      ensures active == old(active)
      ensures completed == DeleteFromLog(old(completed), id)
    {
      completed := DeleteFromLog(completed, id);
    }

  }
}
