/** The sign-in form of components/StudentInput.tsx: the typed name and the chosen level, the
    effect that fills in the level of a returning student, and the submit that signs the
    student in through the store and clears the form. */
module StudentInput {
  import opened Options
  import opened Text
  import opened Sessions
  import opened Store

  /** Some known name equals `name` up to letter case. */
  predicate KnownName(studentNames: seq<string>, name: string)
  {
    exists i :: 0 <= i < |studentNames| && ToLower(studentNames[i]) == ToLower(name)
  }

  /** Index of the first session whose name equals `name` up to letter case, |completed| when
      there is none: `completedSessions.find(...)`. */
  function FirstMatch(completed: seq<CompletedSession>, name: string): (k: nat)
    ensures k <= |completed|
    ensures forall i :: 0 <= i < k ==> ToLower(completed[i].studentName) != ToLower(name)
    ensures k < |completed| ==> ToLower(completed[k].studentName) == ToLower(name)
  {
    if completed == [] || ToLower(completed[0].studentName) == ToLower(name) then 0
    else 1 + FirstMatch(completed[1..], name)
  }

  /** The level the autofill effect sets, or `None` when it leaves the level alone: a non-empty
      name that is known, ignoring case, takes the level of the first session in the log with
      that name, which is the newest since the log puts new sessions in front. */
  function AutofillLevel(name: string, studentNames: seq<string>,
      completed: seq<CompletedSession>): (r: Option<int>)
    ensures r.None? <==> (name == "" || !KnownName(studentNames, name)
      || forall i :: 0 <= i < |completed| ==> ToLower(completed[i].studentName) != ToLower(name))
    ensures r.Some? ==> exists i :: (0 <= i < |completed|
      && ToLower(completed[i].studentName) == ToLower(name) && r.value == completed[i].level
      && forall j :: 0 <= j < i ==> ToLower(completed[j].studentName) != ToLower(name))
  {
    if name != "" && KnownName(studentNames, name) then
      var k := FirstMatch(completed, name);
      if k < |completed| then Some(completed[k].level) else None
    else None
  }

  /** With the names the app hands the form (`uniqueStudentNames` of the same log), a known
      name always has a session to take its level from: the level is filled in exactly when
      the name is non-empty and some session has it, ignoring case. */
  lemma AutofillFromLog(name: string, completed: seq<CompletedSession>)
    ensures AutofillLevel(name, UniqueStudentNames(completed), completed).Some? <==>
      name != "" && exists i :: 0 <= i < |completed| && ToLower(completed[i].studentName) == ToLower(name)
  {
    var names := UniqueStudentNames(completed);
    if name != "" && exists i :: 0 <= i < |completed| && ToLower(completed[i].studentName) == ToLower(name) {
      var i :| 0 <= i < |completed| && ToLower(completed[i].studentName) == ToLower(name);
      assert completed[i].studentName in names;
      var j :| 0 <= j < |names| && names[j] == completed[i].studentName;
      assert KnownName(names, name);
    }
  }

  /** A student who just signed out is offered the level of that visit when they come back:
      the ended session stands first in the log. */
  lemma ReturningStudentKeepsLevel(active: seq<ActiveSession>, completed: seq<CompletedSession>,
      id: string, now: int)
    requires FindActive(active, id).Some? && FindActive(active, id).value.studentName != ""
    ensures var s, log := FindActive(active, id).value, SignOutLog(active, completed, id, now);
      AutofillLevel(s.studentName, UniqueStudentNames(log), log) == Some(s.level)
  {
    var s, log := FindActive(active, id).value, SignOutLog(active, completed, id, now);
    assert log[0].studentName == s.studentName;
    AutofillFromLog(s.studentName, log);
  }

  /** The form's state: the name typed so far and the level chosen. */
  class SignInForm {
    var studentName: string
    var level: int

    /** The form opens empty at level 100. */
    constructor()
      ensures studentName == "" && level == 100
    {
      studentName := "";
      level := 100;
    }

    /** Typing into the name box. */
    method EnterName(name: string)
      modifies this
      ensures studentName == name && level == old(level)
    {
      studentName := name;
    }

    /** Picking a level from the list. */
    method ChooseLevel(l: int)
      modifies this
      ensures studentName == old(studentName) && level == l
    {
      level := l;
    }

    /** The autofill effect: the level of the newest session with the typed name when the name
        is known, the chosen level otherwise. */
    method Autofill(studentNames: seq<string>, completed: seq<CompletedSession>)
      modifies this
      ensures studentName == old(studentName)
      ensures AutofillLevel(studentName, studentNames, completed).None? ==> level == old(level)
      ensures AutofillLevel(studentName, studentNames, completed).Some? ==>
        level == AutofillLevel(studentName, studentNames, completed).value
    {
      if studentName != "" && KnownName(studentNames, studentName) {
        var k := FirstMatch(completed, studentName);
        if k < |completed| {
          level := completed[k].level;
        }
      }
    }

    /** `handleSubmit`: the name as typed, untrimmed, and the chosen level go to the store's
        time-in, and the form is cleared back to an empty name and level 100 whether or not the
        store signed the student in. The two state setters take effect together once the
        handler returns, so clearing the fields first changes nothing. */
    method Submit(store: SessionStore, now: int, freshId: string) returns (outcome: TimeInOutcome)
      requires store.Valid()
      modifies this, store
      ensures store.Valid()
      ensures outcome == TimeInCheck(old(store.active), old(studentName))
      ensures store.active == SignIn(old(store.active), old(studentName), old(level), now, freshId)
      ensures store.completed == old(store.completed)
      ensures studentName == "" && level == 100
    {
      var name, chosen := studentName, level;
      studentName, level := "", 100;
      outcome := store.TimeIn(name, chosen, now, freshId);
    }
  }
}
