/** The dictionaries components/StudentSummary.tsx fills with a `forEach` loop: totals per
    `name|level` key, totals per name, and the number of leaderboard entries per level, and the
    pie-chart data built from them. One generic tally serves all three. */
module Aggregation {
  import opened Options
  import opened Text
  import opened Seqs
  import opened Durations
  import opened Sessions
  import opened PieChart

  /** One dictionary entry: its key, the item that created it, the running total of the item
      weights and the number of items counted into it. */
  datatype Group<T, K> = Group(key: K, first: T, total: int, count: int)

  function GroupTotal<T, K>(g: Group<T, K>): int
  {
    g.total
  }

  function GroupCount<T, K>(g: Group<T, K>): int
  {
    g.count
  }

  function Keys<T, K>(gs: seq<Group<T, K>>): (ks: seq<K>)
    ensures |ks| == |gs|
    ensures forall j :: 0 <= j < |gs| ==> ks[j] == gs[j].key
  {
    seq(|gs|, j requires 0 <= j < |gs| => gs[j].key)
  }

  /** Position of the entry with key `k`, |gs| when there is none. */
  function IndexOfKey<T, K(==)>(gs: seq<Group<T, K>>, k: K): (j: nat)
    ensures j <= |gs|
    ensures j < |gs| ==> gs[j].key == k
    ensures forall i :: 0 <= i < j ==> gs[i].key != k
  {
    if gs == [] || gs[0].key == k then 0 else 1 + IndexOfKey(gs[1..], k)
  }

  /** One step of the loop: an item whose key is present adds its weight and one to that entry;
      an item with a new key opens an entry at the end, as a JavaScript object keeps the
      insertion order of keys that are not array indices. */
  function AddItem<T, K(==)>(gs: seq<Group<T, K>>, x: T, keyOf: T -> K, weight: T -> int)
    : seq<Group<T, K>>
  {
    var j := IndexOfKey(gs, keyOf(x));
    if j < |gs| then gs[j := Group(gs[j].key, gs[j].first, gs[j].total + weight(x), gs[j].count + 1)]
    else gs + [Group(keyOf(x), x, weight(x), 1)]
  }

  /** The dictionary after the loop has seen every item of `s`, in order. */
  function Tally<T, K(==)>(s: seq<T>, keyOf: T -> K, weight: T -> int): seq<Group<T, K>>
  {
    if s == [] then [] else AddItem(Tally(s[..|s| - 1], keyOf, weight), s[|s| - 1], keyOf, weight)
  }

  /** The number of items with key `k`. */
  function CountKey<T, K(==)>(s: seq<T>, keyOf: T -> K, k: K): nat
  {
    if s == [] then 0
    else CountKey(s[..|s| - 1], keyOf, k) + (if keyOf(s[|s| - 1]) == k then 1 else 0)
  }

  /** The total weight of the items with key `k`. */
  function SumKey<T, K(==)>(s: seq<T>, keyOf: T -> K, weight: T -> int, k: K): int
  {
    if s == [] then 0
    else SumKey(s[..|s| - 1], keyOf, weight, k) + (if keyOf(s[|s| - 1]) == k then weight(s[|s| - 1]) else 0)
  }

  lemma {:induction false} CountKeyPositive<T, K>(s: seq<T>, keyOf: T -> K, k: K)
    ensures CountKey(s, keyOf, k) > 0 <==> exists i :: 0 <= i < |s| && keyOf(s[i]) == k
  {
    if s != [] {
      var p := s[..|s| - 1];
      CountKeyPositive(p, keyOf, k);
      if CountKey(p, keyOf, k) > 0 {
        var i :| 0 <= i < |p| && keyOf(p[i]) == k;
        assert s[i] == p[i];
      }
      if exists i :: 0 <= i < |s| && keyOf(s[i]) == k {
        var i :| 0 <= i < |s| && keyOf(s[i]) == k;
        if i < |p| { assert p[i] == s[i]; }
      }
    }
  }

  lemma {:induction false} SumKeyOfAbsent<T, K>(s: seq<T>, keyOf: T -> K, weight: T -> int, k: K)
    requires CountKey(s, keyOf, k) == 0
    ensures SumKey(s, keyOf, weight, k) == 0
  {
    if s != [] { SumKeyOfAbsent(s[..|s| - 1], keyOf, weight, k); }
  }

  ghost predicate KeysDistinct<T, K>(gs: seq<Group<T, K>>)
  {
    forall i, j :: 0 <= i < j < |gs| ==> gs[i].key != gs[j].key
  }

  /** What the dictionary holds: one entry per distinct key among the items, each entry counting
      exactly the items with its key, adding up exactly their weights, and created by one of
      them. */
  lemma {:induction false} TallyExact<T, K>(s: seq<T>, keyOf: T -> K, weight: T -> int)
    ensures var gs := Tally(s, keyOf, weight);
      && KeysDistinct(gs)
      && (forall k :: k in Keys(gs) <==> CountKey(s, keyOf, k) > 0)
      && (forall j :: 0 <= j < |gs| ==>
            && gs[j].count == CountKey(s, keyOf, gs[j].key)
            && gs[j].total == SumKey(s, keyOf, weight, gs[j].key)
            && gs[j].first in s && keyOf(gs[j].first) == gs[j].key)
  {
    if s != [] {
      var p, x := s[..|s| - 1], s[|s| - 1];
      TallyExact(p, keyOf, weight);
      var hs := Tally(p, keyOf, weight);
      var gs := Tally(s, keyOf, weight);
      var j := IndexOfKey(hs, keyOf(x));
      assert gs == AddItem(hs, x, keyOf, weight);
      if j < |hs| {
        assert Keys(gs) == Keys(hs);
        forall i | 0 <= i < |gs| ensures gs[i].first in s {
          assert hs[i].first in p;
        }
      } else {
        assert keyOf(x) !in Keys(hs);
        SumKeyOfAbsent(p, keyOf, weight, keyOf(x));
        assert Keys(gs) == Keys(hs) + [keyOf(x)];
        forall i | 0 <= i < |gs| ensures gs[i].first in s {
          if i < |hs| { assert hs[i].first in p; } else { assert gs[i].first == s[|s| - 1]; }
        }
      }
    }
  }

  /** The counts add up to the number of items and the totals to the total weight. */
  lemma {:induction false} TallySums<T, K>(s: seq<T>, keyOf: T -> K, weight: T -> int)
    ensures var gs := Tally(s, keyOf, weight);
      Sum(gs, GroupCount) == |s| && Sum(gs, GroupTotal) == Sum(s, weight)
  {
    if s != [] {
      var p, x := s[..|s| - 1], s[|s| - 1];
      TallySums(p, keyOf, weight);
      var hs := Tally(p, keyOf, weight);
      var j := IndexOfKey(hs, keyOf(x));
      assert s == p + [x];
      SumAppend(p, [x], weight);
      if j < |hs| {
        var g := Group(hs[j].key, hs[j].first, hs[j].total + weight(x), hs[j].count + 1);
        SumUpdate(hs, j, g, GroupCount);
        SumUpdate(hs, j, g, GroupTotal);
      } else {
        var g := Group(keyOf(x), x, weight(x), 1);
        SumAppend(hs, [g], GroupCount);
        SumAppend(hs, [g], GroupTotal);
      }
    }
  }

  /** `entries` (a dictionary) and `order` (its keys in the order they were added) hold the
      entries of `gs`. */
  ghost predicate Represents<T, K(!new)>(entries: map<K, Group<T, K>>, order: seq<K>,
      gs: seq<Group<T, K>>)
  {
    && order == Keys(gs)
    && (forall k :: k in entries <==> k in order)
    && (forall j :: 0 <= j < |order| ==> entries[order[j]] == gs[j])
  }

  lemma StepExisting<T, K(!new)>(entries: map<K, Group<T, K>>, order: seq<K>, gs: seq<Group<T, K>>,
      x: T, keyOf: T -> K, weight: T -> int)
    requires Represents(entries, order, gs) && KeysDistinct(gs) && keyOf(x) in entries
    ensures var e := entries[keyOf(x)];
      Represents(entries[keyOf(x) := Group(e.key, e.first, e.total + weight(x), e.count + 1)],
        order, AddItem(gs, x, keyOf, weight))
  {
    var k := keyOf(x);
    FindEntry(entries, order, gs, k);
    var j := IndexOfKey(gs, k);
    AddToEntry(gs, x, keyOf, weight);
    ReplaceEntry(entries, order, gs, j, k, AddItem(gs, x, keyOf, weight)[j]);
  }

  /** An item whose key has an entry updates that entry in place. */
  lemma AddToEntry<T, K>(gs: seq<Group<T, K>>, x: T, keyOf: T -> K, weight: T -> int)
    requires IndexOfKey(gs, keyOf(x)) < |gs|
    ensures var j := IndexOfKey(gs, keyOf(x));
      && AddItem(gs, x, keyOf, weight) == gs[j := AddItem(gs, x, keyOf, weight)[j]]
      && AddItem(gs, x, keyOf, weight)[j]
        == Group(gs[j].key, gs[j].first, gs[j].total + weight(x), gs[j].count + 1)
  {
  }

  /** A key of the dictionary is found in the list, at the entry the dictionary holds for it. */
  lemma FindEntry<T, K(!new)>(entries: map<K, Group<T, K>>, order: seq<K>, gs: seq<Group<T, K>>,
      k: K)
    requires Represents(entries, order, gs) && k in entries
    ensures IndexOfKey(gs, k) < |gs| && entries[k] == gs[IndexOfKey(gs, k)]
  {
    var j := IndexOfKey(gs, k);
    var m :| 0 <= m < |order| && order[m] == k;
    assert gs[m].key == k;
    assert j <= m;
    assert order[j] == k;
  }

  /** Replacing the entry at place `j` by one with the same key. */
  lemma ReplaceEntry<T, K(!new)>(entries: map<K, Group<T, K>>, order: seq<K>, gs: seq<Group<T, K>>,
      j: nat, k: K, g: Group<T, K>)
    requires Represents(entries, order, gs) && KeysDistinct(gs)
    requires j < |gs| && gs[j].key == k && g.key == k
    ensures Represents(entries[k := g], order, gs[j := g])
  {
    var hs := gs[j := g];
    assert Keys(hs) == Keys(gs) by {
      forall i | 0 <= i < |hs| ensures Keys(hs)[i] == Keys(gs)[i] {
      }
    }
    var next := entries[k := g];
    forall i | 0 <= i < |order| ensures next[order[i]] == hs[i] {
      if i != j {
        assert order[i] == gs[i].key != gs[j].key;
      }
    }
  }

  lemma StepNew<T, K(!new)>(entries: map<K, Group<T, K>>, order: seq<K>, gs: seq<Group<T, K>>,
      x: T, keyOf: T -> K, weight: T -> int)
    requires Represents(entries, order, gs) && keyOf(x) !in entries
    ensures Represents(entries[keyOf(x) := Group(keyOf(x), x, weight(x), 1)], order + [keyOf(x)],
      AddItem(gs, x, keyOf, weight))
  {
    var k := keyOf(x);
    assert IndexOfKey(gs, k) == |gs|;
    assert Keys(gs + [Group(k, x, weight(x), 1)]) == Keys(gs) + [k];
  }

  /** The `forEach` of components/StudentSummary.tsx over a dictionary object: `entries` is the
      object, `order` the order in which its keys were added. */
  method TallyLoop<T, K(==, !new)>(s: seq<T>, keyOf: T -> K, weight: T -> int)
    returns (gs: seq<Group<T, K>>)
    ensures gs == Tally(s, keyOf, weight)
  {
    var entries: map<K, Group<T, K>> := map[];
    var order: seq<K> := [];
    var i := 0;
    while i < |s|
      invariant 0 <= i <= |s|
      invariant Represents(entries, order, Tally(s[..i], keyOf, weight))
    {
      var x := s[i];
      var k := keyOf(x);
      assert s[..i + 1][..i] == s[..i] && s[..i + 1][i] == x;
      TallyExact(s[..i], keyOf, weight);
      if k in entries {
        StepExisting(entries, order, Tally(s[..i], keyOf, weight), x, keyOf, weight);
        var e := entries[k];
        entries := entries[k := Group(e.key, e.first, e.total + weight(x), e.count + 1)];
      } else {
        StepNew(entries, order, Tally(s[..i], keyOf, weight), x, keyOf, weight);
        entries := entries[k := Group(k, x, weight(x), 1)];
        order := order + [k];
      }
      i := i + 1;
    }
    assert s[..i] == s;
    gs := [];
    var n := 0;
    while n < |order|
      invariant 0 <= n <= |order|
      invariant gs == Tally(s, keyOf, weight)[..n]
    {
      gs := gs + [entries[order[n]]];
      n := n + 1;
    }
  }

  /** The count and total of a key are those of the items a predicate selecting that key keeps. */
  lemma {:induction false} CountKeyFilter<T(!new), K>(s: seq<T>, keyOf: T -> K, weight: T -> int, k: K,
      p: T -> bool)
    requires forall x :: p(x) <==> keyOf(x) == k
    ensures CountKey(s, keyOf, k) == |Filter(s, p)|
    ensures SumKey(s, keyOf, weight, k) == Sum(Filter(s, p), weight)
  {
    if s != [] {
      var q, x := s[..|s| - 1], s[|s| - 1];
      assert s == q + [x];
      CountKeyFilter(q, keyOf, weight, k, p);
      FilterSnoc(q, x, p);
      SumAppend(Filter(q, p), if p(x) then [x] else [], weight);
    }
  }

  /** A dictionary with at least one item has at least one entry. */
  lemma TallyEmpty<T, K>(s: seq<T>, keyOf: T -> K, weight: T -> int)
    ensures Tally(s, keyOf, weight) == [] <==> s == []
  {
    if s != [] {
      TallySums(s, keyOf, weight);
    }
  }

  function DifferentKeys<T, K(==)>(a: Group<T, K>, b: Group<T, K>): bool
  {
    a.key != b.key
  }

  /** Entry `j` counts and adds up exactly the items with its key, and was opened by one of
      them. */
  lemma TallyEntry<T, K>(s: seq<T>, keyOf: T -> K, weight: T -> int, j: nat)
    requires j < |Tally(s, keyOf, weight)|
    ensures var g := Tally(s, keyOf, weight)[j];
      && g.count == CountKey(s, keyOf, g.key) && g.total == SumKey(s, keyOf, weight, g.key)
      && g.first in s && keyOf(g.first) == g.key
  {
    TallyExact(s, keyOf, weight);
  }

  lemma TallyKeys<T, K>(s: seq<T>, keyOf: T -> K, weight: T -> int)
    ensures KeysDistinct(Tally(s, keyOf, weight))
    ensures forall k :: k in Keys(Tally(s, keyOf, weight)) <==> CountKey(s, keyOf, k) > 0
  {
    TallyExact(s, keyOf, weight);
  }

  /** Every item's key has an entry. */
  lemma TallyHasKey<T, K>(s: seq<T>, keyOf: T -> K, weight: T -> int, x: T)
    requires x in s
    ensures keyOf(x) in Keys(Tally(s, keyOf, weight))
  {
    var n :| 0 <= n < |s| && s[n] == x;
    assert keyOf(s[n]) == keyOf(x);
    CountKeyPositive(s, keyOf, keyOf(x));
    assert CountKey(s, keyOf, keyOf(x)) > 0;
    TallyKeys(s, keyOf, weight);
    assert keyOf(x) in Keys(Tally(s, keyOf, weight));
  }

  /** The same, wherever the entries were moved by `le`. */
  lemma SortedEntry<T, K>(s: seq<T>, keyOf: T -> K, weight: T -> int,
      le: (Group<T, K>, Group<T, K>) -> bool, j: nat)
    requires j < |Sort(Tally(s, keyOf, weight), le)|
    ensures var g := Sort(Tally(s, keyOf, weight), le)[j];
      && g.count == CountKey(s, keyOf, g.key) && g.total == SumKey(s, keyOf, weight, g.key)
      && g.first in s && keyOf(g.first) == g.key
  {
    var hs := Tally(s, keyOf, weight);
    var gs := Sort(hs, le);
    assert gs[j] in multiset(hs);
    var m :| 0 <= m < |hs| && hs[m] == gs[j];
    TallyEntry(s, keyOf, weight, m);
  }

  lemma SortedHasKey<T, K>(s: seq<T>, keyOf: T -> K, weight: T -> int,
      le: (Group<T, K>, Group<T, K>) -> bool, x: T)
    requires x in s
    ensures keyOf(x) in Keys(Sort(Tally(s, keyOf, weight), le))
  {
    var hs := Tally(s, keyOf, weight);
    TallyHasKey(s, keyOf, weight, x);
    var m :| 0 <= m < |hs| && Keys(hs)[m] == keyOf(x);
    assert hs[m] in multiset(Sort(hs, le));
  }

  /** No key has two entries, wherever the entries were moved by `le`. */
  lemma SortedDistinct<T(!new), K(!new)>(s: seq<T>, keyOf: T -> K, weight: T -> int,
      le: (Group<T, K>, Group<T, K>) -> bool)
    ensures Pairwise(Sort(Tally(s, keyOf, weight), le), DifferentKeys)
  {
    var hs := Tally(s, keyOf, weight);
    TallyExact(s, keyOf, weight);
    assert Pairwise(hs, DifferentKeys);
    SortKeepsPairwise(hs, le, DifferentKeys);
  }

  // Totals per student and level: `studentTotals`.

  /** The dictionary key `${studentName}|${level}`. */
  function PairKey(s: CompletedSession): string
  {
    s.studentName + "|" + IntToString(s.level)
  }

  /** The level is written without a bar, so the last bar of a key ends the name: two sessions
      share a key exactly when they share name and level. */
  lemma PairKeyInjective(a: CompletedSession, b: CompletedSession)
    ensures PairKey(a) == PairKey(b) <==> a.studentName == b.studentName && a.level == b.level
  {
    if PairKey(a) == PairKey(b) {
      var w := PairKey(a);
      var x, y := IntToString(a.level), IntToString(b.level);
      var i, j := |a.studentName|, |b.studentName|;
      assert w[i] == '|' && w[j] == '|';
      assert j <= i by {
        assert forall k :: i < k < |w| ==> w[k] == x[k - i - 1];
      }
      assert i <= j by {
        assert forall k :: j < k < |w| ==> w[k] == y[k - j - 1];
      }
      assert a.studentName == w[..i] && b.studentName == w[..j];
      assert x == w[i + 1..] && y == w[j + 1..];
      IntToStringInjective(a.level, b.level);
    }
  }

  /** `key.split('|')[0]` is the name up to its own first bar. */
  lemma PairKeyName(s: CompletedSession)
    ensures SplitFirst(PairKey(s), '|') == SplitFirst(s.studentName, '|')
  {
    var key, name := PairKey(s), s.studentName;
    var k := IndexOf(name, '|');
    assert forall j :: 0 <= j < |name| ==> key[j] == name[j];
    assert IndexOf(key, '|') == k by {
      if k == |name| {
        assert key[k] == '|';
      }
    }
  }

  /** The sessions of one student at one level. */
  function SamePair(name: string, level: int): CompletedSession -> bool
  {
    (s: CompletedSession) => s.studentName == name && s.level == level
  }

  lemma PairCount(sessions: seq<CompletedSession>, s: CompletedSession)
    ensures CountKey(sessions, PairKey, PairKey(s)) == |Filter(sessions, SamePair(s.studentName, s.level))|
    ensures SumKey(sessions, PairKey, SessionSeconds, PairKey(s))
      == Sum(Filter(sessions, SamePair(s.studentName, s.level)), SessionSeconds)
  {
    forall x ensures SamePair(s.studentName, s.level)(x) <==> PairKey(x) == PairKey(s) {
      PairKeyInjective(x, s);
    }
    CountKeyFilter(sessions, PairKey, SessionSeconds, PairKey(s), SamePair(s.studentName, s.level));
  }

  /** One leaderboard row (`StudentTotal`). */
  datatype StudentTotal = StudentTotal(studentName: string, level: int, totalSeconds: int,
    sessionCount: int, averageSeconds: real)

  /** The entries of the `studentTotals` dictionary, in the order their keys were added. */
  function PairGroups(sessions: seq<CompletedSession>): seq<Group<CompletedSession, string>>
  {
    Tally(sessions, PairKey, SessionSeconds)
  }

  /** A dictionary entry as a row: the name is the key up to its first bar (`key.split('|')`),
      the level is the one the entry was opened with, the average is the exact quotient. */
  function RowOf(g: Group<CompletedSession, string>): StudentTotal
  {
    StudentTotal(SplitFirst(g.key, '|'), g.first.level, g.total, g.count,
      if g.count > 0 then g.total as real / g.count as real else 0.0)
  }

  /** `studentTotals`: the rows in the order their keys first appear among the sessions. */
  function StudentTotals(sessions: seq<CompletedSession>): seq<StudentTotal>
  {
    var gs := PairGroups(sessions);
    seq(|gs|, i requires 0 <= i < |gs| => RowOf(gs[i]))
  }

  /** The `forEach` and `map` that build `studentTotals`. */
  method ComputeStudentTotals(sessions: seq<CompletedSession>) returns (totals: seq<StudentTotal>)
    ensures totals == StudentTotals(sessions)
  {
    var gs := TallyLoop(sessions, PairKey, SessionSeconds);
    totals := seq(|gs|, i requires 0 <= i < |gs| => RowOf(gs[i]));
  }

  /** The session that opened the entry of row `i`. */
  function Opener(sessions: seq<CompletedSession>, i: nat): CompletedSession
    requires i < |StudentTotals(sessions)|
  {
    PairGroups(sessions)[i].first
  }

  /** The row of an entry opened by `s` that counts the sessions with `s`'s key. */
  lemma RowOfEntry(sessions: seq<CompletedSession>, g: Group<CompletedSession, string>,
      s: CompletedSession)
    requires g.first == s && g.key == PairKey(s)
    requires g.count == CountKey(sessions, PairKey, g.key)
    requires g.total == SumKey(sessions, PairKey, SessionSeconds, g.key)
    requires s in sessions
    ensures var row := RowOf(g);
      && row.studentName == SplitFirst(s.studentName, '|') && row.level == s.level
      && row.sessionCount == |Filter(sessions, SamePair(s.studentName, s.level))|
      && row.totalSeconds == Sum(Filter(sessions, SamePair(s.studentName, s.level)), SessionSeconds)
      && row.sessionCount >= 1
      && row.averageSeconds == row.totalSeconds as real / row.sessionCount as real
  {
    PairCount(sessions, s);
    PairKeyName(s);
    assert s in Filter(sessions, SamePair(s.studentName, s.level));
  }

  /** Row `i` belongs to the name and level of a session: it counts exactly the sessions with that
      name and level, adds up exactly their seconds, and averages them. Its name is the session's
      name up to the first bar. */
  lemma StudentTotalsRows(sessions: seq<CompletedSession>, i: nat)
    requires i < |StudentTotals(sessions)|
    ensures var row, s := StudentTotals(sessions)[i], Opener(sessions, i);
      && s in sessions
      && row.studentName == SplitFirst(s.studentName, '|') && row.level == s.level
      && row.sessionCount == |Filter(sessions, SamePair(s.studentName, s.level))|
      && row.totalSeconds == Sum(Filter(sessions, SamePair(s.studentName, s.level)), SessionSeconds)
      && row.sessionCount >= 1
      && row.averageSeconds == row.totalSeconds as real / row.sessionCount as real
  {
    var g := PairGroups(sessions)[i];
    TallyEntry(sessions, PairKey, SessionSeconds, i);
    assert StudentTotals(sessions)[i] == RowOf(g);
    RowOfEntry(sessions, g, g.first);
  }

  /** Distinct rows belong to distinct (name, level) pairs. */
  lemma StudentTotalsDistinct(sessions: seq<CompletedSession>)
    ensures var totals := StudentTotals(sessions);
      forall i, j :: 0 <= i < j < |totals| ==>
        Opener(sessions, i).studentName != Opener(sessions, j).studentName
        || Opener(sessions, i).level != Opener(sessions, j).level
  {
    var gs := PairGroups(sessions);
    TallyKeys(sessions, PairKey, SessionSeconds);
    forall i, j | 0 <= i < j < |gs|
      ensures gs[i].first.studentName != gs[j].first.studentName || gs[i].first.level != gs[j].first.level
    {
      TallyEntry(sessions, PairKey, SessionSeconds, i);
      TallyEntry(sessions, PairKey, SessionSeconds, j);
      PairKeyInjective(gs[i].first, gs[j].first);
    }
  }

  /** Every session's name and level have a row: the one at the position of its key. */
  lemma StudentTotalsCover(sessions: seq<CompletedSession>, s: CompletedSession)
    requires s in sessions
    ensures var i := IndexOfKey(PairGroups(sessions), PairKey(s));
      && i < |StudentTotals(sessions)|
      && Opener(sessions, i).studentName == s.studentName && Opener(sessions, i).level == s.level
  {
    var gs := PairGroups(sessions);
    var i := IndexOfKey(gs, PairKey(s));
    TallyHasKey(sessions, PairKey, SessionSeconds, s);
    assert i < |gs|;
    TallyEntry(sessions, PairKey, SessionSeconds, i);
    PairKeyInjective(gs[i].first, s);
  }

  function RowCount(t: StudentTotal): int
  {
    t.sessionCount
  }

  function RowSeconds(t: StudentTotal): int
  {
    t.totalSeconds
  }

  /** `totalSessionCount`. */
  function TotalSessionCount(totals: seq<StudentTotal>): int
  {
    Sum(totals, RowCount)
  }

  /** Every session is counted in exactly one row, and its seconds in exactly one total. */
  lemma StudentTotalsSums(sessions: seq<CompletedSession>)
    ensures TotalSessionCount(StudentTotals(sessions)) == |sessions|
    ensures Sum(StudentTotals(sessions), RowSeconds) == Sum(sessions, SessionSeconds)
  {
    var hs := Tally(sessions, PairKey, SessionSeconds);
    var gs := PairGroups(sessions);
    TallySums(sessions, PairKey, SessionSeconds);
    SumPointwise(StudentTotals(sessions), gs, RowCount, GroupCount);
    SumPointwise(StudentTotals(sessions), gs, RowSeconds, GroupTotal);
  }

  /** `key.split('|')` cuts a name that itself holds a bar: "Ann|B" at level 100 is shown as
      "Ann". */
  lemma BarInNameTruncated()
    ensures var s := CompletedSession("1", "Ann|B", 100, 0, 1000, Duration(0, 0, 1), None);
      |StudentTotals([s])| == 1 && StudentTotals([s])[0].studentName == "Ann"
  {
    var s := CompletedSession("1", "Ann|B", 100, 0, 1000, Duration(0, 0, 1), None);
    StudentTotalsSums([s]);
    StudentTotalsRows([s], 0);
    assert Opener([s], 0) == s;
    assert SplitFirst(s.studentName, '|') == "Ann" by {
      var name := s.studentName;
      assert name == ['A', 'n', 'n', '|', 'B'];
      IndexOfAt(name, '|', 3);
      assert name[..3] == "Ann";
    }
  }

  /** `maxTotalSeconds`: 1 for no rows (so that it can divide), else the largest total. */
  function MaxTotalSeconds(totals: seq<StudentTotal>): (m: int)
    ensures totals == [] ==> m == 1
    ensures forall i :: 0 <= i < |totals| ==> totals[i].totalSeconds <= m
    ensures totals != [] ==> exists i :: 0 <= i < |totals| && totals[i].totalSeconds == m
  {
    if |totals| == 0 then 1
    else if |totals| == 1 then totals[0].totalSeconds
    else
      var rest := MaxTotalSeconds(totals[1..]);
      if totals[0].totalSeconds >= rest then totals[0].totalSeconds else rest
  }

  // Rows per level: `pieChartDataByLevel`.

  function LevelOf(t: StudentTotal): int
  {
    t.level
  }

  function One(t: StudentTotal): int
  {
    1
  }

  function AtLevel(level: int): StudentTotal -> bool
  {
    (t: StudentTotal) => t.level == level
  }

  lemma {:induction false} SumOnes(s: seq<StudentTotal>)
    ensures Sum(s, One) == |s|
  {
    if s != [] { SumOnes(s[1..]); }
  }

  lemma LevelCount(totals: seq<StudentTotal>, level: int)
    ensures CountKey(totals, LevelOf, level) == |Filter(totals, AtLevel(level))|
  {
    CountKeyFilter(totals, LevelOf, One, level, AtLevel(level));
  }

  /** The comparator `Number(level a) - Number(level b)` read as "may precede". */
  function LowerLevelFirst(a: Group<StudentTotal, int>, b: Group<StudentTotal, int>): bool
  {
    a.key <= b.key
  }

  /** The colour of a level's slice; levels other than 100 to 400 are grey. */
  function LevelColor(level: int): string
  {
    if level == 100 then "#6366F1"
    else if level == 200 then "#14B8A6"
    else if level == 300 then "#F43F5E"
    else if level == 400 then "#F59E0B"
    else "#6B7280"
  }

  /** The number of rows per level, sorted by level. */
  function LevelCounts(totals: seq<StudentTotal>): seq<Group<StudentTotal, int>>
  {
    Sort(Tally(totals, LevelOf, One), LowerLevelFirst)
  }

  function LevelSlice(g: Group<StudentTotal, int>): Slice
  {
    Slice("Level " + IntToString(g.key), g.count, LevelColor(g.key))
  }

  /** `pieChartDataByLevel`. */
  function LevelPie(totals: seq<StudentTotal>): seq<Slice>
  {
    var gs := LevelCounts(totals);
    seq(|gs|, i requires 0 <= i < |gs| => LevelSlice(gs[i]))
  }

  /** The levels of the level pie, in slice order. */
  function PieLevels(totals: seq<StudentTotal>): seq<int>
  {
    Keys(LevelCounts(totals))
  }

  /** The slices are in strictly increasing order of level. */
  lemma LevelPieOrdered(totals: seq<StudentTotal>)
    ensures var levels := PieLevels(totals);
      |levels| == |LevelPie(totals)| && forall i, j :: 0 <= i < j < |levels| ==> levels[i] < levels[j]
  {
    assert TotalPreorder(LowerLevelFirst);
    SortSorted(Tally(totals, LevelOf, One), LowerLevelFirst);
    SortedDistinct(totals, LevelOf, One, LowerLevelFirst);
  }

  /** One slice per level that occurs among the rows; each slice counts the rows at its level and
      has that level's colour. */
  lemma LevelPieSlices(totals: seq<StudentTotal>)
    ensures var pie, levels := LevelPie(totals), PieLevels(totals);
      && (forall l :: l in levels <==> exists t :: t in totals && t.level == l)
      && (forall i :: 0 <= i < |pie| ==>
            pie[i] == Slice("Level " + IntToString(levels[i]), |Filter(totals, AtLevel(levels[i]))|,
              LevelColor(levels[i])))
  {
    var gs := LevelCounts(totals);
    forall i | 0 <= i < |gs|
      ensures gs[i].count == |Filter(totals, AtLevel(gs[i].key))|
      ensures exists t :: t in totals && t.level == gs[i].key
    {
      SortedEntry(totals, LevelOf, One, LowerLevelFirst, i);
      LevelCount(totals, gs[i].key);
    }
    forall t | t in totals
      ensures t.level in Keys(gs)
    {
      SortedHasKey(totals, LevelOf, One, LowerLevelFirst, t);
    }
  }

  /** The slices add up to the number of rows. */
  lemma LevelPieTotal(totals: seq<StudentTotal>)
    ensures Total(LevelPie(totals)) == |totals|
  {
    var hs := Tally(totals, LevelOf, One);
    SortSum(hs, LowerLevelFirst, GroupCount);
    TallySums(totals, LevelOf, One);
    SumPointwise(LevelPie(totals), LevelCounts(totals), SliceValue, GroupCount);
    SumOnes(totals);
  }

  // Totals per name and the name pie: `studentTotalsByName`, `pieChartDataByName`.

  function NameOf(s: CompletedSession): string
  {
    s.studentName
  }

  /** The names a plain JavaScript object `{}` already answers: the members of
      `Object.prototype`. */
  const InheritedNames: set<string> := {"constructor", "hasOwnProperty", "isPrototypeOf",
    "propertyIsEnumerable", "toLocaleString", "toString", "valueOf", "__proto__",
    "__defineGetter__", "__defineSetter__", "__lookupGetter__", "__lookupSetter__"}

  /** The session starts or grows an entry of `totals`. For an inherited name `totals[key]`
      finds the inherited member, which is truthy, so the seconds are added onto that member
      and no entry of the dictionary is made; `Object.values` never sees them. */
  predicate HasOwnEntry(s: CompletedSession)
  {
    s.studentName !in InheritedNames
  }

  function Named(name: string): CompletedSession -> bool
  {
    (s: CompletedSession) => s.studentName == name
  }

  lemma NameSum(sessions: seq<CompletedSession>, name: string)
    ensures SumKey(sessions, NameOf, SessionSeconds, name) == Sum(Filter(sessions, Named(name)), SessionSeconds)
  {
    CountKeyFilter(sessions, NameOf, SessionSeconds, name, Named(name));
  }

  /** The comparator `b.totalSeconds - a.totalSeconds` read as "may precede". */
  function MoreTimeFirst(a: Group<CompletedSession, string>, b: Group<CompletedSession, string>): bool
  {
    a.total >= b.total
  }

  /** `studentTotalsByName`: per name of its own, the total seconds, most time first. */
  function TotalsByName(sessions: seq<CompletedSession>): seq<Group<CompletedSession, string>>
  {
    Sort(Tally(Filter(sessions, HasOwnEntry), NameOf, SessionSeconds), MoreTimeFirst)
  }

  /** Most time first, and no name twice. */
  lemma TotalsByNameOrdered(sessions: seq<CompletedSession>)
    ensures var b := TotalsByName(sessions);
      && Pairwise(b, MoreTimeFirst)
      && (forall i, j :: 0 <= i < j < |b| ==> b[i].key != b[j].key)
  {
    var owned := Filter(sessions, HasOwnEntry);
    assert TotalPreorder(MoreTimeFirst);
    SortSorted(Tally(owned, NameOf, SessionSeconds), MoreTimeFirst);
    SortedDistinct(owned, NameOf, SessionSeconds, MoreTimeFirst);
  }

  /** One entry per name that occurs and is not inherited, each adding up exactly the seconds of
      that name's sessions; together they add up every session with a name of its own. */
  lemma TotalsByNameExact(sessions: seq<CompletedSession>)
    ensures var b := TotalsByName(sessions);
      && (forall n :: n in Keys(b) <==>
            n !in InheritedNames && exists s :: s in sessions && s.studentName == n)
      && (forall i :: 0 <= i < |b| ==>
            b[i].total == Sum(Filter(sessions, Named(b[i].key)), SessionSeconds))
      && Sum(b, GroupTotal) == Sum(Filter(sessions, HasOwnEntry), SessionSeconds)
  {
    var owned := Filter(sessions, HasOwnEntry);
    var b := TotalsByName(sessions);
    forall i | 0 <= i < |b|
      ensures b[i].key !in InheritedNames
      ensures b[i].total == Sum(Filter(sessions, Named(b[i].key)), SessionSeconds)
      ensures exists s :: s in sessions && s.studentName == b[i].key
    {
      SortedEntry(owned, NameOf, SessionSeconds, MoreTimeFirst, i);
      NameSum(owned, b[i].key);
      FilterNarrower(sessions, HasOwnEntry, Named(b[i].key));
    }
    forall s | s in sessions && HasOwnEntry(s)
      ensures s.studentName in Keys(b)
    {
      SortedHasKey(owned, NameOf, SessionSeconds, MoreTimeFirst, s);
    }
    SortSum(Tally(owned, NameOf, SessionSeconds), MoreTimeFirst, GroupTotal);
    TallySums(owned, NameOf, SessionSeconds);
  }

  const NamePalette: seq<string> := ["#6366F1", "#14B8A6", "#F43F5E", "#F59E0B", "#8B5CF6",
    "#3B82F6", "#EC4899", "#10B981", "#F97316", "#6B7280"]

  function NameSlice(g: Group<CompletedSession, string>): Slice
  {
    Slice(g.key, g.total, "")
  }

  /** `chartData.map((item, index) => ({...item, color: colors[index % colors.length]}))`. */
  function Colored(chart: seq<Slice>): seq<Slice>
  {
    seq(|chart|, i requires 0 <= i < |chart| => chart[i].(color := NamePalette[i % |NamePalette|]))
  }

  /** The slice data before colouring: the nine students with the most time, then one "Other
      Students" slice adding up everybody else when there is anybody else. */
  function NameChart(b: seq<Group<CompletedSession, string>>): seq<Slice>
  {
    var n := if |b| < 9 then |b| else 9;
    var top := seq(n, i requires 0 <= i < n => NameSlice(b[i]));
    if |b| > 9 then top + [Slice("Other Students", Sum(b[9..], GroupTotal), "")] else top
  }

  /** `pieChartDataByName`. */
  function NamePie(sessions: seq<CompletedSession>): seq<Slice>
  {
    var b := TotalsByName(sessions);
    if |b| == 0 then [] else Colored(NameChart(b))
  }

  lemma NameChartTotal(b: seq<Group<CompletedSession, string>>)
    ensures Total(NameChart(b)) == Sum(b, GroupTotal)
  {
    var n := if |b| < 9 then |b| else 9;
    var top := seq(n, i requires 0 <= i < n => NameSlice(b[i]));
    SumPointwise(top, b[..n], SliceValue, GroupTotal);
    assert b == b[..n] + b[n..];
    SumAppend(b[..n], b[n..], GroupTotal);
    if |b| > 9 {
      SumAppend(top, [Slice("Other Students", Sum(b[9..], GroupTotal), "")], SliceValue);
    } else {
      assert b[n..] == [];
    }
  }

  lemma ColoredNameChart(b: seq<Group<CompletedSession, string>>)
    ensures var pie := Colored(NameChart(b));
      && |pie| == (if |b| > 9 then 10 else |b|)
      && (forall i :: 0 <= i < |pie| && i < 9 ==> pie[i] == Slice(b[i].key, b[i].total, NamePalette[i]))
      && (|b| > 9 ==> pie[9] == Slice("Other Students", Sum(b[9..], GroupTotal), "#6B7280"))
  {
    var chart := NameChart(b);
    var pie := Colored(chart);
    var n := if |b| < 9 then |b| else 9;
    assert |chart| == (if |b| > 9 then 10 else |b|);
    forall i | 0 <= i < |pie| ensures pie[i] == chart[i].(color := NamePalette[i]) {
      assert i % |NamePalette| == i;
    }
    forall i | 0 <= i < n ensures chart[i] == NameSlice(b[i]) {
    }
    if |b| > 9 {
      assert chart[9] == Slice("Other Students", Sum(b[9..], GroupTotal), "");
      assert NamePalette[9] == "#6B7280";
    }
  }

  /** At most ten slices, none exactly when no session has a name of its own; the leading ones
      are the students with the most time, in that order, the tenth (when present) adds up the
      rest, and each slice has its own palette colour. */
  lemma NamePieSlices(sessions: seq<CompletedSession>)
    ensures var pie, b := NamePie(sessions), TotalsByName(sessions);
      && (pie == [] <==> forall s :: s in sessions ==> s.studentName in InheritedNames)
      && |pie| == (if |b| > 9 then 10 else |b|)
      && (forall i :: 0 <= i < |pie| && i < 9 ==> pie[i] == Slice(b[i].key, b[i].total, NamePalette[i]))
      && (|b| > 9 ==> pie[9] == Slice("Other Students", Sum(b[9..], GroupTotal), "#6B7280"))
  {
    var owned := Filter(sessions, HasOwnEntry);
    var b := TotalsByName(sessions);
    TallyEmpty(owned, NameOf, SessionSeconds);
    if owned != [] {
      assert owned[0] in owned;
    }
    if |b| > 0 {
      ColoredNameChart(b);
    }
  }

  /** The slices add up to the recorded seconds of every session with a name of its own. */
  lemma NamePieTotal(sessions: seq<CompletedSession>)
    ensures Total(NamePie(sessions)) == Sum(Filter(sessions, HasOwnEntry), SessionSeconds)
  {
    var b := TotalsByName(sessions);
    TallyEmpty(Filter(sessions, HasOwnEntry), NameOf, SessionSeconds);
    TotalsByNameExact(sessions);
    if |b| > 0 {
      SumPointwise(Colored(NameChart(b)), NameChart(b), SliceValue, SliceValue);
      NameChartTotal(b);
    }
  }

  /** A student called "constructor" gets no entry: one minute under that name leaves the pie
      empty, as if no session were logged. */
  lemma InheritedNameGetsNoSlice()
    ensures NamePie([CompletedSession("1", "constructor", 100, 0, 60000, Duration(0, 1, 0), None)]) == []
  {
    var s := CompletedSession("1", "constructor", 100, 0, 60000, Duration(0, 1, 0), None);
    NamePieSlices([s]);
  }
}
