/** Rebuilding one leaderboard window from the ledger with standard competition ranking. */
module Leaderboard {
  import opened Common
  import opened Points
  import PointsRuns

  datatype ScopeType = Team | Challenge
  datatype Scope = Scope(scopeType: ScopeType, scopeId: Id)
  datatype SnapshotRow = SnapshotRow(scope: Scope, person: Id, rank: nat, points: int, periodStart: int, periodEnd: int)

  datatype Standing = Standing(person: Id, points: int)

  /** The person's points in the half-open window `start <= createdAt < end`. */
  function WindowSum(ledger: seq<Entry>, person: Id, start: int, end: int): int {
    if ledger == [] then 0
    else
      var last := ledger[|ledger| - 1];
      WindowSum(ledger[..|ledger| - 1], person, start, end)
      + if last.person == person && start <= last.createdAt < end then last.points else 0
  }

  predicate HasRows(ledger: seq<Entry>, person: Id, start: int, end: int) {
    exists i :: 0 <= i < |ledger| && ledger[i].person == person && start <= ledger[i].createdAt < end
  }

  /** The grouped query: a total only for the members that have a row in the window. */
  function GroupTotals(ledger: seq<Entry>, members: seq<Id>, start: int, end: int): map<Id, int> {
    map p | p in members && HasRows(ledger, p, start, end) :: WindowSum(ledger, p, start, end)
  }

  lemma {:induction false} NoRowsNoPoints(ledger: seq<Entry>, person: Id, start: int, end: int)
    requires !HasRows(ledger, person, start, end)
    ensures WindowSum(ledger, person, start, end) == 0
  {
    if ledger != [] {
      var front, last := ledger[..|ledger| - 1], |ledger| - 1;
      assert !HasRows(front, person, start, end) by {
        assert forall i :: 0 <= i < last ==> front[i] == ledger[i];
      }
      NoRowsNoPoints(front, person, start, end);
      assert !(ledger[last].person == person && start <= ledger[last].createdAt < end);
    }
  }

  // ---------- sorting ----------

  predicate SortedDescending(s: seq<Standing>) {
    forall i, j :: 0 <= i < j < |s| ==> s[i].points >= s[j].points
  }

  /** Places `x` behind everything with at least as many points. */
  function InsertDescending(s: seq<Standing>, x: Standing): (r: seq<Standing>)
    ensures multiset(r) == multiset(s) + multiset{x}
  {
    if s == [] then [x]
    else if s[|s| - 1].points >= x.points then s + [x]
    else
      var front, last := s[..|s| - 1], s[|s| - 1];
      assert s == front + [last];
      InsertDescending(front, x) + [last]
  }

  /** A stable sort by points, highest first. */
  function SortDescending(s: seq<Standing>): (r: seq<Standing>)
    ensures multiset(r) == multiset(s)
  {
    if s == [] then []
    else
      assert s == s[..|s| - 1] + [s[|s| - 1]];
      InsertDescending(SortDescending(s[..|s| - 1]), s[|s| - 1])
  }

  lemma {:induction false} InsertSorts(s: seq<Standing>, x: Standing)
    requires SortedDescending(s)
    ensures SortedDescending(InsertDescending(s, x))
  {
    if s != [] && s[|s| - 1].points < x.points {
      var front, last := s[..|s| - 1], s[|s| - 1];
      InsertSorts(front, x);
      forall y | y in InsertDescending(front, x) ensures y.points >= last.points {
        assert y in multiset(front) + multiset{x};
        assert y == x || y in front;
      }
    }
  }

  lemma {:induction false} SortSorts(s: seq<Standing>)
    ensures SortedDescending(SortDescending(s))
  {
    if s != [] {
      SortSorts(s[..|s| - 1]);
      InsertSorts(SortDescending(s[..|s| - 1]), s[|s| - 1]);
    }
  }

  // ---------- ranks ----------

  /** The members with strictly more points. */
  function Better(ledger: seq<Entry>, members: seq<Id>, points: int, start: int, end: int): set<Id> {
    set p | p in members && WindowSum(ledger, p, start, end) > points
  }

  predicate PersonsDistinct(s: seq<Standing>) {
    forall i, j :: 0 <= i < j < |s| ==> s[i].person != s[j].person
  }

  function Persons(s: seq<Standing>): seq<Id> {
    seq(|s|, i requires 0 <= i < |s| => s[i].person)
  }

  /** The sorted standings: each distinct member once, with its points in the window. */
  ghost predicate Roster(ranked: seq<Standing>, ledger: seq<Entry>, members: seq<Id>, start: int, end: int) {
    && SortedDescending(ranked) && PersonsDistinct(ranked)
    && (forall i :: 0 <= i < |ranked| ==> ranked[i].person in members && ranked[i].points == WindowSum(ledger, ranked[i].person, start, end))
    && (forall p :: p in members ==> exists i :: 0 <= i < |ranked| && ranked[i].person == p)
  }

  /** Where the points first drop to a value, the index counts the members with more. */
  lemma FirstOfTieGroup(ranked: seq<Standing>, ledger: seq<Entry>, members: seq<Id>, start: int, end: int, i: nat)
    requires Roster(ranked, ledger, members, start, end) && i < |ranked|
    requires i == 0 || ranked[i - 1].points != ranked[i].points
    ensures |Better(ledger, members, ranked[i].points, start, end)| == i
  {
    hide WindowSum;
    var ahead := Persons(ranked[..i]);
    assert NoDuplicates(ahead);
    DistinctCount(ahead);
    var better := Better(ledger, members, ranked[i].points, start, end);
    forall p ensures p in better <==> p in Elements(ahead) {
      if p in better {
        var k :| 0 <= k < |ranked| && ranked[k].person == p;
        assert k < i && ahead[k] == p;
      }
      if p in Elements(ahead) {
        var k :| 0 <= k < i && ahead[k] == p;
        assert ranked[k].person == p && ranked[k].points >= ranked[i - 1].points > ranked[i].points;
      }
    }
    assert better == Elements(ahead);
  }

  // ---------- the rebuild ----------

  predicate InSnapshot(row: SnapshotRow, scope: Scope, start: int) {
    row.scope == scope && row.periodStart == start
  }

  function Kept(rows: seq<SnapshotRow>, scope: Scope, start: int): seq<SnapshotRow> {
    if rows == [] then []
    else
      Kept(rows[..|rows| - 1], scope, start)
      + if InSnapshot(rows[|rows| - 1], scope, start) then [] else [rows[|rows| - 1]]
  }

  /** A row carries the member's points in the window and one plus the number of members ahead of it. */
  ghost predicate CorrectRow(row: SnapshotRow, ledger: seq<Entry>, members: seq<Id>, scope: Scope, start: int, end: int) {
    && row.scope == scope && row.periodStart == start && row.periodEnd == end
    && row.person in members
    && row.points == WindowSum(ledger, row.person, start, end)
    && row.rank == 1 + |Better(ledger, members, row.points, start, end)|
  }

  lemma RankedRowIsCorrect(ranked: seq<Standing>, ledger: seq<Entry>, members: seq<Id>, scope: Scope, start: int, end: int, i: nat, rank: nat)
    requires Roster(ranked, ledger, members, start, end) && i < |ranked|
    requires rank == 1 + |Better(ledger, members, ranked[i].points, start, end)|
    ensures CorrectRow(SnapshotRow(scope, ranked[i].person, rank, ranked[i].points, start, end), ledger, members, scope, start, end)
  {
  }

  lemma RankedRowsAreTheSnapshot(ranked: seq<Standing>, added: seq<SnapshotRow>, ledger: seq<Entry>, members: seq<Id>,
                                 scope: Scope, start: int, end: int)
    requires Roster(ranked, ledger, members, start, end) && |added| == |ranked|
    requires forall i :: 0 <= i < |added| ==> added[i].person == ranked[i].person
    requires forall i :: 0 <= i < |added| ==> CorrectRow(added[i], ledger, members, scope, start, end)
    ensures CorrectSnapshot(added, ledger, members, scope, start, end)
  {
  }

  class LeaderboardStore {
    var rows: seq<SnapshotRow>

    constructor ()
      ensures rows == []
    {
      rows := [];
    }

    method Standings(ledger: seq<Entry>, members: seq<Id>, start: int, end: int) returns (ranked: seq<Standing>)
      ensures Roster(ranked, ledger, members, start, end)
    {
      var totals := GroupTotals(ledger, members, start, end);
      var distinct := Distinct(members);
      var unsorted := seq(|distinct|, i requires 0 <= i < |distinct| =>
        Standing(distinct[i], if distinct[i] in totals then totals[distinct[i]] else 0));
      ranked := SortDescending(unsorted);
      forall i | 0 <= i < |unsorted| ensures unsorted[i].points == WindowSum(ledger, unsorted[i].person, start, end) {
        if unsorted[i].person !in totals {
          NoRowsNoPoints(ledger, unsorted[i].person, start, end);
        }
      }
      SortSorts(unsorted);
      SortKeepsRoster(unsorted, ranked);
      forall p | p in members ensures exists i :: 0 <= i < |ranked| && ranked[i].person == p {
        var k :| 0 <= k < |distinct| && distinct[k] == p;
        assert unsorted[k] in multiset(unsorted);
        assert unsorted[k] in ranked;
      }
      forall i | 0 <= i < |ranked| ensures ranked[i].person in members && ranked[i].points == WindowSum(ledger, ranked[i].person, start, end) {
        assert ranked[i] in multiset(ranked);
        assert ranked[i] in unsorted;
      }
    }

    /** An empty member list returns at once and leaves even the old rows of the window in place. */
    method RebuildLeaderboardSnapshot(ledger: seq<Entry>, scope: Scope, members: seq<Id>, start: int, end: int)
      modifies this
      ensures members == [] ==> rows == old(rows)
      ensures members != [] ==>
        var kept := Kept(old(rows), scope, start);
        kept <= rows && CorrectSnapshot(rows[|kept|..], ledger, members, scope, start, end)
    {
      if |members| == 0 {
        return;
      }
      var ranked := Standings(ledger, members, start, end);
      rows := Kept(rows, scope, start);
      CreateRows(ranked, ledger, scope, members, start, end);
    }

    /** The rank loop: ties share a rank, the next lower score skips ahead. */
    method CreateRows(ranked: seq<Standing>, ghost ledger: seq<Entry>, scope: Scope, ghost members: seq<Id>, start: int, end: int)
      requires Roster(ranked, ledger, members, start, end)
      modifies this
      ensures old(rows) <= rows && CorrectSnapshot(rows[|old(rows)|..], ledger, members, scope, start, end)
    {
      hide Roster, CorrectRow, CorrectSnapshot, Better;
      var rank := 0;
      var previousPoints: Option<int> := None;
      ghost var added: seq<SnapshotRow> := [];
      for index := 0 to |ranked|
        invariant rows == old(rows) + added && |added| == index
        invariant previousPoints == if index == 0 then None else Some(ranked[index - 1].points)
        invariant index > 0 ==> rank == 1 + |Better(ledger, members, ranked[index - 1].points, start, end)|
        invariant forall i :: 0 <= i < index ==> added[i].person == ranked[i].person
        invariant forall i :: 0 <= i < index ==> CorrectRow(added[i], ledger, members, scope, start, end)
      {
        var entry := ranked[index];
        if previousPoints.None? || entry.points != previousPoints.value {
          FirstOfTieGroup(ranked, ledger, members, start, end, index);
          rank := index + 1;
        }
        previousPoints := Some(entry.points);
        var row := SnapshotRow(scope, entry.person, rank, entry.points, start, end);
        RankedRowIsCorrect(ranked, ledger, members, scope, start, end, index, rank);
        rows := rows + [row];
        added := added + [row];
      }
      assert rows[|old(rows)|..] == added;
      RankedRowsAreTheSnapshot(ranked, added, ledger, members, scope, start, end);
    }
  }

  /** One correct row for each distinct member, and no other. */
  ghost predicate CorrectSnapshot(added: seq<SnapshotRow>, ledger: seq<Entry>, members: seq<Id>, scope: Scope, start: int, end: int) {
    && (forall i :: 0 <= i < |added| ==> CorrectRow(added[i], ledger, members, scope, start, end))
    && (forall i, j :: 0 <= i < j < |added| ==> added[i].person != added[j].person)
    && (forall p :: p in members ==> exists i :: 0 <= i < |added| && added[i].person == p)
  }

  lemma SortKeepsRoster(unsorted: seq<Standing>, ranked: seq<Standing>)
    requires multiset(ranked) == multiset(unsorted) && PersonsDistinct(unsorted)
    ensures PersonsDistinct(ranked)
  {
    forall i, j | 0 <= i < j < |ranked| ensures ranked[i].person != ranked[j].person {
      if ranked[i].person == ranked[j].person {
        assert ranked == ranked[..j] + ranked[j..] && ranked[i] in ranked[..j] && ranked[j] in ranked[j..];
        assert ranked[i] in multiset(unsorted) && ranked[j] in multiset(unsorted);
        var a :| 0 <= a < |unsorted| && unsorted[a] == ranked[i];
        var b :| 0 <= b < |unsorted| && unsorted[b] == ranked[j];
        assert a == b;
        assert multiset(ranked)[ranked[i]] >= 2;
        OnceWhenDistinct(unsorted, a);
      }
    }
  }

  lemma OnceWhenDistinct(s: seq<Standing>, a: nat)
    requires PersonsDistinct(s) && a < |s|
    ensures multiset(s)[s[a]] == 1
  {
    var before, after := s[..a], s[a + 1..];
    assert s == before + [s[a]] + after;
    assert s[a] !in before && s[a] !in after;
  }

  // ---------- what the rows mean against the ledger ----------

  /** No snapshot key (scope, person, start of period) is ever used twice. */
  ghost predicate SnapshotKeysUnique(rows: seq<SnapshotRow>) {
    forall i, j :: 0 <= i < j < |rows| ==> !SameSnapshotKey(rows[i], rows[j])
  }

  lemma {:induction false} KeptFacts(rows: seq<SnapshotRow>, scope: Scope, start: int)
    ensures forall row :: row in Kept(rows, scope, start) <==> row in rows && !(row.scope == scope && row.periodStart == start)
  {
    if rows != [] {
      KeptFacts(rows[..|rows| - 1], scope, start);
      assert rows == rows[..|rows| - 1] + [rows[|rows| - 1]];
    }
  }

  predicate SameSnapshotKey(a: SnapshotRow, b: SnapshotRow) {
    a.scope == b.scope && a.person == b.person && a.periodStart == b.periodStart
  }

  lemma {:induction false} KeptStaysUnique(rows: seq<SnapshotRow>, scope: Scope, start: int)
    requires SnapshotKeysUnique(rows)
    ensures SnapshotKeysUnique(Kept(rows, scope, start))
  {
    if rows != [] {
      var front, last := rows[..|rows| - 1], rows[|rows| - 1];
      KeptStaysUnique(front, scope, start);
      KeptFacts(front, scope, start);
      var kept := Kept(front, scope, start);
      forall i | 0 <= i < |kept| ensures !SameSnapshotKey(kept[i], last) {
        assert kept[i] in kept;
        var a :| 0 <= a < |front| && front[a] == kept[i];
        assert !SameSnapshotKey(rows[a], rows[|rows| - 1]);
      }
    }
  }

  /** A rebuild never breaks the snapshot table's unique key. */
  lemma RebuildKeepsKeysUnique(before: seq<SnapshotRow>, added: seq<SnapshotRow>, ledger: seq<Entry>, members: seq<Id>,
                               scope: Scope, start: int, end: int)
    requires SnapshotKeysUnique(before) && CorrectSnapshot(added, ledger, members, scope, start, end)
    ensures SnapshotKeysUnique(Kept(before, scope, start) + added)
  {
    var kept := Kept(before, scope, start);
    var rows := kept + added;
    KeptFacts(before, scope, start);
    KeptStaysUnique(before, scope, start);
    forall i, j | 0 <= i < j < |rows| ensures !SameSnapshotKey(rows[i], rows[j]) {
      if j >= |kept| {
        assert CorrectRow(added[j - |kept|], ledger, members, scope, start, end);
        if i < |kept| {
          assert kept[i] in kept;
        }
      }
    }
  }

  /** Adjacent windows add up. */
  lemma {:induction false} WindowsAdd(ledger: seq<Entry>, person: Id, start: int, middle: int, end: int)
    requires start <= middle <= end
    ensures WindowSum(ledger, person, start, middle) + WindowSum(ledger, person, middle, end) == WindowSum(ledger, person, start, end)
  {
    if ledger != [] {
      WindowsAdd(ledger[..|ledger| - 1], person, start, middle, end);
    }
  }

  lemma {:induction false} FullWindowIsSum(ledger: seq<Entry>, person: Id, start: int, end: int)
    requires forall i :: 0 <= i < |ledger| ==> start <= ledger[i].createdAt < end
    ensures WindowSum(ledger, person, start, end) == PointsRuns.Sum(ledger, person)
  {
    if ledger != [] {
      FullWindowIsSum(ledger[..|ledger| - 1], person, start, end);
    }
  }

  /** Rows before the start, or at or after the end, count for nothing. */
  lemma {:induction false} OutsideCountsNothing(ledger: seq<Entry>, person: Id, start: int, end: int)
    requires forall i :: 0 <= i < |ledger| ==> ledger[i].createdAt < start || end <= ledger[i].createdAt
    ensures WindowSum(ledger, person, start, end) == 0
    decreases |ledger|
  {
    if ledger != [] {
      OutsideCountsNothing(ledger[..|ledger| - 1], person, start, end);
    }
  }

  /** After any run of the points engine, a window covering every entry agrees with the balance projection. */
  lemma FullWindowIsBalance(steps: seq<PointsRuns.Step>, person: Id, start: int, end: int)
    requires forall i :: 0 <= i < |PointsRuns.Run(steps).ledger| ==> start <= PointsRuns.Run(steps).ledger[i].createdAt < end
    ensures WindowSum(PointsRuns.Run(steps).ledger, person, start, end) == Balance(PointsRuns.Run(steps), person)
  {
    FullWindowIsSum(PointsRuns.Run(steps).ledger, person, start, end);
    PointsRuns.BalanceIsLedgerSum(steps);
  }
}
