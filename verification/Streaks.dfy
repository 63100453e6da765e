/** Week arithmetic on instants given as milliseconds since the epoch (section 21.4.1 of ECMA-262). */
module Calendar {
  const MS_PER_DAY := 86_400_000
  const MS_PER_WEEK := 7 * 24 * 60 * 60 * 1000

  /** `Day(t)`; floors for instants before the epoch too. */
  function Day(t: int): int {
    t / MS_PER_DAY
  }

  function UtcMidnight(t: int): int {
    Day(t) * MS_PER_DAY
  }

  /** `WeekDay(t)`: 0 is Sunday; day 0 was a Thursday. */
  function WeekDay(t: int): int {
    (Day(t) + 4) % 7
  }

  /** Midnight of the Monday starting the week of `date`. */
  function StartOfIsoWeek(date: int): int {
    var midnight := UtcMidnight(date);
    var daysSinceMonday := (WeekDay(midnight) + 6) % 7;
    midnight - daysSinceMonday * MS_PER_DAY
  }

  /** `Math.round(n / d)`: the nearest integer, halves upward. */
  function RoundDiv(n: int, d: int): int
    requires d > 0
  {
    (2 * n + d) / (2 * d)
  }

  function WeeksBetween(from: int, to: int): int {
    RoundDiv(StartOfIsoWeek(to) - StartOfIsoWeek(from), MS_PER_WEEK)
  }

  /** An independent count: Monday-to-Sunday windows since the one that begins on day -3. */
  function Week(t: int): int {
    (Day(t) + 3) / 7
  }

  lemma MidnightOfMidnight(t: int)
    ensures Day(UtcMidnight(t)) == Day(t) && UtcMidnight(t) <= t < UtcMidnight(t) + MS_PER_DAY
  {
  }

  lemma StartIsWeekTimesLength(t: int)
    ensures StartOfIsoWeek(t) == Week(t) * MS_PER_WEEK - 3 * MS_PER_DAY
  {
    MidnightOfMidnight(t);
    var day := Day(t);
    assert day + 3 == 7 * Week(t) + (day + 3) % 7;
    assert (WeekDay(UtcMidnight(t)) + 6) % 7 == (day + 3) % 7;
  }

  /** The start is a Monday at midnight, and the instant lies in the seven days it opens. */
  lemma StartOfIsoWeekIsItsMonday(t: int)
    ensures WeekDay(StartOfIsoWeek(t)) == 1 && UtcMidnight(StartOfIsoWeek(t)) == StartOfIsoWeek(t)
    ensures StartOfIsoWeek(t) <= t < StartOfIsoWeek(t) + 604_800_000
  {
    StartIsWeekTimesLength(t);
    MidnightOfMidnight(t);
    var monday := 7 * Week(t) - 3;
    assert StartOfIsoWeek(t) == monday * MS_PER_DAY;
    assert Day(StartOfIsoWeek(t)) == monday;
    assert monday <= Day(t) < monday + 7;
  }

  /** Week starts are whole weeks away from 5 January 1970, the first Monday of the epoch. */
  lemma WeekStartsAreWholeWeeksApart(t: int) returns (k: int)
    ensures StartOfIsoWeek(t) == 345_600_000 + k * 604_800_000
  {
    StartIsWeekTimesLength(t);
    k := Week(t) - 1;
  }

  lemma RoundOfMultiple(k: int)
    ensures RoundDiv(k * MS_PER_WEEK, MS_PER_WEEK) == k
  {
  }

  /** The rounded quotient is exact, so week differences add up. */
  lemma WeeksBetweenIsExact(from: int, to: int)
    ensures WeeksBetween(from, to) == Week(to) - Week(from)
  {
    StartIsWeekTimesLength(from);
    StartIsWeekTimesLength(to);
    var k := Week(to) - Week(from);
    assert StartOfIsoWeek(to) - StartOfIsoWeek(from) == k * MS_PER_WEEK;
    RoundOfMultiple(k);
  }

  lemma WeeksBetweenAdds(a: int, b: int, c: int)
    ensures WeeksBetween(a, c) == WeeksBetween(a, b) + WeeksBetween(b, c)
  {
    WeeksBetweenIsExact(a, b);
    WeeksBetweenIsExact(b, c);
    WeeksBetweenIsExact(a, c);
  }

  /** Zero weeks apart means exactly: in the same Monday-to-Sunday window. */
  lemma SameWeekExactlyWhen(a: int, b: int)
    ensures WeeksBetween(a, b) == 0 <==> StartOfIsoWeek(a) <= b < StartOfIsoWeek(a) + MS_PER_WEEK
  {
    WeeksBetweenIsExact(a, b);
    StartIsWeekTimesLength(a);
    StartIsWeekTimesLength(b);
    StartOfIsoWeekIsItsMonday(b);
  }

  lemma TruncationKeepsWeek(t: int)
    ensures Week(UtcMidnight(t)) == Week(t)
  {
  }
}

/** The streak state machine, and the closed form it computes. */
module Streaks {
  import opened Common
  import opened Calendar

  datatype StreakStatus = Active | Frozen | Broken

  datatype StreakState = StreakState(
    currentLength: nat, longestLength: nat, lastActivityDate: Option<int>,
    freezesAvailable: int, freezesUsedTotal: nat, status: StreakStatus)

  datatype Kind = Extended | FreezeUsed | Reset | Unchanged

  datatype Outcome = Outcome(kind: Kind, state: StreakState)

  const MAX_FREEZES := 2

  function InitialStreakState(maxFreezes: nat): StreakState {
    StreakState(0, 0, None, maxFreezes, 0, Active)
  }

  function Max(a: nat, b: nat): nat {
    if a < b then b else a
  }

  function Min(a: int, b: int): int {
    if a < b then a else b
  }

  function ApplyStreakActivity(current: Option<StreakState>, activityDate: int, maxFreezes: nat): Outcome {
    var base := match current case Some(s) => s case None => InitialStreakState(maxFreezes);
    if base.lastActivityDate.None? then
      Outcome(Extended, base.(currentLength := 1, longestLength := Max(base.longestLength, 1),
                              lastActivityDate := Some(activityDate), status := Active))
    else
      var weekDiff := WeeksBetween(base.lastActivityDate.value, activityDate);
      if weekDiff <= 0 then Outcome(Unchanged, base)
      else if weekDiff == 1 then
        var currentLength := base.currentLength + 1;
        Outcome(Extended, base.(currentLength := currentLength, longestLength := Max(base.longestLength, currentLength),
                                lastActivityDate := Some(activityDate), status := Active))
      else if base.freezesAvailable > 0 then
        Outcome(FreezeUsed, base.(freezesAvailable := Min(maxFreezes, base.freezesAvailable - 1),
                                  freezesUsedTotal := base.freezesUsedTotal + 1,
                                  lastActivityDate := Some(activityDate), status := Frozen))
      else
        Outcome(Reset, base.(currentLength := 0, lastActivityDate := Some(activityDate), status := Broken))
  }

  /** The state after these activities, whatever their order in time. */
  function StreakAfter(dates: seq<int>, maxFreezes: nat): Option<StreakState> {
    if dates == [] then None
    else Some(ApplyStreakActivity(StreakAfter(dates[..|dates| - 1], maxFreezes), dates[|dates| - 1], maxFreezes).state)
  }

  // ---------- the closed form ----------

  /** The k-th activity falls in a later week than every activity before it. */
  predicate OpensNewWeek(dates: seq<int>, k: int)
    requires 0 <= k < |dates|
  {
    forall j :: 0 <= j < k ==> Week(dates[j]) < Week(dates[k])
  }

  /** The activities that open a new week: the strict running maxima. */
  function Records(dates: seq<int>): seq<int> {
    if dates == [] then []
    else
      var last := |dates| - 1;
      Records(dates[..last]) + if OpensNewWeek(dates, last) then [dates[last]] else []
  }

  /** At least one whole week was missed before record `j`. */
  predicate Gap(r: seq<int>, j: int) {
    0 < j < |r| && Week(r[j]) - Week(r[j - 1]) > 1
  }

  function GapsUpTo(r: seq<int>, j: int): set<int> {
    set i | 0 <= i <= j && Gap(r, i)
  }

  /** A gap after the freezes ran out. */
  predicate Unforgiven(r: seq<int>, j: int, maxFreezes: nat) {
    Gap(r, j) && |GapsUpTo(r, j)| > maxFreezes
  }

  predicate NoResetAfter(r: seq<int>, j: int, maxFreezes: nat) {
    forall k :: j < k < |r| ==> !Unforgiven(r, k, maxFreezes)
  }

  /** The records that count toward the current length: not themselves gaps, and no unforgiven gap since. */
  function Credited(r: seq<int>, maxFreezes: nat): set<int> {
    set j | 0 <= j < |r| && !Gap(r, j) && NoResetAfter(r, j, maxFreezes)
  }

  ghost predicate IsBestOverPrefixes(best: nat, r: seq<int>, maxFreezes: nat) {
    && (forall i :: 0 <= i <= |r| ==> |Credited(r[..i], maxFreezes)| <= best)
    && (exists i :: 0 <= i <= |r| && |Credited(r[..i], maxFreezes)| == best)
  }

  ghost predicate ClosedForm(state: StreakState, r: seq<int>, maxFreezes: nat)
    requires r != []
  {
    var last := |r| - 1;
    var gaps := |GapsUpTo(r, last)|;
    && state.lastActivityDate == Some(r[last])
    && state.currentLength == |Credited(r, maxFreezes)|
    && IsBestOverPrefixes(state.longestLength, r, maxFreezes)
    && state.freezesUsedTotal == Min(gaps, maxFreezes)
    && state.freezesAvailable == maxFreezes - Min(gaps, maxFreezes)
    && state.status == (if !Gap(r, last) then Active else if Unforgiven(r, last, maxFreezes) then Broken else Frozen)
  }

  // ---------- how the closed form grows by one record ----------

  lemma GapSnoc(r: seq<int>, d: int, j: int)
    requires j < |r|
    ensures Gap(r + [d], j) == Gap(r, j) && GapsUpTo(r + [d], j) == GapsUpTo(r, j)
  {
  }

  lemma UnforgivenSnoc(r: seq<int>, d: int, j: int, maxFreezes: nat)
    requires j < |r|
    ensures Unforgiven(r + [d], j, maxFreezes) == Unforgiven(r, j, maxFreezes)
  {
    GapSnoc(r, d, j);
  }

  lemma GapsSnoc(r: seq<int>, d: int)
    ensures |GapsUpTo(r + [d], |r|)| == |GapsUpTo(r, |r| - 1)| + if Gap(r + [d], |r|) then 1 else 0
  {
    var n := |r|;
    GapSnoc(r, d, n - 1);
    assert GapsUpTo(r + [d], n) == GapsUpTo(r + [d], n - 1) + if Gap(r + [d], n) then {n} else {};
  }

  lemma NoResetSnoc(r: seq<int>, d: int, j: int, maxFreezes: nat)
    requires 0 <= j < |r|
    ensures NoResetAfter(r + [d], j, maxFreezes) <==> NoResetAfter(r, j, maxFreezes) && !Unforgiven(r + [d], |r|, maxFreezes)
  {
    forall k | 0 <= k < |r| ensures Unforgiven(r + [d], k, maxFreezes) == Unforgiven(r, k, maxFreezes) {
      UnforgivenSnoc(r, d, k, maxFreezes);
    }
  }

  lemma CreditedSnoc(r: seq<int>, d: int, maxFreezes: nat)
    ensures Credited(r + [d], maxFreezes) ==
            if Unforgiven(r + [d], |r|, maxFreezes) then {}
            else Credited(r, maxFreezes) + if Gap(r + [d], |r|) then {} else {|r|}
  {
    var s := r + [d];
    forall j | 0 <= j < |r| ensures j in Credited(s, maxFreezes) <==> j in Credited(r, maxFreezes) && !Unforgiven(s, |r|, maxFreezes) {
      GapSnoc(r, d, j);
      NoResetSnoc(r, d, j, maxFreezes);
    }
    assert NoResetAfter(s, |r|, maxFreezes);
  }

  lemma BestSnoc(best: nat, r: seq<int>, d: int, maxFreezes: nat)
    requires IsBestOverPrefixes(best, r, maxFreezes)
    ensures IsBestOverPrefixes(Max(best, |Credited(r + [d], maxFreezes)|), r + [d], maxFreezes)
  {
    var s, n := r + [d], |r|;
    forall i | 0 <= i <= n ensures s[..i] == r[..i] {
    }
    assert s[..n + 1] == s;
    var i :| 0 <= i <= n && |Credited(r[..i], maxFreezes)| == best;
    assert |Credited(s[..i], maxFreezes)| == best;
  }

  /** One more record moves the state exactly as one call of `ApplyStreakActivity` does. */
  lemma RecordStep(state: StreakState, r: seq<int>, d: int, maxFreezes: nat)
    requires r != [] && ClosedForm(state, r, maxFreezes) && Week(d) > Week(r[|r| - 1])
    ensures ClosedForm(ApplyStreakActivity(Some(state), d, maxFreezes).state, r + [d], maxFreezes)
  {
    var n, s := |r|, r + [d];
    WeeksBetweenIsExact(r[n - 1], d);
    GapsSnoc(r, d);
    CreditedSnoc(r, d, maxFreezes);
    BestSnoc(state.longestLength, r, d, maxFreezes);
    assert Gap(s, n) <==> Week(d) - Week(r[n - 1]) > 1;
    assert |Credited(r, maxFreezes)| <= state.longestLength by {
      assert r[..n] == r;
    }
    if !Gap(s, n) {
      assert n !in Credited(r, maxFreezes);
    }
  }

  lemma FirstRecord(d: int, maxFreezes: nat)
    ensures ClosedForm(ApplyStreakActivity(None, d, maxFreezes).state, [d], maxFreezes)
  {
    assert !Gap([d], 0) && GapsUpTo([d], 0) == {};
    assert Credited([d], maxFreezes) == {0};
    assert [d][..0] == [] && [d][..1] == [d];
    assert Credited([], maxFreezes) == {};
  }

  // ---------- the machine computes the closed form ----------

  lemma {:induction false} LastRecordIsLatest(dates: seq<int>)
    requires dates != []
    ensures Records(dates) != []
    ensures forall k :: 0 <= k < |dates| ==> Week(dates[k]) <= Week(Records(dates)[|Records(dates)| - 1])
  {
    var last := |dates| - 1;
    if last == 0 {
      assert OpensNewWeek(dates, 0);
      assert Records(dates) == [dates[0]];
    } else {
      var front := dates[..last];
      LastRecordIsLatest(front);
      assert forall k :: 0 <= k < last ==> front[k] == dates[k];
      if !OpensNewWeek(dates, last) {
        var j :| 0 <= j < last && Week(dates[j]) >= Week(dates[last]);
        assert Week(front[j]) <= Week(Records(front)[|Records(front)| - 1]);
      }
    }
  }

  lemma {:induction false} RecordsAreMembers(dates: seq<int>, x: int)
    requires x in Records(dates)
    ensures exists k :: 0 <= k < |dates| && dates[k] == x
  {
    var last := |dates| - 1;
    if x in Records(dates[..last]) {
      RecordsAreMembers(dates[..last], x);
      var k :| 0 <= k < last && dates[..last][k] == x;
      assert dates[k] == x;
    } else {
      assert dates[last] == x;
    }
  }

  /**
   * After any activities in any order the state is the closed form over the weeks opened: the first
   * `maxFreezes` gaps are forgiven, every later gap resets, the longest length is the best over all
   * prefixes, and freezes are conserved.
   */
  lemma {:induction false} StreakIsClosedForm(dates: seq<int>, maxFreezes: nat)
    requires dates != []
    ensures Records(dates) != [] && StreakAfter(dates, maxFreezes).Some?
    ensures ClosedForm(StreakAfter(dates, maxFreezes).value, Records(dates), maxFreezes)
  {
    var last := |dates| - 1;
    var front, d := dates[..last], dates[last];
    LastRecordIsLatest(dates);
    if front == [] {
      FirstRecord(d, maxFreezes);
      assert OpensNewWeek(dates, 0);
      assert Records(dates) == [d];
    } else {
      StreakIsClosedForm(front, maxFreezes);
      LastRecordIsLatest(front);
      var r := Records(front);
      var latest := r[|r| - 1];
      RecordsAreMembers(front, latest);
      var k :| 0 <= k < last && front[k] == latest;
      WeeksBetweenIsExact(latest, d);
      if OpensNewWeek(dates, last) {
        assert Week(dates[k]) < Week(d);
        RecordStep(StreakAfter(front, maxFreezes).value, r, d, maxFreezes);
      } else {
        var j :| 0 <= j < last && Week(dates[j]) >= Week(d);
        assert Week(front[j]) <= Week(latest);
        assert Records(dates) == r;
      }
    }
  }

  /**
   * What an activity does is told by the weeks alone: nothing unless it opens a new week, an extension without a
   * gap, a freeze for a forgiven gap, a reset for an unforgiven one.
   */
  lemma KindTellsTheGap(dates: seq<int>, d: int, maxFreezes: nat)
    ensures var all := dates + [d];
      var kind, r := ApplyStreakActivity(StreakAfter(dates, maxFreezes), d, maxFreezes).kind, Records(all);
      && r != []
      && (kind == Unchanged <==> !OpensNewWeek(all, |dates|))
      && (kind == Extended <==> OpensNewWeek(all, |dates|) && !Gap(r, |r| - 1))
      && (kind == FreezeUsed <==> OpensNewWeek(all, |dates|) && Gap(r, |r| - 1) && |GapsUpTo(r, |r| - 1)| <= maxFreezes)
      && (kind == Reset <==> OpensNewWeek(all, |dates|) && Gap(r, |r| - 1) && |GapsUpTo(r, |r| - 1)| > maxFreezes)
  {
    hide Records, GapsUpTo, Gap, Credited, IsBestOverPrefixes;
    var all := dates + [d];
    assert all[..|dates|] == dates;
    StreakIsClosedForm(all, maxFreezes);
    OpensExactlyWhenChanged(dates, d, maxFreezes);
  }

  lemma OpensExactlyWhenChanged(dates: seq<int>, d: int, maxFreezes: nat)
    ensures ApplyStreakActivity(StreakAfter(dates, maxFreezes), d, maxFreezes).kind == Unchanged <==> !OpensNewWeek(dates + [d], |dates|)
  {
    if dates != [] {
      StreakIsClosedForm(dates, maxFreezes);
      LastRecordIsLatest(dates);
      var r := Records(dates);
      var latest := r[|r| - 1];
      RecordsAreMembers(dates, latest);
      var k :| 0 <= k < |dates| && dates[k] == latest;
      assert (dates + [d])[k] == latest;
      WeeksBetweenIsExact(latest, d);
    }
  }

  lemma FreezesAreConserved(dates: seq<int>, maxFreezes: nat)
    requires dates != []
    ensures var s := StreakAfter(dates, maxFreezes);
      s.Some? && 0 <= s.value.freezesAvailable <= maxFreezes && s.value.freezesAvailable + s.value.freezesUsedTotal == maxFreezes
  {
  }

  // ---------- storing the state ----------

  /** The stored column is a calendar date, so the time of day is lost. */
  function Stored(s: StreakState): StreakState {
    match s.lastActivityDate
    case None => s
    case Some(t) => s.(lastActivityDate := Some(UtcMidnight(t)))
  }

  /** Nothing depends on the time of day the store loses. */
  lemma StoringLosesNothing(s: StreakState, d: int, maxFreezes: nat)
    ensures var stored := ApplyStreakActivity(Some(Stored(s)), d, maxFreezes);
            var kept := ApplyStreakActivity(Some(s), d, maxFreezes);
            stored.kind == kept.kind && Stored(stored.state) == Stored(kept.state)
  {
    if s.lastActivityDate.Some? {
      var t := s.lastActivityDate.value;
      TruncationKeepsWeek(t);
      MidnightOfMidnight(t);
      WeeksBetweenIsExact(t, d);
      WeeksBetweenIsExact(UtcMidnight(t), d);
    }
  }

  /** An activity no later than the stored week changes nothing. */
  lemma OldActivityIsNoOp(s: StreakState, d: int, maxFreezes: nat)
    requires s.lastActivityDate.Some? && Week(d) <= Week(s.lastActivityDate.value)
    ensures ApplyStreakActivity(Some(s), d, maxFreezes) == Outcome(Unchanged, s)
  {
    WeeksBetweenIsExact(s.lastActivityDate.value, d);
  }

  /** The stored week only moves forward and ends at or past the activity's week. */
  lemma WeekMovesForward(current: Option<StreakState>, d: int, maxFreezes: nat)
    ensures var next := ApplyStreakActivity(current, d, maxFreezes).state;
      && next.lastActivityDate.Some? && Week(d) <= Week(next.lastActivityDate.value)
      && (current.Some? && current.value.lastActivityDate.Some? ==>
            Week(current.value.lastActivityDate.value) <= Week(next.lastActivityDate.value))
  {
    if current.Some? && current.value.lastActivityDate.Some? {
      WeeksBetweenIsExact(current.value.lastActivityDate.value, d);
    }
  }
}
