/** Runs of commits: days in date order plus repeats always count in order, and concrete runs in
    which a day is counted twice or the totals start again. */
module StoreRuns {
  import opened Calendar
  import opened LedgerSpec
  import opened StoreSpec
  import opened StoreTheorems
  import opened StoreTotals

  /** The store has reached this date: committing it changes nothing. */
  predicate Reached(months: Months, date: nat) {
    MonthOf(date) in months && date <= months[MonthOf(date)].life.throughDate
  }

  lemma NewKeyOnly(months: Months, c: Call, m: nat)
    requires m !in months && m in Step(months, c)
    ensures m == MonthOf(c.day.date)
  {
  }

  lemma ReachedNotCounted(months: Months, c: Call)
    requires ValidStore(months) && SaneDate(c.day.date) && Reached(months, c.day.date)
    ensures !Counts(months, c)
  {
    CountsExactlyWhen(months, c.day, c.rnd, c.io);
  }

  lemma ReachedAfter(months: Months, c: Call, date: nat)
    requires ValidStore(months) && SaneDate(c.day.date) && date <= c.day.date
    requires MonthOf(date) in months ==> Reached(months, date)
    ensures MonthOf(date) in Step(months, c) && Counts(months, c) ==> Reached(Step(months, c), date)
  {
    hide ValidStore, Commit, Folds;
    var m := MonthOf(date);
    if Counts(months, c) && m in Step(months, c) {
      FreshBlob(months, c);
      if m in months { BlobAfter(months, c, m); } else { NewKeyOnly(months, c, m); }
    }
  }

  /** While days count in order, a counted day whose month is kept stays reached. */
  lemma {:induction false} CountedStaysReached(calls: seq<Call>, i: nat)
    requires SaneCalls(calls) && Ascending(Counted(calls)) && i < |Counted(calls)|
    ensures var d := Counted(calls)[i].day.date;
            MonthOf(d) in StoreRun(map[], calls) ==> Reached(StoreRun(map[], calls), d)
  {
    hide Commit, Folds, Reached, SaneDate;
    var init, c := calls[..|calls| - 1], calls[|calls| - 1];
    var before := StoreRun(map[], init);
    var d := Counted(calls)[i].day.date;
    EmptyValid();
    RunKeepsValid(map[], init);
    if Counts(before, c) {
      AscendingAppend(Counted(init), c);
      if i < |Counted(init)| {
        CountedStaysReached(init, i);
        assert Counted(calls)[i] == Counted(init)[i];
      } else {
        JustCounted(before, c);
      }
      if i < |Counted(init)| { ReachedAfter(before, c, d); }
    } else {
      NotCounted(before, c);
      CountedStaysReached(init, i);
    }
  }

  lemma JustCounted(months: Months, c: Call)
    requires Counts(months, c) && SaneDate(c.day.date)
    ensures Reached(Step(months, c), c.day.date)
  {
    hide Commit, Folds;
    FreshBlob(months, c);
  }

  lemma EmptyValid()
    ensures ValidStore(map[])
  {
  }

  /** A call newer than every counted day, or a repeat of one whose month is kept. */
  ghost predicate NewOrRepeat(months: Months, done: seq<Call>, c: Call) {
    || Later(done, c)
    || (MonthOf(c.day.date) in months && exists i :: 0 <= i < |done| && done[i].day.date == c.day.date)
  }

  /** Days that reach the store in date order, plus any repeats while their month is kept, are
      counted in order, each once. */
  lemma {:induction false} OrderPlusRepeats(calls: seq<Call>)
    requires SaneCalls(calls)
    requires forall n :: 0 <= n < |calls| ==> NewOrRepeat(StoreRun(map[], calls[..n]), Counted(calls[..n]), calls[n])
    ensures Ascending(Counted(calls))
  {
    hide Commit, Folds, SaneDate, Reached, Ascending;
    if calls == [] {
      NoneAscend();
    } else {
      var init, c := calls[..|calls| - 1], calls[|calls| - 1];
      forall n | 0 <= n < |init| ensures NewOrRepeat(StoreRun(map[], init[..n]), Counted(init[..n]), init[n]) {
        assert init[..n] == calls[..n];
      }
      OrderPlusRepeats(init);
      var before := StoreRun(map[], init);
      EmptyValid();
      RunKeepsValid(map[], init);
      if Later(Counted(init), c) {
        AscendingAppend(Counted(init), c);
      } else {
        assert NewOrRepeat(before, Counted(init), c);
        var i: nat :| i < |Counted(init)| && Counted(init)[i].day.date == c.day.date;
        CountedStaysReached(init, i);
        ReachedNotCounted(before, c);
      }
    }
  }

  lemma NoneAscend()
    ensures Ascending(Counted([]))
  {
  }

  // ---- Concrete runs ---------------------------------------------------------------------------

  function Commits(date: nat): Call {
    Call(NO_RECORD.(date := date), 0, Written({}))
  }

  lemma CommitsDate(date: nat)
    ensures Commits(date).day.date == date
  {
  }

  lemma FirstCounts(date: nat)
    requires SaneDate(date)
    ensures Counts(map[], Commits(date)) && ValidStore(Step(map[], Commits(date)))
    ensures StoreRun(map[], [Commits(date)]) == Step(map[], Commits(date)) &&
        Counted([Commits(date)]) == [Commits(date)]
  {
    var c := Commits(date);
    EmptyValid();
    CountsExactlyWhen(map[], c.day, 0, c.io);
    CommitKeepsValid(map[], c.day, 0, c.io);
    hide Commit, Folds;
    assert [c][..0] == [];
  }

  lemma ThenCounts(calls: seq<Call>, c: Call)
    requires Counts(StoreRun(map[], calls), c)
    ensures StoreRun(map[], calls + [c]) == Step(StoreRun(map[], calls), c) &&
        Counted(calls + [c]) == Counted(calls) + [c]
  {
    hide Commit, Folds;
    assert (calls + [c])[..|calls|] == calls;
  }

  /** A day in a month without a blob counts. */
  lemma NewMonthCounts(months: Months, date: nat)
    requires ValidStore(months) && SaneDate(date) && MonthOf(date) !in months
    ensures Counts(months, Commits(date))
  {
    CountsExactlyWhen(months, Commits(date).day, 0, Written({}));
  }

  lemma OneMonth(c: Call)
    ensures forall m :: m in Step(map[], c) ==> m == MonthOf(c.day.date)
  {
    forall m | m in Step(map[], c) ensures m == MonthOf(c.day.date) { NewKeyOnly(map[], c, m); }
  }

  lemma TwoCounted(d: nat, e: nat)
    requires SaneDate(d) && SaneDate(e) && MonthOf(d) != MonthOf(e)
    ensures var calls := [Commits(d), Commits(e)];
            && Counted(calls) == calls && StoreRun(map[], calls) == Step(Step(map[], Commits(d)), Commits(e))
            && Counts(map[], Commits(d)) && Counts(Step(map[], Commits(d)), Commits(e))
  {
    hide Commit, Folds, Commits, Counted, StoreRun, SaneDate, ValidStore;
    var a, b := Commits(d), Commits(e);
    FirstCounts(d);
    var m1 := Step(map[], a);
    OneMonth(a);
    assert a.day.date == d by { CommitsDate(d); }
    NewMonthCounts(m1, e);
    ThenCounts([a], b);
    assert [a] + [b] == [a, b];
  }

  lemma AgedOut13(d: nat, e: nat)
    requires SaneDate(d) && SaneDate(e) && 13 <= MonthIndex(MonthOf(e)) - MonthIndex(MonthOf(d)) <= 48
    requires Counts(map[], Commits(d)) && Counts(Step(map[], Commits(d)), Commits(e))
    ensures Counts(Step(Step(map[], Commits(d)), Commits(e)), Commits(d))
  {
    EmptyValid();
    var a, b := Commits(d), Commits(e);
    assert a.day.date == d && b.day.date == e && b.io == Written({}) && a.io.Written?;
    hide Commit, Folds, Commits;
    AgedOutRepeatCounts(map[], a, b, a);
  }

  lemma DatesUsed()
    ensures SaneDate(20240115) && SaneDate(20250215) && SaneDate(20240101) && SaneDate(20250501)
    ensures MonthIndex(MonthOf(20250215)) - MonthIndex(MonthOf(20240115)) == 13
    ensures MonthIndex(MonthOf(20250501)) - MonthIndex(MonthOf(20240101)) == 16
  {
  }

  /** Committed on 2024-01-15, swept away by a day of 2025-02, committed again: all three count, one
      date twice. */
  lemma CountedAgain()
    ensures var calls := [Commits(20240115), Commits(20250215), Commits(20240115)]; Counted(calls) == calls
  {
    hide Commit, Folds, Commits, Counted, StoreRun, SaneDate, MonthIndex;
    var a, b := Commits(20240115), Commits(20250215);
    DatesUsed();
    TwoCounted(20240115, 20250215);
    AgedOut13(20240115, 20250215);
    ThenCounts([a, b], a);
    assert [a, b] + [a] == [a, b, a];
  }

  /** Two days 16 months apart: both counted in order, and the totals do not hold both. */
  lemma LongGapRestarts()
    ensures var calls := [Commits(20240101), Commits(20250501)];
            && Counted(calls) == calls && Ascending(calls)
            && MonthOf(20250501) in StoreRun(map[], calls) && StoreRun(map[], calls)[MonthOf(20250501)].life.days != 2
  {
    DatesUsed();
    GapRestarts(20240101, 20250501);
  }

  lemma GapRestarts(d: nat, e: nat)
    requires SaneDate(d) && SaneDate(e) && MonthIndex(MonthOf(e)) - MonthIndex(MonthOf(d)) > MAX_GAP && d < e
    ensures var calls := [Commits(d), Commits(e)];
            && Counted(calls) == calls && Ascending(calls)
            && MonthOf(e) in StoreRun(map[], calls) && StoreRun(map[], calls)[MonthOf(e)].life.days != 2
  {
    var calls := [Commits(d), Commits(e)];
    assert calls[0].day.date == d && calls[1].day.date == e && SaneCalls(calls);
    assert Gap(calls[0], calls[1]) > MAX_GAP;
    assert Ascending(calls);
    hide Commit, Folds, Commits, Gap, Counted, Mainline, StoreRun, SaneDate, LifeGet, SumOf, Restart, Ascending;
    TwoCounted(d, e);
    MainlineIffAscending(calls);
    NewestTotalsAreTheSum(calls);
  }
}
