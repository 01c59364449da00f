/** The days a month's blob holds are the days that were counted, each in its own slot: a commit
    changes no other day, and a range read gives every counted day back while its month is kept. */
module StoreSlots {
  import opened Basics
  import opened Calendar
  import opened LedgerSpec
  import opened StoreSpec
  import opened StoreTheorems
  import opened StoreTotals
  import opened StoreRuns
  import StoreReads

  /** The slot of a date in its month. */
  function SlotOf(date: nat): int {
    date % 100 - 1
  }

  /** What a counted day leaves in its month: itself in its slot, and in every other slot what was
      there before, or nothing in a month that had no blob. */
  lemma CommitFillsOneSlot(months: Months, c: Call, i: nat)
    requires Counts(months, c) && SaneDate(c.day.date) && i < SLOTS
    ensures var ym := c.day.date / 100;
            && ym in Step(months, c)
            && Step(months, c)[ym].days[i] ==
               if i == SlotOf(c.day.date) then c.day
               else if ym in months then months[ym].days[i] else NO_RECORD
  {
    hide AgedOut, Fold, FindMonth;
    OwnMonthKept(MonthOf(c.day.date));
  }

  /** A call that counts nothing, and any month but that of a counted day, leave the days alone. */
  lemma OtherMonthsKeepDays(months: Months, c: Call, ym: nat)
    requires ym in months && ym in Step(months, c) && !(Counts(months, c) && ym == c.day.date / 100)
    ensures Step(months, c)[ym] == months[ym]
  {
    hide AgedOut, StoreDay, BaseBlob;
  }

  // ---- Over runs -------------------------------------------------------------------------------

  /** The month of call `i` has been kept since that call. */
  predicate KeptSince(calls: seq<Call>, i: nat, n: nat)
    requires i < |calls| && n <= |calls|
  {
    forall k :: i < k <= n ==> MonthOf(calls[i].day.date) in StoreRun(map[], calls[..k])
  }

  /** While its month is kept, a counted day's own record stays in its slot. */
  lemma {:induction false} CountedStaysStored(calls: seq<Call>, i: nat, n: nat)
    requires SaneCalls(calls) && i < n <= |calls| && KeptSince(calls, i, n)
    requires Counts(StoreRun(map[], calls[..i]), calls[i])
    ensures var d := calls[i].day.date;
            0 <= SlotOf(d) < SLOTS && StoreRun(map[], calls[..n])[MonthOf(d)].days[SlotOf(d)] == calls[i].day
    decreases n
  {
    hide Commit, Folds, ValidStore;
    var d, c := calls[i].day.date, calls[n - 1];
    var before := StoreRun(map[], calls[..n - 1]);
    assert calls[..n][..n - 1] == calls[..n - 1];
    assert StoreRun(map[], calls[..n]) == Step(before, c);
    if n == i + 1 {
      CommitFillsOneSlot(before, c, SlotOf(d));
    } else {
      CountedStaysStored(calls, i, n - 1);
      if Counts(before, c) && MonthOf(c.day.date) == MonthOf(d) {
        NotCountedAgain(calls, i, n - 1);
        SlotsTellDates(c.day.date, d);
        CommitFillsOneSlot(before, c, SlotOf(d));
      } else {
        OtherMonthsKeepDays(before, c, MonthOf(d));
      }
    }
  }

  lemma SlotsTellDates(d: nat, e: nat)
    requires MonthOf(d) == MonthOf(e) && d != e
    ensures SlotOf(d) != SlotOf(e)
  {
  }

  /** While its month is kept, a counted date does not count again. */
  lemma NotCountedAgain(calls: seq<Call>, i: nat, j: nat)
    requires SaneCalls(calls) && i < j < |calls| && KeptSince(calls, i, j)
    requires Counts(StoreRun(map[], calls[..i]), calls[i])
    requires Counts(StoreRun(map[], calls[..j]), calls[j])
    ensures calls[i].day.date != calls[j].day.date
  {
    hide Commit, Folds, ValidStore;
    EmptyValid();
    if calls[i].day.date == calls[j].day.date {
      CountedTwiceOnlyAfterErase(map[], calls, i, j);
      assert false;
    }
  }

  /** A stored record is that of a counted day. */
  ghost predicate IsCountedDay(calls: seq<Call>, r: DayRecord) {
    exists i :: 0 <= i < |calls| && Counts(StoreRun(map[], calls[..i]), calls[i]) && calls[i].day == r
  }

  lemma {:induction false} StoredWasCounted(calls: seq<Call>, ym: nat, i: nat)
    requires SaneCalls(calls) && ym in StoreRun(map[], calls) && i < SLOTS
    ensures var r := StoreRun(map[], calls)[ym].days[i]; r == NO_RECORD || IsCountedDay(calls, r)
  {
    hide Commit, Folds, SaneDate;
    if calls != [] {
      var init, c := calls[..|calls| - 1], calls[|calls| - 1];
      var before := StoreRun(map[], init);
      var r := StoreRun(map[], calls)[ym].days[i];
      if Counts(before, c) && ym == c.day.date / 100 {
        CommitFillsOneSlot(before, c, i);
        if i != SlotOf(c.day.date) && ym in before {
          StoredWasCounted(init, ym, i);
          CountedMore(calls, r);
        }
      } else {
        if ym !in before { NewMonthCounted(before, c, ym); }
        OtherMonthsKeepDays(before, c, ym);
        StoredWasCounted(init, ym, i);
        CountedMore(calls, r);
      }
    }
  }

  lemma NewMonthCounted(months: Months, c: Call, ym: nat)
    requires ym in Step(months, c) && !(Counts(months, c) && ym == c.day.date / 100)
    ensures ym in months
  {
  }

  lemma CountedMore(calls: seq<Call>, r: DayRecord)
    requires calls != []
    ensures IsCountedDay(calls[..|calls| - 1], r) ==> IsCountedDay(calls, r)
  {
    hide Commit, Folds, StoreRun;
    var init := calls[..|calls| - 1];
    if IsCountedDay(init, r) {
      var i :| 0 <= i < |init| && Counts(StoreRun(map[], init[..i]), init[i]) && init[i].day == r;
      assert init[..i] == calls[..i] && init[i] == calls[i];
    }
  }

  /** Call `i` counted its day, and the day's month was kept to the end. */
  predicate CountedAndKept(calls: seq<Call>, i: nat)
    requires i < |calls|
  {
    Counts(StoreRun(map[], calls[..i]), calls[i]) && KeptSince(calls, i, |calls|)
  }

  /** A range read gives back the record of every counted day of the range whose month was kept since,
      and nothing but records of counted days. */
  lemma {:induction false} RangeReadReturnsCounted(calls: seq<Call>, from: nat, to: nat)
    requires SaneCalls(calls) && to < UINT32
    ensures forall i :: 0 <= i < |calls| && CountedAndKept(calls, i) && from <= calls[i].day.date <= to ==>
              calls[i].day in StoredDays(StoreRun(map[], calls), from, to)
    ensures forall r :: r in StoredDays(StoreRun(map[], calls), from, to) ==>
              IsCountedDay(calls, r) && from <= r.date <= to
  {
    hide Commit, Folds, StoredDays, StoreRun, ValidStore, KeptSince, SaneDate;
    var months := StoreRun(map[], calls);
    EmptyValid();
    RunKeepsValid(map[], calls);
    StoreReads.RangeReadExact(months, from, to);
    assert calls[..|calls|] == calls;
    forall i | 0 <= i < |calls| && CountedAndKept(calls, i) && from <= calls[i].day.date <= to
      ensures calls[i].day in StoredDays(months, from, to)
    {
      CountedStaysStored(calls, i, |calls|);
      KeptAtEnd(calls, i);
      var d := calls[i].day.date;
      assert SaneDate(d);
      SaneNotZero(d);
      assert calls[i].day in months[MonthOf(d)].days;
    }
    forall r | r in StoredDays(months, from, to)
      ensures IsCountedDay(calls, r)
    {
      var k :| k in months && r in months[k].days;
      var i :| 0 <= i < SLOTS && months[k].days[i] == r;
      StoredWasCounted(calls, k, i);
    }
  }

  lemma KeptAtEnd(calls: seq<Call>, i: nat)
    requires i < |calls| && KeptSince(calls, i, |calls|)
    ensures MonthOf(calls[i].day.date) in StoreRun(map[], calls)
  {
    assert calls[..|calls|] == calls;
  }

  lemma SaneNotZero(d: nat)
    requires SaneDate(d)
    ensures d != 0
  {
  }

  // ---- What a commit reports -------------------------------------------------------------------

  /** A commit reports success exactly when flash could be opened and the store has now reached the
      day; it then returns the totals its month holds. */
  lemma CommitReports(months: Months, c: Call)
    requires ValidStore(months) && SaneDate(c.day.date)
    ensures CommitOk(months, c.day, c.rnd, c.io) <==> !c.io.Refused? && Reached(Step(months, c), c.day.date)
    ensures CommitOk(months, c.day, c.rnd, c.io) ==>
              CommitLife(months, c.day, c.rnd) == Step(months, c)[MonthOf(c.day.date)].life
  {
    hide AgedOut, Fold, FindMonth, ValidStore;
    var ym := MonthOf(c.day.date);
    CountsExactlyWhen(months, c.day, c.rnd, c.io);
    OwnMonthKept(ym);
    if ym !in months { BaseEndsEarlier(months, ym, c.rnd); }
    if Counts(months, c) { JustCounted(months, c); } else { NotCounted(months, c); }
  }

  /** The totals name the first day they count and the reset they belong to. */
  lemma {:induction false} TotalsNameTheirStart(done: seq<Call>)
    requires done != [] && SaneCalls(done) && |done| < UINT32
    ensures LifeOf(done).sinceDate == done[Restart(done)].day.date && LifeOf(done).resetId == done[Restart(done)].rnd
    ensures LifeOf(done).days == |done| - Restart(done)
  {
    hide SaneDate, Gap;
    var n := |done| - 1;
    if n > 0 && Gap(done[n - 1], done[n]) <= MAX_GAP { TotalsNameTheirStart(done[..n]); }
  }
}
