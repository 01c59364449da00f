/** What the store guarantees over runs of commits: no day is counted twice while its month is kept,
    the newest totals are the sum of the committed days, retention, and exact range reads. */
module StoreTheorems {
  import opened Basics
  import opened Calendar
  import opened LedgerSpec
  import opened StoreSpec

  // ---- Four-digit years ------------------------------------------------------------------------

  predicate SaneMonth(ym: nat) {
    ValidMonth(ym) && 100001 <= ym <= 999912
  }

  predicate SaneDate(date: nat) {
    SaneMonth(MonthOf(date)) && 1 <= DayOfMonth(date) <= SLOTS
  }

  lemma SaneIndex(ym: nat)
    requires ValidMonth(ym) && ym <= 999912
    ensures MonthIndex(ym) >= 11900 ==> PlainMonth(ym)
    ensures SaneMonth(ym) ==> MonthIndex(ym) >= 12000
  {
  }

  lemma {:induction false} BackIndex(ym: nat, n: nat)
    requires SaneMonth(ym) && n <= 60
    ensures ValidMonth(Back(ym, n)) && Back(ym, n) <= ym && MonthIndex(Back(ym, n)) == MonthIndex(ym) - n
  {
    SaneIndex(ym);
    if n > 0 {
      BackIndex(ym, n - 1);
      SaneIndex(Back(ym, n - 1));
      PrevMonthIndex(Back(ym, n - 1));
    }
  }

  lemma {:induction false} BackSetMembers(ym: nat, n: nat, m: nat)
    requires SaneMonth(ym) && ValidMonth(m) && n <= SWEPT
    ensures m in BackSet(ym, n) <==> MONTHS_KEPT <= MonthIndex(ym) - MonthIndex(m) < MONTHS_KEPT + n
  {
    if n > 0 {
      BackSetMembers(ym, n - 1, m);
      BackIndex(ym, MONTHS_KEPT + n - 1);
      MonthIndexInjective(m, Back(ym, MONTHS_KEPT + n - 1));
    }
  }

  predicate KeysValid(months: Months) {
    forall k :: k in months ==> SaneMonth(k)
  }

  /** The search returns the newest blob of the `n` months ending at `ym`, if there is one. */
  lemma {:induction false} FindMonthNewest(months: Months, ym: nat, n: nat)
    requires KeysValid(months) && ValidMonth(ym) && ym <= 999912 && n <= 60 && MonthIndex(ym) >= 11930 + n
    ensures var r := FindMonth(months, ym, n);
            && (r.Some? ==> 0 <= MonthIndex(ym) - MonthIndex(r.value) < n
                            && forall k :: k in months && MonthIndex(k) <= MonthIndex(ym) ==>
                                MonthIndex(k) <= MonthIndex(r.value))
            && (r.None? ==> forall k :: k in months ==> !(0 <= MonthIndex(ym) - MonthIndex(k) < n))
    decreases n
  {
    if n > 0 {
      SaneIndex(ym);
      PrevMonthIndex(ym);
      if ym !in months {
        FindMonthNewest(months, PrevMonth(ym), n - 1);
        forall k | k in months && MonthIndex(k) <= MonthIndex(ym) ensures MonthIndex(k) <= MonthIndex(ym) - 1 {
          MonthIndexInjective(k, ym);
        }
      }
    }
  }

  // ---- The store's own invariant ---------------------------------------------------------------

  predicate BlobOk(ym: nat, b: MonthBlob) {
    && MonthOf(b.life.throughDate) == ym
    && (forall i :: 0 <= i < SLOTS ==> b.days[i].date == 0 || b.days[i].date == ym * 100 + i + 1)
  }

  predicate ValidStore(months: Months) {
    KeysValid(months) && forall k :: k in months ==> BlobOk(k, months[k])
  }

  /** The totals a month starts from end before it. */
  lemma BaseEndsEarlier(months: Months, ym: nat, rnd: nat)
    requires ValidStore(months) && SaneMonth(ym) && ym !in months
    ensures BaseBlob(months, ym, rnd).life.throughDate < ym * 100
    ensures BaseBlob(months, ym, rnd).days == EmptySlots()
  {
    hide Back, BackSet;
    SaneIndex(ym);
    PrevMonthIndex(ym);
    FindMonthNewest(months, PrevMonth(ym), LOOK_BACK);
    var r := FindMonth(months, PrevMonth(ym), LOOK_BACK);
    if r.Some? {
      MonthIndexInjective(r.value, ym);
      assert BlobOk(r.value, months[r.value]);
    }
  }

  /** Exactly when a commit counts its day: its month has no blob, or the blob has not reached it. */
  lemma CountsExactlyWhen(months: Months, day: DayRecord, rnd: nat, io: CommitIo)
    requires ValidStore(months) && SaneDate(day.date)
    ensures Folds(months, day, rnd, io) <==>
            io.Written? && (MonthOf(day.date) !in months || day.date > months[MonthOf(day.date)].life.throughDate)
  {
    hide Fold;
    var ym := MonthOf(day.date);
    if ym !in months { BaseEndsEarlier(months, ym, rnd); }
  }

  lemma OwnMonthKept(ym: nat)
    requires SaneMonth(ym)
    ensures ym !in AgedOut(ym)
  {
    BackSetMembers(ym, SWEPT, ym);
  }

  lemma StoreDayOk(b: MonthBlob, ym: nat, day: DayRecord)
    requires DayInRange(day) && MonthOf(day.date) == ym
    requires forall i :: 0 <= i < SLOTS ==> b.days[i].date == 0 || b.days[i].date == ym * 100 + i + 1
    ensures BlobOk(ym, StoreDay(b, day))
  {
    assert day.date == ym * 100 + (DayOfMonth(day.date) - 1) + 1;
  }

  lemma CommitKeepsValid(months: Months, day: DayRecord, rnd: nat, io: CommitIo)
    requires ValidStore(months) && SaneDate(day.date)
    ensures ValidStore(Commit(months, day, rnd, io))
  {
    hide StoreDay, AgedOut;
    if Folds(months, day, rnd, io) {
      var ym := MonthOf(day.date);
      var b := BaseBlob(months, ym, rnd);
      if ym !in months { BaseEndsEarlier(months, ym, rnd); }
      StoreDayOk(b, ym, day);
    }
  }

  // ---- At most once ----------------------------------------------------------------------------

  datatype Call = Call(day: DayRecord, rnd: nat, io: CommitIo)

  function Step(months: Months, c: Call): Months {
    Commit(months, c.day, c.rnd, c.io)
  }

  predicate Counts(months: Months, c: Call) {
    Folds(months, c.day, c.rnd, c.io)
  }

  function StoreRun(months: Months, calls: seq<Call>): Months {
    if calls == [] then months else Step(StoreRun(months, calls[..|calls| - 1]), calls[|calls| - 1])
  }

  predicate SaneCalls(calls: seq<Call>) {
    forall i :: 0 <= i < |calls| ==> SaneDate(calls[i].day.date)
  }

  lemma {:induction false} RunKeepsValid(months: Months, calls: seq<Call>)
    requires ValidStore(months) && SaneCalls(calls)
    ensures ValidStore(StoreRun(months, calls))
  {
    hide ValidStore, Commit;
    if calls != [] {
      var c := calls[|calls| - 1];
      RunKeepsValid(months, calls[..|calls| - 1]);
      CommitKeepsValid(StoreRun(months, calls[..|calls| - 1]), c.day, c.rnd, c.io);
    }
  }

  /** The blob of a month after a commit: newer when the commit counts a day of it, else as before. */
  lemma BlobAfter(months: Months, c: Call, ym: nat)
    requires ValidStore(months) && SaneDate(c.day.date)
    requires ym in months && ym in Step(months, c)
    ensures Counts(months, c) && MonthOf(c.day.date) == ym ==>
              Step(months, c)[ym].life.throughDate == c.day.date > months[ym].life.throughDate
    ensures !(Counts(months, c) && MonthOf(c.day.date) == ym) ==> Step(months, c)[ym] == months[ym]
  {
    hide AgedOut;
    CountsExactlyWhen(months, c.day, c.rnd, c.io);
  }

  /** While its month stays in the store, a counted date stays below the month's through date. */
  lemma {:induction false} StaysCounted(months: Months, calls: seq<Call>, i: nat, n: nat)
    requires ValidStore(months) && SaneCalls(calls) && i < n <= |calls|
    requires Counts(StoreRun(months, calls[..i]), calls[i])
    requires forall k :: i < k <= n ==> MonthOf(calls[i].day.date) in StoreRun(months, calls[..k])
    ensures StoreRun(months, calls[..n])[MonthOf(calls[i].day.date)].life.throughDate >= calls[i].day.date
    decreases n - i
  {
    hide ValidStore, Commit, Folds;
    var d := calls[i].day.date;
    var ym := MonthOf(d);
    var before := StoreRun(months, calls[..n - 1]);
    assert calls[..n][..n - 1] == calls[..n - 1];
    assert StoreRun(months, calls[..n]) == Step(before, calls[n - 1]);
    RunKeepsValid(months, calls[..n - 1]);
    if n == i + 1 {
      FreshBlob(before, calls[i]);
    } else {
      StaysCounted(months, calls, i, n - 1);
      BlobAfter(before, calls[n - 1], ym);
    }
  }

  lemma FreshBlob(months: Months, c: Call)
    requires Counts(months, c) && SaneDate(c.day.date)
    ensures MonthOf(c.day.date) in Step(months, c)
    ensures Step(months, c)[MonthOf(c.day.date)].life.throughDate == c.day.date
  {
    hide AgedOut, BaseBlob;
    OwnMonthKept(MonthOf(c.day.date));
  }

  /** Over any run, in any order and with any failures: if one date is counted twice, its month's
      blob was erased in between. */
  lemma CountedTwiceOnlyAfterErase(months: Months, calls: seq<Call>, i: nat, j: nat)
    requires ValidStore(months) && SaneCalls(calls) && i < j < |calls|
    requires calls[i].day.date == calls[j].day.date
    requires Counts(StoreRun(months, calls[..i]), calls[i]) && Counts(StoreRun(months, calls[..j]), calls[j])
    ensures exists k :: i < k <= j && MonthOf(calls[i].day.date) !in StoreRun(months, calls[..k])
  {
    hide ValidStore, Commit, Folds;
    var ym := MonthOf(calls[i].day.date);
    if forall k :: i < k <= j ==> ym in StoreRun(months, calls[..k]) {
      StaysCounted(months, calls, i, j);
      RunKeepsValid(months, calls[..j]);
      var c := calls[j];
      CountsExactlyWhen(StoreRun(months, calls[..j]), c.day, c.rnd, c.io);
      assert false;
    }
  }

  // ---- Retention -------------------------------------------------------------------------------

  /** A counted day in month M erases exactly the months 13 to 48 before M (those whose erasure
      succeeds) and touches no other month but M. */
  lemma Retention(months: Months, c: Call, m: nat)
    requires ValidStore(months) && SaneDate(c.day.date) && Counts(months, c) && ValidMonth(m)
    ensures var age := MonthIndex(MonthOf(c.day.date)) - MonthIndex(m);
            && (13 <= age <= 48 && m !in c.io.stuck ==> m !in Step(months, c))
            && (!(13 <= age <= 48) && age != 0 ==>
                  (m in Step(months, c) <==> m in months) && (m in months ==> Step(months, c)[m] == months[m]))
            && (age == 0 ==> m in Step(months, c))
  {
    hide StoreDay, BaseBlob, BackSet;
    var ym := MonthOf(c.day.date);
    BackSetMembers(ym, SWEPT, m);
    MonthIndexInjective(m, ym);
  }

  /** So a date can be counted twice: commit it, commit any day 13 to 48 months later, and commit it
      again. */
  lemma AgedOutRepeatCounts(months: Months, first: Call, later: Call, again: Call)
    requires ValidStore(months) && SaneDate(first.day.date) && SaneDate(later.day.date)
    requires Counts(months, first) && Counts(Step(months, first), later) && later.io.stuck == {}
    requires 13 <= MonthIndex(MonthOf(later.day.date)) - MonthIndex(MonthOf(first.day.date)) <= 48
    requires again.day.date == first.day.date && again.io.Written?
    ensures Counts(Step(Step(months, first), later), again)
  {
    hide Commit, Folds;
    CommitKeepsValid(months, first.day, first.rnd, first.io);
    var m1 := Step(months, first);
    CommitKeepsValid(m1, later.day, later.rnd, later.io);
    Retention(m1, later, MonthOf(first.day.date));
    CountsExactlyWhen(Step(m1, later), again.day, again.rnd, again.io);
  }
}
