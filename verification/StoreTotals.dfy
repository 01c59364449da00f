/** Lifetime totals over any run of commits: the newest blob's totals are exactly the sums over the
    days that were newer than every day before them, since the last long gap. */
module StoreTotals {
  import opened Basics
  import opened Calendar
  import opened LedgerSpec
  import opened StoreSpec
  import opened StoreTheorems

  /** Calendar months from one committed day to the next. */
  function Gap(a: Call, b: Call): int
    requires SaneDate(a.day.date) && SaneDate(b.day.date)
  {
    MonthIndex(MonthOf(b.day.date)) - MonthIndex(MonthOf(a.day.date))
  }

  const MAX_GAP: int := 15

  /** Where the totals last restarted: the newest day more than MAX_GAP months after the one before. */
  function Restart(done: seq<Call>): (r: nat)
    requires done != [] && SaneCalls(done)
    ensures r < |done|
  {
    var n := |done| - 1;
    if n == 0 || Gap(done[n - 1], done[n]) > MAX_GAP then n else Restart(done[..n])
  }

  /** The totals those days should have. */
  function LifeOf(done: seq<Call>): Lifetime
    requires done != [] && SaneCalls(done)
  {
    var n := |done| - 1;
    Fold(if n == 0 || Gap(done[n - 1], done[n]) > MAX_GAP then FreshLife(done[n].rnd)
        else LifeOf(done[..n]), done[n].day)
  }

  predicate Ascending(done: seq<Call>) {
    forall a, b :: 0 <= a < b < |done| ==> done[a].day.date < done[b].day.date
  }

  /** `done` are days in date order whose totals the newest blob carries. */
  predicate Tracks(months: Months, done: seq<Call>) {
    && ValidStore(months) && SaneCalls(done) && Ascending(done)
    && if done == [] then months == map[] else Newest(months, done)
  }

  predicate Newest(months: Months, done: seq<Call>)
    requires done != [] && SaneCalls(done)
  {
    var ym := MonthOf(done[|done| - 1].day.date);
    ym in months && (forall k :: k in months ==> k <= ym) && months[ym].life == LifeOf(done)
  }

  /** The day is newer than all of these. */
  predicate Later(done: seq<Call>, c: Call) {
    done == [] || c.day.date > done[|done| - 1].day.date
  }

  /** A counted day joins the newest totals if it is newer than the ones before. */
  function Extend(months: Months, done: seq<Call>, c: Call): seq<Call> {
    if Counts(months, c) && Later(done, c) then done + [c] else done
  }

  lemma LastDate(done: seq<Call>)
    requires done != [] && SaneCalls(done)
    ensures LifeOf(done).throughDate == done[|done| - 1].day.date
  {
  }

  /** A new latest day starts from the newest totals exactly when it is at most 15 months on. */
  lemma CarriesOn(months: Months, done: seq<Call>, c: Call)
    requires Tracks(months, done) && done != [] && SaneDate(c.day.date) && Later(done, c)
    ensures var base := BaseBlob(months, MonthOf(c.day.date), c.rnd).life;
            base == if Gap(done[|done| - 1], c) <= MAX_GAP then LifeOf(done) else FreshLife(c.rnd)
  {
    hide LifeOf, BlobOk;
    var top, ym := MonthOf(done[|done| - 1].day.date), MonthOf(c.day.date);
    assert top <= ym;
    MonthIndexInjective(top, ym);
    if top < ym {
      SaneIndex(ym);
      PrevMonthIndex(ym);
      FindMonthNewest(months, PrevMonth(ym), LOOK_BACK);
      var r := FindMonth(months, PrevMonth(ym), LOOK_BACK);
      if r.Some? { MonthIndexInjective(r.value, top); }
      forall k | k in months ensures MonthIndex(k) <= MonthIndex(top) {
        MonthIndexInjective(k, top);
      }
    }
  }

  lemma RecordLife(done: seq<Call>, c: Call)
    requires SaneCalls(done) && SaneDate(c.day.date)
    ensures SaneCalls(done + [c])
    ensures LifeOf(done + [c]) ==
            Fold(if done == [] || Gap(done[|done| - 1], c) > MAX_GAP then FreshLife(c.rnd) else LifeOf(done), c.day)
  {
    hide Fold, Gap, SaneDate;
    assert (done + [c])[..|done|] == done;
  }

  lemma NewestAfter(months: Months, done: seq<Call>, c: Call)
    requires Tracks(months, done) && Counts(months, c) && SaneDate(c.day.date) && Later(done, c)
    ensures SaneCalls(done + [c]) && Newest(Step(months, c), done + [c])
  {
    hide BackSet, LifeOf, Fold, BlobOk;
    var ym := MonthOf(c.day.date);
    RecordLife(done, c);
    OwnMonthKept(ym);
    if done != [] {
      CarriesOn(months, done, c);
    } else {
      NothingToFind(ym, LOOK_BACK);
    }
    assert Step(months, c)[ym] == StoreDay(BaseBlob(months, ym, c.rnd), c.day);
  }

  lemma NothingToFind(ym: nat, n: nat)
    ensures FindMonth(map[], PrevMonth(ym), n) == None
  {
    FindInEmpty(PrevMonth(ym), n);
  }

  lemma {:induction false} FindInEmpty(ym: nat, n: nat)
    ensures FindMonth(map[], ym, n) == None
    decreases n
  {
    if n > 0 { FindInEmpty(PrevMonth(ym), n - 1); }
  }

  /** A day counted out of order goes to an older month and leaves the newest blob alone. */
  lemma OlderLeavesNewest(months: Months, done: seq<Call>, c: Call)
    requires Tracks(months, done) && Counts(months, c) && SaneDate(c.day.date) && !Later(done, c)
    ensures Newest(Step(months, c), done)
  {
    hide BackSet, LifeOf, StoreDay, BaseBlob, BlobOk;
    var top, ym := MonthOf(done[|done| - 1].day.date), MonthOf(c.day.date);
    CountsExactlyWhen(months, c.day, c.rnd, c.io);
    LastDate(done);
    assert ym < top;
    MonthIndexInjective(ym, top);
    BackSetMembers(ym, SWEPT, top);
  }

  /** Every commit, whether it lands, fails, repeats or comes late, keeps the totals exact. */
  lemma StepTracks(months: Months, done: seq<Call>, c: Call)
    requires Tracks(months, done) && SaneDate(c.day.date)
    ensures Tracks(Step(months, c), Extend(months, done, c))
  {
    hide LifeOf, Commit, Newest, BlobOk, Folds;
    CommitKeepsValid(months, c.day, c.rnd, c.io);
    if !Counts(months, c) {
      NotCounted(months, c);
    } else if Later(done, c) {
      NewestAfter(months, done, c);
    } else {
      OlderLeavesNewest(months, done, c);
    }
  }

  lemma NotCounted(months: Months, c: Call)
    requires !Counts(months, c)
    ensures Step(months, c) == months
  {
  }

  // ---- Whole runs ------------------------------------------------------------------------------

  /** The days a run from an empty store counts. */
  function Counted(calls: seq<Call>): seq<Call> {
    if calls == [] then []
    else
      var init, c := calls[..|calls| - 1], calls[|calls| - 1];
      if Counts(StoreRun(map[], init), c) then Counted(init) + [c] else Counted(init)
  }

  /** Those of them that were newer than all before. */
  function Mainline(calls: seq<Call>): seq<Call> {
    if calls == [] then []
    else Extend(StoreRun(map[], calls[..|calls| - 1]), Mainline(calls[..|calls| - 1]), calls[|calls| - 1])
  }

  /** Over any run, in any order, with any failures and repeats: the newest blob holds exactly the
      totals of the days that came in order. */
  lemma {:induction false} RunTracks(calls: seq<Call>)
    requires SaneCalls(calls)
    ensures Tracks(StoreRun(map[], calls), Mainline(calls))
  {
    hide Tracks, Commit, Folds;
    if calls == [] {
      EmptyTracks();
    } else {
      var init := calls[..|calls| - 1];
      RunTracks(init);
      StepTracks(StoreRun(map[], init), Mainline(init), calls[|calls| - 1]);
    }
  }

  /** All counted days came in order exactly when their dates ascend. */
  lemma {:induction false} MainlineIffAscending(calls: seq<Call>)
    ensures |Mainline(calls)| <= |Counted(calls)|
    ensures |Mainline(calls)| == |Counted(calls)| <==> Mainline(calls) == Counted(calls)
    ensures Mainline(calls) == Counted(calls) <==> Ascending(Counted(calls))
  {
    hide Folds, StoreRun;
    if calls != [] {
      var init, c := calls[..|calls| - 1], calls[|calls| - 1];
      MainlineIffAscending(init);
      if Counts(StoreRun(map[], init), c) { AscendingAppend(Counted(init), c); }
    }
  }

  lemma AscendingAppend(done: seq<Call>, c: Call)
    ensures Ascending(done + [c]) <==> Ascending(done) && Later(done, c)
  {
    var all := done + [c];
    if Ascending(all) {
      forall a, b | 0 <= a < b < |done| ensures done[a].day.date < done[b].day.date {
        assert all[a].day.date < all[b].day.date;
      }
      if done != [] { assert all[|done| - 1].day.date < all[|done|].day.date; }
    }
  }

  lemma EmptyTracks()
    ensures Tracks(map[], [])
  {
  }

  // ---- The totals are sums ---------------------------------------------------------------------

  /** The counters of the lifetime totals. */
  datatype Metric = DayCount | ElecWh | ThermalWh(mode: nat) | CoveredWh(mode: nat) | PowerTime | ThermalTime

  predicate MetricOk(x: Metric) {
    (x.ThermalWh? || x.CoveredWh?) ==> x.mode < MODES
  }

  function LifeGet(l: Lifetime, x: Metric): nat
    requires MetricOk(x)
  {
    match x
    case DayCount => l.days
    case ElecWh => l.elecWh
    case ThermalWh(m) => l.thermalWh[m]
    case CoveredWh(m) => l.coveredWh[m]
    case PowerTime => l.powerS
    case ThermalTime => l.thermalS
  }

  function DayGet(d: DayRecord, x: Metric): nat
    requires MetricOk(x)
  {
    match x
    case DayCount => 1
    case ElecWh => d.energy.unattributed + d.energy.elec[0] + d.energy.elec[1] + d.energy.elec[2] + d.energy.elec[3]
    case ThermalWh(m) => d.energy.thermal[m]
    case CoveredWh(m) => d.energy.covered[m]
    case PowerTime => d.energy.powerS
    case ThermalTime => d.energy.thermalS
  }

  function SumOf(done: seq<Call>, x: Metric): nat
    requires MetricOk(x)
  {
    if done == [] then 0 else SumOf(done[..|done| - 1], x) + DayGet(done[|done| - 1].day, x)
  }

  lemma ModAdd(a: nat, b: nat)
    ensures (a % UINT32 + b) % UINT32 == (a + b) % UINT32
    ensures (a + b % UINT32) % UINT32 == (a + b) % UINT32
  {
  }

  lemma FoldAdds(l: Lifetime, d: DayRecord, x: Metric, total: nat)
    requires MetricOk(x) && LifeGet(l, x) == total % UINT32
    ensures LifeGet(Fold(l, d), x) == (total + DayGet(d, x)) % UINT32
  {
    ModAdd(total, DayGet(d, x));
    ModAdd(total % UINT32, DayGet(d, x));
  }

  /** Every lifetime counter is the sum over the days since the last restart, modulo 2^32. */
  lemma {:induction false} TotalsAreSums(done: seq<Call>, x: Metric)
    requires done != [] && SaneCalls(done) && MetricOk(x)
    ensures LifeGet(LifeOf(done), x) == SumOf(done[Restart(done)..], x) % UINT32
  {
    hide Fold, DayGet, LifeGet;
    var n := |done| - 1;
    if n == 0 || Gap(done[n - 1], done[n]) > MAX_GAP {
      assert done[Restart(done)..] == [done[n]];
      SumOfOne(done[n], x);
      FreshIsZero(done[n].rnd, x);
      FoldAdds(FreshLife(done[n].rnd), done[n].day, x, 0);
    } else {
      var init := done[..n];
      TotalsAreSums(init, x);
      FoldAdds(LifeOf(init), done[n].day, x, SumOf(init[Restart(init)..], x));
      var tail := done[Restart(done)..];
      assert tail[..|tail| - 1] == init[Restart(init)..];
    }
  }

  lemma SumOfOne(c: Call, x: Metric)
    requires MetricOk(x)
    ensures SumOf([c], x) == DayGet(c.day, x)
  {
    assert [c][..0] == [];
  }

  lemma FreshIsZero(rnd: nat, x: Metric)
    requires MetricOk(x)
    ensures LifeGet(FreshLife(rnd), x) == 0
  {
  }

  /** No committed day is more than 15 calendar months after the one before. */
  predicate NoLongGap(done: seq<Call>)
    requires SaneCalls(done)
  {
    forall n :: 0 < n < |done| ==> Gap(done[n - 1], done[n]) <= MAX_GAP
  }

  lemma {:induction false} RestartIffLongGap(done: seq<Call>)
    requires done != [] && SaneCalls(done)
    ensures NoLongGap(done) <==> Restart(done) == 0
  {
    hide Gap, SaneDate;
    var n := |done| - 1;
    if n > 0 {
      var init := done[..n];
      RestartIffLongGap(init);
      if NoLongGap(init) && Gap(done[n - 1], done[n]) <= MAX_GAP {
        forall k | 0 < k < |done| ensures Gap(done[k - 1], done[k]) <= MAX_GAP {
          if k < n { assert Gap(init[k - 1], init[k]) <= MAX_GAP; }
        }
      } else if !NoLongGap(init) {
        var k :| 0 < k < |init| && Gap(init[k - 1], init[k]) > MAX_GAP;
        assert Gap(done[k - 1], done[k]) > MAX_GAP;
      }
    }
  }

  lemma {:induction false} SumOfDays(done: seq<Call>)
    ensures SumOf(done, DayCount) == |done|
  {
    if done != [] { SumOfDays(done[..|done| - 1]); }
  }

  /** The main result, for every run of commits: each counter of the newest blob is the sum over the
      days that came in order since the last restart; and the day count is that of all counted days
      exactly when they all came in order with no two neighbours more than 15 months apart. */
  lemma NewestTotalsAreTheSum(calls: seq<Call>)
    requires SaneCalls(calls) && Mainline(calls) != [] && |Counted(calls)| < UINT32
    ensures SaneCalls(Mainline(calls))
    ensures var done := Mainline(calls);
            var ym := MonthOf(done[|done| - 1].day.date);
            ym in StoreRun(map[], calls) &&
            var life := StoreRun(map[], calls)[ym].life;
            && (forall x :: MetricOk(x) ==> LifeGet(life, x) == SumOf(done[Restart(done)..], x) % UINT32)
            && (NoLongGap(done) ==> done[Restart(done)..] == done)
            && (life.days == |Counted(calls)| <==> Ascending(Counted(calls)) && NoLongGap(done))
            && life.throughDate == done[|done| - 1].day.date
  {
    hide Commit, LifeOf, LifeGet, DayGet, ValidStore, SumOf, Counted, Mainline, SaneDate, NoLongGap, Restart, Ascending;
    RunTracks(calls);
    MainlineIffAscending(calls);
    var done := Mainline(calls);
    var s := Restart(done);
    RestartIffLongGap(done);
    forall x | MetricOk(x) ensures LifeGet(LifeOf(done), x) == SumOf(done[s..], x) % UINT32 {
      TotalsAreSums(done, x);
    }
    SumOfDays(done[s..]);
    DaysField(LifeOf(done));
    assert s == 0 ==> done[s..] == done;
    LastDate(done);
  }

  lemma DaysField(l: Lifetime)
    ensures LifeGet(l, DayCount) == l.days
  {
  }

  /** What a restarted device reads: the tracked totals, while the newest month is less than 15 months
      old. At exactly 15 months it finds nothing, though the next commit still carries them on. */
  lemma RestartReadsTotals(months: Months, done: seq<Call>, date: nat)
    requires Tracks(months, done) && done != [] && SaneDate(date)
    requires MonthOf(done[|done| - 1].day.date) <= MonthOf(date)
    ensures var age := MonthIndex(MonthOf(date)) - MonthIndex(MonthOf(done[|done| - 1].day.date));
            LoadLifetime(months, date) == if age < LOOK_BACK then Some(LifeOf(done)) else None
  {
    hide LifeOf, BlobOk;
    var top, ym := MonthOf(done[|done| - 1].day.date), MonthOf(date);
    SaneIndex(ym);
    MonthIndexInjective(top, ym);
    FindMonthNewest(months, ym, LOOK_BACK);
    var r := FindMonth(months, ym, LOOK_BACK);
    if r.Some? { MonthIndexInjective(r.value, top); }
    forall k | k in months ensures MonthIndex(k) <= MonthIndex(top) {
      MonthIndexInjective(k, top);
    }
  }
}
