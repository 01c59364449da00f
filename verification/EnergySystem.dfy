/** Ledger, store and the controller's driver together, under crashes: readings on one task, the
    load / commit / checkpoint sequence on another, in any interleaving. A crash loses RAM only. */
module EnergySystem {
  import opened Basics
  import opened Calendar
  import opened LedgerSpec
  import opened LedgerRuns
  import opened LedgerRecords
  import opened StoreSpec
  import opened StoreTheorems
  import opened StoreTotals

  /** Where one pass of the persist task is: it copies what to write under the state lock, writes
      without it, and reports back under it. */
  datatype Persist =
    | Idle
    | Copied(closed: Option<DayRecord>, save: Option<DayAccum>, at: int)
    | Stored(committed: bool, save: Option<DayAccum>, at: int)
    | Saved(committed: bool, saved: Option<DayAccum>, at: int)

  datatype Sys = Sys(
    // RAM
    ledger: Ledger, loaded: bool, pending: Option<DayRecord>, persist: Persist,
    // NVS
    months: Months, today: Option<DayAccum>,
    // every commit attempted, for the statements below
    log: seq<Call>)

  const POWER_ON: Sys := Sys(FRESH, false, None, Idle, map[], None, [])

  datatype Event =
    | Read(r: Reading)
    | Load
    | Snapshot(now: int, force: bool)
    | CommitStep(rnd: nat, io: CommitIo)
    | SaveStep(written: bool)
    | Finish(locked: bool)
    | Crash

  /** A reading is booked once the checkpoint is loaded; a closed day waits for the persist task, and
      is dropped if an earlier one still waits. */
  function OnRead(s: Sys, r: Reading): Sys {
    if !s.loaded then s.(ledger := Pause(s.ledger))
    else
      var l := Feed(s.ledger, r);
      s.(ledger := l, pending := if l.hasFinished && s.pending.None? then Some(l.finished) else s.pending)
  }

  function OnLoad(s: Sys): Sys {
    if s.loaded then s
    else s.(loaded := true, ledger := if s.today.Some? then Restore(s.ledger, s.today.value) else s.ledger)
  }

  function OnSnapshot(s: Sys, now: int, force: bool): Sys {
    if s.persist.Idle? && s.loaded then
      s.(persist := Copied(s.pending, if SaveDue(s.ledger, now, force) then Some(s.ledger.cur) else None, now))
    else s
  }

  function OnCommit(s: Sys, rnd: nat, io: CommitIo): Sys {
    if !s.persist.Copied? then s
    else if s.persist.closed.None? then s.(persist := Stored(false, s.persist.save, s.persist.at))
    else
      var c := Call(s.persist.closed.value, rnd, io);
      s.(months := Step(s.months, c), log := s.log + [c],
         persist := Stored(CommitOk(s.months, c.day, rnd, io), s.persist.save, s.persist.at))
  }

  function OnSave(s: Sys, written: bool): Sys {
    if !s.persist.Stored? then s
    else if s.persist.save.Some? && written then
      s.(today := s.persist.save, persist := Saved(s.persist.committed, s.persist.save, s.persist.at))
    else s.(persist := Saved(s.persist.committed, None, s.persist.at))
  }

  /** Report back, if the state lock could be taken in time. */
  function OnFinish(s: Sys, locked: bool): Sys {
    if !s.persist.Saved? then s
    else if !locked then s.(persist := Idle)
    else
      s.(persist := Idle,
         pending := if s.persist.committed then None else s.pending,
         ledger := if s.persist.saved.Some? then MarkSaved(s.ledger, s.persist.at, s.persist.saved.value) else s.ledger)
  }

  function Next(s: Sys, e: Event): Sys {
    match e
    case Read(r) => OnRead(s, r)
    case Load => OnLoad(s)
    case Snapshot(now, force) => OnSnapshot(s, now, force)
    case CommitStep(rnd, io) => OnCommit(s, rnd, io)
    case SaveStep(written) => OnSave(s, written)
    case Finish(locked) => OnFinish(s, locked)
    case Crash => s.(ledger := FRESH, loaded := false, pending := None, persist := Idle)
  }

  function SysRun(es: seq<Event>): Sys {
    if es == [] then POWER_ON else Next(SysRun(es[..|es| - 1]), es[|es| - 1])
  }

  // ---- What every reachable state satisfies ----------------------------------------------------

  predicate GoodAccum(a: DayAccum) {
    SaneDate(a.date) && DayOk(a)
  }

  /** A record the ledger rounded from a well-formed day. */
  ghost predicate GoodRecord(d: DayRecord) {
    exists a :: GoodAccum(a) && d == ToRecord(a)
  }

  predicate GoodSave(a: Option<DayAccum>) {
    a.Some? ==> GoodAccum(a.value)
  }

  ghost predicate GoodClosed(d: Option<DayRecord>) {
    d.Some? ==> GoodRecord(d.value)
  }

  ghost predicate GoodPersist(p: Persist) {
    match p
    case Idle => true
    case Copied(closed, save, _) => GoodClosed(closed) && GoodSave(save)
    case Stored(_, save, _) => GoodSave(save)
    case Saved(_, saved, _) => GoodSave(saved)
  }

  ghost predicate Sound(s: Sys) {
    && (s.ledger.open ==> GoodAccum(s.ledger.cur))
    && GoodSave(s.today) && GoodClosed(s.pending) && GoodPersist(s.persist)
    && s.months == StoreRun(map[], s.log)
    && (forall i :: 0 <= i < |s.log| ==> GoodRecord(s.log[i].day))
  }

  predicate SaneEvent(e: Event) {
    e.Read? ==> SaneDate(e.r.day.date)
  }

  lemma FeedGood(l: Ledger, r: Reading)
    requires SaneDate(r.day.date) && (l.open ==> GoodAccum(l.cur))
    ensures GoodAccum(Feed(l, r).cur)
    ensures Feed(l, r).hasFinished ==>
        GoodRecord(Feed(l, r).finished) && l.open && Feed(l, r).finished.date == l.cur.date
    ensures Feed(l, r).cur.date == l.cur.date || Feed(l, r).cur.date == r.day.date
    ensures !l.open ==> Feed(l, r).cur.date == r.day.date
  {
    hide Add, ClosedAccum, Closes, DayOk, SaneDate, ToRecord;
    FeedOk(l, r);
    OpenAfter(l, r);
    FeedDate(l, r);
    FinishedIsClosed(l, r);
    ClosedDate(l, r);
    ClosesOpen(l, r);
    if Closes(l, r) {
      assert ClosedAccum(l, r) in ClosedBy(l, r);
      RecordDate(ClosedAccum(l, r));
    }
  }

  lemma ClosesOpen(l: Ledger, r: Reading)
    ensures Closes(l, r) ==> l.open
  {
  }

  lemma RecordDate(a: DayAccum)
    ensures ToRecord(a).date == a.date
  {
  }

  lemma GoodRecordSane(d: DayRecord)
    requires GoodRecord(d)
    ensures SaneDate(d.date)
  {
    var a :| GoodAccum(a) && d == ToRecord(a);
    RecordDate(a);
  }

  lemma ReadSound(s: Sys, r: Reading)
    requires Sound(s) && SaneDate(r.day.date)
    ensures Sound(OnRead(s, r))
  {
    hide Add, GoodAccum, GoodRecord, StoreRun, GoodPersist, SaneDate;
    if s.loaded { FeedGood(s.ledger, r); }
  }

  lemma CommitSound(s: Sys, rnd: nat, io: CommitIo)
    requires Sound(s)
    ensures Sound(OnCommit(s, rnd, io))
  {
    hide Commit, GoodAccum, GoodRecord, CommitOk;
    if s.persist.Copied? && s.persist.closed.Some? {
      var c := Call(s.persist.closed.value, rnd, io);
      assert (s.log + [c])[..|s.log|] == s.log;
    }
  }

  lemma NextSound(s: Sys, e: Event)
    requires Sound(s) && SaneEvent(e)
    ensures Sound(Next(s, e))
  {
    hide Add, GoodAccum, GoodRecord, StoreRun, Commit, Restore, SaneDate;
    match e
    case Read(r) => ReadSound(s, r);
    case Load => RestoreGood(s);
    case CommitStep(rnd, io) => CommitSound(s, rnd, io);
    case _ =>
  }

  lemma RestoreGood(s: Sys)
    requires Sound(s)
    ensures Sound(OnLoad(s))
  {
    hide StoreRun, GoodAccum, GoodRecord, DaysFromDate;
  }

  /** In every interleaving with any failures and crashes: the store is exactly the run of the
      logged commits, and every record it was given came from a well-formed day. */
  lemma {:induction false} AlwaysSound(es: seq<Event>)
    requires forall k :: 0 <= k < |es| ==> SaneEvent(es[k])
    ensures Sound(SysRun(es))
  {
    hide Sound, Next, SaneEvent;
    if es == [] {
      PowerOnSound();
    } else {
      AlwaysSound(es[..|es| - 1]);
      NextSound(SysRun(es[..|es| - 1]), es[|es| - 1]);
    }
  }

  lemma PowerOnSound()
    ensures Sound(POWER_ON)
  {
  }

  lemma LogIsSane(s: Sys)
    requires Sound(s)
    ensures SaneCalls(s.log)
  {
    forall i | 0 <= i < |s.log| ensures SaneDate(s.log[i].day.date) {
      GoodRecordSane(s.log[i].day);
    }
  }

  /** At most once, for the whole system: whatever the interleaving, a date is counted a second time
      only if its month's blob was erased after the first. */
  lemma SystemCountsOnce(es: seq<Event>, i: nat, j: nat)
    requires forall k :: 0 <= k < |es| ==> SaneEvent(es[k])
    requires var log := SysRun(es).log;
             && i < j < |log| && log[i].day.date == log[j].day.date
             && Counts(StoreRun(map[], log[..i]), log[i]) && Counts(StoreRun(map[], log[..j]), log[j])
    ensures var log := SysRun(es).log;
            exists k :: i < k <= j && MonthOf(log[i].day.date) !in StoreRun(map[], log[..k])
  {
    hide SysRun, StoreRun, Folds;
    AlwaysSound(es);
    LogIsSane(SysRun(es));
    EmptyStoreValid();
    CountedTwiceOnlyAfterErase(map[], SysRun(es).log, i, j);
  }

  lemma EmptyStoreValid()
    ensures ValidStore(map[])
  {
  }

  // ---- The totals ------------------------------------------------------------------------------

  /** The system's lifetime totals, in every interleaving: the newest blob holds the sums over the
      days that reached it in order since the last gap of more than 15 months, and its day count is
      that of all counted days exactly when they all came in order with no such gap. */
  lemma SystemTotalsExact(es: seq<Event>)
    requires forall k :: 0 <= k < |es| ==> SaneEvent(es[k])
    ensures var s := SysRun(es);
            var done := Mainline(s.log);
            && Tracks(s.months, done)
            && (done != [] && |Counted(s.log)| < UINT32 ==>
                  var ym := MonthOf(done[|done| - 1].day.date);
                  && ym in s.months
                  && (forall x :: MetricOk(x) ==>
                      LifeGet(s.months[ym].life, x) == SumOf(done[Restart(done)..], x) % UINT32)
                  && (NoLongGap(done) ==> done[Restart(done)..] == done)
                  && (s.months[ym].life.days == |Counted(s.log)| <==> Ascending(Counted(s.log)) && NoLongGap(done)))
  {
    hide SysRun, Counted, Mainline, LifeGet, SumOf, NoLongGap, StoreRun, LifeOf, Restart, Ascending;
    AlwaysSound(es);
    var s := SysRun(es);
    SoundMonths(s);
    LogIsSane(s);
    RunTracks(s.log);
    if Mainline(s.log) != [] && |Counted(s.log)| < UINT32 { NewestTotalsAreTheSum(s.log); }
  }

  lemma SoundMonths(s: Sys)
    requires Sound(s)
    ensures s.months == StoreRun(map[], s.log)
  {
  }
}
