/** Two runs of the whole system that lose what the design promises: a day dropped behind a waiting
    one is counted late, and a crash loses a closed day whose commit had failed. */
module EnergyExamples {
  import opened Basics
  import opened Calendar
  import opened LedgerSpec
  import opened LedgerRuns
  import opened LedgerExamples
  import opened StoreSpec
  import opened StoreTheorems
  import opened StoreTotals
  import opened StoreRuns
  import opened EnergySystem
  import opened EnergyOrder
  import opened EnergyFates
  import opened EnergyCheckpoints
  import opened EnergyCareful

  // ---- Runs the device can have ----------------------------------------------------------------

  /** Local midnight, without an offset from UTC. */
  function Midnight(date: nat): int {
    DaysFromDate(date) * 86400
  }

  function TimeOf(e: Event): Option<int> {
    match e
    case Read(r) => Some(r.now)
    case Snapshot(now, _) => Some(now)
    case _ => None
  }

  /** The clock is set, and a reading's day is the calendar day its time falls in. */
  predicate RealEvent(e: Event) {
    && FairEvent(e)
    && (TimeOf(e).Some? ==> MIDNIGHT <= TimeOf(e).value)
    && (e.Read? ==>
          && ValidDate(e.r.day.date) && e.r.day.startS <= e.r.now
          && e.r.day.startS == Midnight(e.r.day.date) - e.r.day.utcOffsetMin * 60)
  }

  /** Such events, on a clock that never goes back. */
  predicate RealRun(es: seq<Event>) {
    && (forall k :: 0 <= k < |es| ==> RealEvent(es[k]))
    && (forall j, k :: 0 <= j < k < |es| && TimeOf(es[j]).Some? && TimeOf(es[k]).Some? ==>
          TimeOf(es[j]).value <= TimeOf(es[k]).value)
  }

  /** A real run that ends by time `t`. */
  predicate RealBy(es: seq<Event>, t: int) {
    RealRun(es) && forall k :: 0 <= k < |es| && TimeOf(es[k]).Some? ==> TimeOf(es[k]).value <= t
  }

  lemma RealMore(es: seq<Event>, e: Event, t: int, u: int)
    requires RealBy(es, t) && RealEvent(e) && t <= u && (TimeOf(e).Some? ==> TimeOf(e).value == u)
    ensures RealBy(es + [e], u)
  {
    hide RealEvent;
  }

  /** The first reading of a day, at its midnight. */
  function Tick(date: nat): Event {
    Read(Reading(Midnight(date), Day(date, Midnight(date), 0, 0), NO_INPUT))
  }

  predicate UsedDate(date: nat) {
    SaneDate(date) && ValidDate(date) && date >= 20240101
  }

  lemma MidnightsAscend(d: nat, e: nat)
    requires ValidDate(d) && ValidDate(e) && d < e
    ensures Midnight(d) + 86400 <= Midnight(e)
  {
    hide DaysFromDate;
    DaysFromDateMonotone(d, e);
  }

  lemma TickIsReal(date: nat)
    requires UsedDate(date)
    ensures RealEvent(Tick(date)) && MIDNIGHT <= Midnight(date)
  {
    hide DaysFromDate, SaneDate, ValidDate;
    NewYearIsReal();
    NewYearIsValid();
    if date > 20240101 { MidnightsAscend(20240101, date); }
  }

  lemma NewYearIsValid()
    ensures ValidDate(20240101)
  {
    DateParts(2024, 1, 1);
  }

  /** A running device between two passes of the persist task, its open day that of its date. */
  ghost predicate At(s: Sys, cur: nat, pending: Option<nat>, today: Option<nat>, log: seq<Call>) {
    && Sound(s) && s.loaded && s.persist.Idle? && s.log == log
    && s.ledger.open && s.ledger.cur.date == cur && s.ledger.save.has == today.Some?
    && s.ledger.startS == Midnight(cur) && s.ledger.endS == Midnight(cur) + 86400 && s.ledger.cur.utcOffsetMin == 0
    && (if pending.None? then s.pending.None? else IsPending(s, pending.value))
    && (if today.None? then s.today.None? else IsCheckpoint(s, today.value) && s.today.value.utcOffsetMin == 0)
  }

  lemma LaterDayCloses(l: Ledger, r: Reading)
    requires l.open && r.day.date > l.cur.date && r.now >= l.startS && r.now >= l.endS
    ensures Closes(l, r)
  {
  }

  /** A reading of a later day closes the open one. */
  lemma TickCloses(s: Sys, date: nat, cur: nat, pending: Option<nat>, today: Option<nat>, log: seq<Call>)
    requires At(s, cur, pending, today, log) && UsedDate(date) && ValidDate(cur) && date > cur
    ensures At(Next(s, Tick(date)), date, if pending.Some? then pending else Some(cur), today, log)
    ensures ClosedAt(s, Tick(date)) == {cur}
  {
    hide Sound, Feed, Closes, SaneDate, ValidDate, DaysFromDate;
    var r := Tick(date).r;
    var t := OnRead(s, r);
    MidnightsAscend(cur, date);
    LaterDayCloses(s.ledger, r);
    ReadDates(s, r);
    NextSound(s, Read(r));
    FeedKeepsSave(s.ledger, r);
    FeedOpens(s.ledger, r);
    assert t.ledger == Feed(s.ledger, r);
    hide OnRead, Midnight;
  }

  lemma FirstTick(date: nat)
    requires UsedDate(date)
    ensures At(Next(Next(POWER_ON, Load), Tick(date)), date, None, None, [])
  {
    PowerOnSound();
    NextSound(POWER_ON, Load);
    var s := Next(POWER_ON, Load);
    assert s == POWER_ON.(loaded := true);
    hide Sound, Feed, SaneDate, Closes, ValidDate, DaysFromDate;
    var r := Tick(date).r;
    ReadDates(s, r);
    NextSound(s, Read(r));
    FeedKeepsSave(s.ledger, r);
    FeedOpens(s.ledger, r);
  }

  // ---- Passes of the persist task --------------------------------------------------------------

  /** The closed day's commit fails, the open day's checkpoint lands. */
  function FailedPass(s: Sys, now: int): Sys {
    Next(Next(Next(Next(s, Snapshot(now, false)), CommitStep(0, WriteFails)), SaveStep(true)), Finish(true))
  }

  lemma FailedPassKeeps(s: Sys, cur: nat, d: nat, now: int)
    requires At(s, cur, Some(d), None, [])
    ensures At(FailedPass(s, now), cur, Some(d), Some(cur), [Call(s.pending.value, 0, WriteFails)])
    ensures FailedPass(s, now).pending == s.pending && FailedPass(s, now).months == map[]
  {
    PendingSane(s);
    var c := Call(s.pending.value, 0, WriteFails);
    SoundMonths(s);
    hide Sound, Midnight;
    var s1 := s.(persist := Copied(s.pending, Some(s.ledger.cur), now));
    assert Next(s, Snapshot(now, false)) == s1;
    hide SaveDue, OnSnapshot;
    var s2 := s1.(log := [c], persist := Stored(false, Some(s.ledger.cur), now));
    FailedCommit(s1, c);
    hide OnCommit;
    var s3 := s2.(today := Some(s.ledger.cur), persist := Saved(false, Some(s.ledger.cur), now));
    assert Next(s2, SaveStep(true)) == s3;
    PassSound(s, Snapshot(now, false), CommitStep(0, WriteFails), SaveStep(true), Finish(true));
  }

  lemma FailedCommit(s: Sys, c: Call)
    requires s.persist.Copied? && s.persist.closed == Some(c.day) && s.log == [] && s.months == map[]
    requires SaneDate(c.day.date) && c == Call(c.day, 0, WriteFails)
    ensures Next(s, CommitStep(0, WriteFails)) == s.(log := [c], persist := Stored(false, s.persist.save, s.persist.at))
  {
    FreshNotReached(c);
    FailsUnchanged(s.months, c);
    hide Step, CommitOk, SaneDate;
    assert [] + [c] == [c];
  }

  lemma PassSound(s: Sys, a: Event, b: Event, c: Event, d: Event)
    requires Sound(s) && !a.Read? && !b.Read? && !c.Read? && !d.Read?
    ensures Sound(Next(Next(Next(Next(s, a), b), c), d))
  {
    hide Sound, Next;
    NextSound(s, a);
    NextSound(Next(s, a), b);
    NextSound(Next(Next(s, a), b), c);
    NextSound(Next(Next(Next(s, a), b), c), d);
  }

  lemma FailsUnchanged(months: Months, c: Call)
    requires c.io == WriteFails && !AlreadyCounted(months, c.day, c.rnd)
    ensures Step(months, c) == months && !CommitOk(months, c.day, c.rnd, c.io)
  {
  }

  /** The closed day's commit lands, the checkpoint does not. */
  function CommitPass(s: Sys, now: int): Sys {
    Next(Next(Next(Next(s, Snapshot(now, false)), CommitStep(0, Written({}))), SaveStep(false)), Finish(true))
  }

  lemma CommitPassClears(s: Sys, cur: nat, d: nat, today: Option<nat>, log: seq<Call>, now: int)
    requires At(s, cur, Some(d), today, log)
    ensures At(CommitPass(s, now), cur, None, today, log + [Call(s.pending.value, 0, Written({}))])
  {
    hide OnSnapshot, OnCommit, Sound, Midnight;
    PassSound(s, Snapshot(now, false), CommitStep(0, Written({})), SaveStep(false), Finish(true));
    NextSound(s, Snapshot(now, false));
    var s1 := Next(s, Snapshot(now, false));
    Copies(s, now);
    var s2 := Next(s1, CommitStep(0, Written({})));
    Commits1(s1);
    var s3 := Next(s2, SaveStep(false));
  }

  lemma Copies(s: Sys, now: int)
    requires s.persist.Idle? && s.loaded
    ensures var t := Next(s, Snapshot(now, false));
            t == s.(persist := t.persist) && t.persist.Copied? && t.persist.closed == s.pending
  {
    hide SaveDue;
  }

  lemma Commits1(s: Sys)
    requires Sound(s) && s.persist.Copied? && s.persist.closed.Some? && s.pending == s.persist.closed
    ensures var t := Next(s, CommitStep(0, Written({})));
            && t == s.(persist := t.persist, log := t.log, months := t.months)
            && t.log == s.log + [Call(s.pending.value, 0, Written({}))] && t.persist.Stored? && t.persist.committed
  {
    PendingSane(s);
    assert CommitOk(s.months, s.pending.value, 0, Written({}));
    hide Sound, Step, CommitOk, SaneDate;
  }

  /** A restart restores the checkpoint. */
  lemma Restarts(s: Sys, cur: nat, pending: Option<nat>, d: nat, log: seq<Call>)
    requires At(s, cur, pending, Some(d), log)
    ensures At(Next(Next(s, Crash), Load), d, None, Some(d), log)
  {
    NextSound(s, Crash);
    NextSound(Next(s, Crash), Load);
    hide Sound, DaysFromDate;
  }

  // ---- Events one after another ----------------------------------------------------------------

  lemma RunMore(es: seq<Event>, e: Event)
    ensures SysRun(es + [e]) == Next(SysRun(es), e)
    ensures ClosedDates(es + [e]) == ClosedDates(es) + ClosedAt(SysRun(es), e)
  {
    hide Next, ClosedAt;
    assert (es + [e])[..|es|] == es;
  }

  /** One pass of the persist task. */
  function PassEvents(now: int, io: CommitIo, w: bool): seq<Event> {
    [Snapshot(now, false), CommitStep(0, io), SaveStep(w), Finish(true)]
  }

  lemma RunPass(es: seq<Event>, now: int, io: CommitIo, w: bool)
    requires RealBy(es, now) && MIDNIGHT <= now
    ensures SysRun(es + PassEvents(now, io, w))
         == Next(Next(Next(Next(SysRun(es), Snapshot(now, false)), CommitStep(0, io)), SaveStep(w)), Finish(true))
    ensures ClosedDates(es + PassEvents(now, io, w)) == ClosedDates(es) && RealBy(es + PassEvents(now, io, w), now)
  {
    hide Next, SysRun, ClosedDates, RealBy;
    var a, b, c, d := Snapshot(now, false), CommitStep(0, io), SaveStep(w), Finish(true);
    RunMore(es, a);
    RunMore(es + [a], b);
    RunMore(es + [a] + [b], c);
    RunMore(es + [a] + [b] + [c], d);
    RealMore(es, a, now, now);
    RealMore(es + [a], b, now, now);
    RealMore(es + [a] + [b], c, now, now);
    RealMore(es + [a] + [b] + [c], d, now, now);
    assert es + PassEvents(now, io, w) == es + [a] + [b] + [c] + [d];
  }

  lemma Ticked(es: seq<Event>, t: int, date: nat, cur: nat, pending: Option<nat>, today: Option<nat>, log: seq<Call>)
    returns (more: seq<Event>)
    requires RealBy(es, t) && t <= Midnight(date) && UsedDate(date) && ValidDate(cur) && date > cur
    requires At(SysRun(es), cur, pending, today, log)
    ensures RealBy(more, Midnight(date)) && ClosedDates(more) == ClosedDates(es) + {cur}
    ensures At(SysRun(more), date, if pending.Some? then pending else Some(cur), today, log)
    ensures pending.Some? ==> SysRun(more).pending == SysRun(es).pending
  {
    hide At, Next, RealEvent, RealBy, SysRun, ClosedDates, SaneDate, ValidDate, Midnight;
    var e := Tick(date);
    TickCloses(SysRun(es), date, cur, pending, today, log);
    TickIsReal(date);
    RunMore(es, e);
    RealMore(es, e, t, Midnight(date));
    more := es + [e];
    PendingIs(SysRun(es), cur, pending, today, log);
    if pending.Some? { WaitingStays(SysRun(es), e); }
  }

  lemma WaitingStays(s: Sys, e: Event)
    requires e.Read? && s.pending.Some?
    ensures Next(s, e).pending == s.pending
  {
    hide Feed;
  }

  lemma PendingIs(s: Sys, cur: nat, pending: Option<nat>, today: Option<nat>, log: seq<Call>)
    requires At(s, cur, pending, today, log)
    ensures pending.Some? ==> IsPending(s, pending.value)
  {
  }

  /** Two days, the first closed and its commit failed, the second checkpointed. */
  lemma Begun(d1: nat, d2: nat) returns (es: seq<Event>)
    requires UsedDate(d1) && UsedDate(d2) && d1 < d2
    ensures RealBy(es, Midnight(d2)) && ClosedDates(es) == {d1}
    ensures SysRun(es).pending.Some? && SysRun(es).months == map[]
    ensures At(SysRun(es), d2, Some(d1), Some(d2), [Call(SysRun(es).pending.value, 0, WriteFails)])
  {
    MidnightsAscend(d1, d2);
    hide At, Next, RealBy, ClosedAt, SysRun, ClosedDates, SaneDate, ValidDate, Midnight;
    var es1 := OneDay(d1);
    var es2 := Ticked(es1, Midnight(d1), d2, d1, None, None, []);
    var s, now := SysRun(es2), Midnight(d2);
    PendingIs(s, d2, Some(d1), None, []);
    FailedPassKeeps(s, d2, d1, now);
    TickIsReal(d2);
    RunPass(es2, now, WriteFails, true);
    es := es2 + PassEvents(now, WriteFails, true);
    assert SysRun(es) == FailedPass(s, now);
  }

  lemma OneDay(d1: nat) returns (es: seq<Event>)
    requires UsedDate(d1)
    ensures RealBy(es, Midnight(d1)) && ClosedDates(es) == {} && At(SysRun(es), d1, None, None, [])
  {
    FirstTick(d1);
    var s0 := POWER_ON.(loaded := true);
    assert Next(POWER_ON, Load) == s0;
    assert SysRun([]) == POWER_ON && ClosedDates([]) == {} && RealBy([], Midnight(d1));
    var e1 := Tick(d1);
    TickIsReal(d1);
    hide At, Next, SysRun, ClosedDates, SaneDate, ValidDate, Midnight, RealBy;
    RunMore([], Load);
    RealMore([], Load, Midnight(d1), Midnight(d1));
    RunMore([] + [Load], e1);
    RealMore([] + [Load], e1, Midnight(d1), Midnight(d1));
    es := [] + [Load] + [e1];
    EarlyClosed(s0, e1);
    EarlyClosed(POWER_ON, Load);
  }

  lemma EarlyClosed(s: Sys, e: Event)
    requires !s.ledger.open
    ensures ClosedAt(s, e) == {}
  {
  }

  // ---- The two runs ----------------------------------------------------------------------------

  /** 1 January closes, its commit fails, the checkpoint of 2 January lands, and the device crashes:
      1 January was closed and nothing of it is left. */
  lemma CrashLosesClosedDay() returns (es: seq<Event>)
    ensures RealRun(es) && 20240101 in ClosedDates(es) && !Held(SysRun(es), 20240101)
  {
    DatesUsedHere();
    hide At, Next, UsedDate, SysRun, ClosedDates, Midnight, RealRun;
    var es0 := Begun(20240101, 20240102);
    var log := [Call(SysRun(es0).pending.value, 0, WriteFails)];
    RunMore(es0, Crash);
    RealMore(es0, Crash, Midnight(20240102), Midnight(20240102));
    es := es0 + [Crash];
    PendingIs(SysRun(es0), 20240102, Some(20240101), Some(20240102), log);
    CrashLoses(SysRun(es0), 20240102, 20240101, log);
  }

  lemma JanuaryIsSane()
    ensures SaneDate(20240101) && SaneDate(20240102) && SaneDate(20240130) && SaneDate(20240131)
    ensures SaneDate(20240201) && SaneDate(20240202)
  {
  }

  lemma DatesUsedHere()
    ensures UsedDate(20240101) && UsedDate(20240102) && UsedDate(20240130) && UsedDate(20240131)
    ensures UsedDate(20240201) && UsedDate(20240202)
  {
    JanuaryIsSane();
    hide SaneDate;
    DateParts(2024, 1, 1);
    DateParts(2024, 1, 2);
    DateParts(2024, 1, 30);
    DateParts(2024, 1, 31);
    DateParts(2024, 2, 1);
    DateParts(2024, 2, 2);
  }

  lemma CrashLoses(s: Sys, cur: nat, d: nat, log: seq<Call>)
    requires At(s, cur, Some(d), Some(cur), log) && cur != d && s.months == map[] && |log| == 1 &&
        log[0].io == WriteFails
    ensures !Held(Next(s, Crash), d)
  {
    assert Counted(log) == [] by {
      assert log[..0] == [];
      assert !Counts(map[], log[0]);
    }
    hide Sound, Counted;
  }

  /** A pass that commits the waiting day, appended to a run. */
  lemma Passed(es: seq<Event>, t: int, cur: nat, d: nat, today: Option<nat>, log: seq<Call>)
    returns (more: seq<Event>, day: DayRecord)
    requires RealBy(es, t) && MIDNIGHT <= t && At(SysRun(es), cur, Some(d), today, log)
    ensures RealBy(more, t) && day.date == d && At(SysRun(more), cur, None, today, log + [Call(day, 0, Written({}))])
  {
    hide At, Next, SysRun, RealBy, ClosedDates;
    var s := SysRun(es);
    PendingIs(s, cur, Some(d), today, log);
    CommitPassClears(s, cur, d, today, log, t);
    RunPass(es, t, Written({}), false);
    more, day := es + PassEvents(t, Written({}), false), s.pending.value;
    assert SysRun(more) == CommitPass(s, t);
  }

  lemma Restarted(es: seq<Event>, t: int, cur: nat, pending: Option<nat>, d: nat, log: seq<Call>)
    returns (more: seq<Event>)
    requires RealBy(es, t) && At(SysRun(es), cur, pending, Some(d), log)
    ensures RealBy(more, t) && At(SysRun(more), d, None, Some(d), log)
  {
    hide At, Next, SysRun, RealBy, ClosedDates;
    Restarts(SysRun(es), cur, pending, d, log);
    RunMore(es, Crash);
    RunMore(es + [Crash], Load);
    RealMore(es, Crash, t, t);
    RealMore(es + [Crash], Load, t, t);
    more := es + [Crash] + [Load];
  }

  /** A waiting 30 January, a dropped 31 January that flash still holds, 1 February committed; after a
      restart the last day of January is committed behind it. */
  lemma LateMonthEnd(c0: Call, c1: Call, c3: Call, c2: Call)
    requires c0.io == WriteFails && c1.io == c2.io == c3.io == Written({})
    requires c1.day.date == 20240130 && c3.day.date == 20240201 && c2.day.date == 20240131
    ensures !Ascending(Counted([c0] + [c1] + [c3] + [c2]))
  {
    FailureFirst(c0);
    LateCounts(c1, c3, c2);
    hide Commit, Folds, Counted, StoreRun;
    ThenCounts([c0], c1);
    ThenCounts([c0] + [c1], c3);
    ThenCounts([c0] + [c1] + [c3], c2);
    NotAscending(c1, c3, c2);
  }

  lemma NotAscending(a: Call, b: Call, c: Call)
    requires b.day.date > c.day.date
    ensures !Ascending([] + [a] + [b] + [c])
  {
    var s := [] + [a] + [b] + [c];
    assert s[1].day.date > s[2].day.date;
  }

  lemma FailureFirst(c: Call)
    requires c.io == WriteFails
    ensures StoreRun(map[], [c]) == map[] && Counted([c]) == []
  {
    assert [c][..0] == [];
    assert !Counts(map[], c);
  }

  lemma LateCounts(c1: Call, c3: Call, c2: Call)
    requires c1.io == c2.io == c3.io == Written({})
    requires c1.day.date == 20240130 && c3.day.date == 20240201 && c2.day.date == 20240131
    ensures Counts(map[], c1) && Counts(Step(map[], c1), c3) && Counts(Step(Step(map[], c1), c3), c2)
  {
    JanuaryIsSane();
    EmptyValid();
    assert MonthOf(20240201) == 202402 && MonthOf(20240130) == MonthOf(20240131) == 202401;
    hide Commit, Folds, ValidStore, SaneDate, MonthOf;
    CountsExactlyWhen(map[], c1.day, c1.rnd, c1.io);
    CommitKeepsValid(map[], c1.day, c1.rnd, c1.io);
    var m1 := Step(map[], c1);
    FreshBlob(map[], c1);
    OneMonth(c1);
    CountsExactlyWhen(m1, c3.day, c3.rnd, c3.io);
    CommitKeepsValid(m1, c3.day, c3.rnd, c3.io);
    FebruaryKeepsJanuary(m1, c3);
    CountsExactlyWhen(Step(m1, c3), c2.day, c2.rnd, c2.io);
  }

  lemma NextMonthIsFebruary()
    ensures SaneDate(20240201) && ValidMonth(202401) && MonthIndex(MonthOf(20240201)) - MonthIndex(202401) == 1
  {
  }

  lemma FebruaryKeepsJanuary(months: Months, c: Call)
    requires ValidStore(months) && c.day.date == 20240201 && Counts(months, c) && 202401 in months
    ensures 202401 in Step(months, c) && Step(months, c)[202401] == months[202401]
  {
    NextMonthIsFebruary();
    hide Commit, Folds, ValidStore, MonthIndex, MonthOf, SaneDate, ValidMonth;
    Retention(months, c, 202401);
  }

  /** A closed day dropped behind a waiting one, with no later checkpoint written, comes back after a
      crash and is counted out of order: a restored checkpoint need not be safe. */
  lemma DroppedDayComesLate() returns (es: seq<Event>)
    ensures RealRun(es) && !Ascending(Counted(SysRun(es).log))
  {
    DatesUsedHere();
    MidnightsAscend(20240131, 20240201);
    MidnightsAscend(20240201, 20240202);
    TickIsReal(20240201);
    TickIsReal(20240202);
    UsedIsValid();
    hide At, Next, UsedDate, SysRun, ClosedDates, Counted, Ascending, Midnight, RealRun, ValidDate, RealEvent;
    var m1, m2 := Midnight(20240201), Midnight(20240202);
    var e1 := Begun(20240130, 20240131);
    var l1 := [Call(SysRun(e1).pending.value, 0, WriteFails)];
    var e2 := Ticked(e1, Midnight(20240131), 20240201, 20240131, Some(20240130), Some(20240131), l1);
    var e3, d1 := Passed(e2, m1, 20240201, 20240130, Some(20240131), l1);
    var l2 := l1 + [Call(d1, 0, Written({}))];
    var e4 := Ticked(e3, m1, 20240202, 20240201, None, Some(20240131), l2);
    var e5, d3 := Passed(e4, m2, 20240202, 20240201, Some(20240131), l2);
    var l3 := l2 + [Call(d3, 0, Written({}))];
    var e6 := Restarted(e5, m2, 20240202, None, 20240131, l3);
    var e7 := Ticked(e6, m2, 20240202, 20240131, None, Some(20240131), l3);
    var e8, d2 := Passed(e7, m2, 20240202, 20240131, Some(20240131), l3);
    es := e8;
    var log := l3 + [Call(d2, 0, Written({}))];
    LateMonthEnd(l1[0], Call(d1, 0, Written({})), Call(d3, 0, Written({})), Call(d2, 0, Written({})));
    LogIs(SysRun(es), 20240202, None, Some(20240131), log);
  }

  lemma UsedIsValid()
    ensures ValidDate(20240131) && ValidDate(20240201)
  {
    DatesUsedHere();
    hide ValidDate, SaneDate;
  }

  lemma LogIs(s: Sys, cur: nat, pending: Option<nat>, today: Option<nat>, log: seq<Call>)
    requires At(s, cur, pending, today, log)
    ensures s.log == log
  {
  }
}
