/** When the days of the whole system reach the store in order, through failures, crashes and clock
    steps. */
module EnergyOrder {
  import opened Basics
  import opened Calendar
  import opened LedgerSpec
  import opened LedgerRuns
  import opened StoreSpec
  import opened StoreTheorems
  import opened StoreTotals
  import opened StoreRuns
  import opened EnergySystem

  /** The newest date counted so far. */
  function NewestDate(log: seq<Call>): nat {
    var done := Counted(log);
    if done == [] then 0 else done[|done| - 1].day.date
  }

  /** Committing this date cannot count it out of order: it is not older than the newest counted
      day, or the store has already reached it. */
  predicate Safe(s: Sys, date: nat) {
    date >= NewestDate(s.log) || Reached(s.months, date)
  }

  /** A reading lies before its local day's end. While the open day is not older than the newest
      counted one the clock may show any date; otherwise it must not be behind that day. A restored
      checkpoint must be safe. */
  predicate ForwardEvent(s: Sys, e: Event) {
    && SaneEvent(e)
    && (e.Read? ==> e.r.now < DayEnd(e.r.day))
    && (e.Read? && s.loaded && (!s.ledger.open || s.ledger.cur.date < NewestDate(s.log)) ==>
          e.r.day.date >= NewestDate(s.log))
    && (e.Load? && !s.loaded && s.today.Some? ==> Safe(s, s.today.value.date))
  }

  ghost predicate Ordered(s: Sys) {
    && Ascending(Counted(s.log))
    && (s.ledger.open && s.pending.None? ==> Safe(s, s.ledger.cur.date))
    && (s.pending.Some? ==>
          && s.ledger.open && s.ledger.cur.date >= NewestDate(s.log)
          && s.pending.value.date <= s.ledger.cur.date && Safe(s, s.pending.value.date))
    && (s.persist.Copied? && s.persist.closed.Some? ==> s.pending == s.persist.closed)
  }

  /** What a reading does to the dates. */
  lemma ReadDates(s: Sys, r: Reading)
    requires Sound(s) && SaneDate(r.day.date) && r.now < DayEnd(r.day) && s.loaded
    ensures var t := OnRead(s, r);
            && t.ledger.open && t == s.(ledger := t.ledger, pending := t.pending)
            && if Closes(s.ledger, r) then
                 && s.ledger.open && t.ledger.cur.date == r.day.date > s.ledger.cur.date
                 && (if s.pending.Some? then t.pending == s.pending
                     else t.pending.Some? && t.pending.value.date == s.ledger.cur.date)
               else
                 && t.ledger.cur.date == (if s.ledger.open then s.ledger.cur.date else r.day.date)
                 && t.pending == s.pending
  {
    hide Add, GoodAccum, GoodRecord, StoreRun, GoodPersist, SaneDate, Closes, ClosedAccum, ToRecord;
    FeedGood(s.ledger, r);
    OpenAfter(s.ledger, r);
    FeedDate(s.ledger, r);
    CloseOpensLaterDate(s.ledger, r);
    FinishedIsClosed(s.ledger, r);
    ClosesOpen(s.ledger, r);
  }

  lemma ReadOrdered(s: Sys, r: Reading)
    requires Sound(s) && Ordered(s) && ForwardEvent(s, Read(r))
    ensures Ordered(OnRead(s, r))
  {
    hide Feed, Pause, Ascending, Counted, NewestDate, Reached, Closes, SaneDate, Sound;
    if s.loaded { ReadDates(s, r); } else { PauseKeeps(s.ledger); }
  }

  lemma PauseKeeps(l: Ledger)
    ensures Pause(l).open == l.open && Pause(l).cur == l.cur
  {
  }

  lemma SoundStore(s: Sys)
    requires Sound(s)
    ensures s.months == StoreRun(map[], s.log) && ValidStore(s.months) && SaneCalls(s.log)
  {
    hide ValidStore, SaneDate, StoreRun;
    LogIsSane(s);
    EmptyValid();
    RunKeepsValid(map[], s.log);
  }

  /** In order, the newest counted day is one the store has reached. */
  lemma NewestReached(s: Sys)
    requires Sound(s) && Ascending(Counted(s.log)) && Counted(s.log) != []
    ensures Reached(s.months, NewestDate(s.log)) && SaneDate(NewestDate(s.log))
  {
    hide StoreRun, Counted, Mainline, ValidStore, LifeOf;
    SoundStore(s);
    RunTracks(s.log);
    MainlineIffAscending(s.log);
    LastDate(Mainline(s.log));
  }

  lemma SafeCounts(s: Sys, c: Call)
    requires Sound(s) && Ascending(Counted(s.log)) && SaneDate(c.day.date) && Safe(s, c.day.date)
    ensures Counts(s.months, c) ==> Later(Counted(s.log), c)
  {
    hide Commit, Folds, ValidStore, Counted, Ascending, Sound, SaneDate;
    SoundStore(s);
    if Counts(s.months, c) && !Later(Counted(s.log), c) {
      NewestReached(s);
      assert Reached(s.months, c.day.date);
      ReachedNotCounted(s.months, c);
      assert false;
    }
  }

  lemma AppendCounted(log: seq<Call>, c: Call)
    ensures Counted(log + [c]) == if Counts(StoreRun(map[], log), c) then Counted(log) + [c] else Counted(log)
  {
    hide Folds, StoreRun;
    assert (log + [c])[..|log|] == log;
  }

  lemma CommitOrdered(s: Sys, rnd: nat, io: CommitIo)
    requires Sound(s) && Ordered(s) && s.persist.Copied? && s.persist.closed.Some?
    ensures Ordered(OnCommit(s, rnd, io))
  {
    hide Sound, Commit, Counted, CommitOk, Folds, Ascending, Reached, SaneDate, StoreRun;
    var c := Call(s.persist.closed.value, rnd, io);
    PendingSane(s);
    SafeCounts(s, c);
    SoundMonths(s);
    AppendCounted(s.log, c);
    if Counts(s.months, c) {
      AscendingAppend(Counted(s.log), c);
      assert NewestDate(s.log + [c]) == c.day.date;
    } else {
      NotCounted(s.months, c);
    }
  }

  lemma PendingSane(s: Sys)
    requires Sound(s)
    ensures s.pending.Some? ==> SaneDate(s.pending.value.date)
  {
    hide GoodRecord;
    if s.pending.Some? { GoodRecordSane(s.pending.value); }
  }

  lemma NextOrdered(s: Sys, e: Event)
    requires Sound(s) && Ordered(s) && ForwardEvent(s, e)
    ensures Ordered(Next(s, e))
  {
    hide Sound, Commit, Counted, CommitOk, Ascending, Reached, SaneDate, StoreRun, Add, DaysFromDate, NewestDate;
    match e
    case Read(r) => ReadOrdered(s, r);
    case CommitStep(rnd, io) =>
      if s.persist.Copied? && s.persist.closed.Some? { CommitOrdered(s, rnd, io); }
    case _ =>
  }

  predicate ForwardRun(es: seq<Event>) {
    forall k :: 0 <= k < |es| ==> ForwardEvent(SysRun(es[..k]), es[k])
  }

  lemma ForwardPrefix(es: seq<Event>)
    requires ForwardRun(es) && es != []
    ensures ForwardRun(es[..|es| - 1]) && ForwardEvent(SysRun(es[..|es| - 1]), es[|es| - 1])
  {
    hide SysRun, ForwardEvent;
    var init := es[..|es| - 1];
    forall k | 0 <= k < |init| ensures ForwardEvent(SysRun(init[..k]), init[k]) {
      assert init[..k] == es[..k] && init[k] == es[k];
    }
  }

  /** If the clock is never behind the newest counted day when a day is opened after a restart, and
      restored checkpoints are safe, then through every failure, crash, retry and clock step the
      counted dates strictly increase, so the totals of `SystemTotalsExact` are those of all of them. */
  lemma {:induction false} ForwardRunsAreInOrder(es: seq<Event>)
    requires ForwardRun(es)
    ensures Sound(SysRun(es)) && Ordered(SysRun(es))
    ensures Mainline(SysRun(es).log) == Counted(SysRun(es).log)
  {
    hide Sound, Ordered, Next, ForwardEvent, Counted, Mainline;
    if es == [] {
      PowerOnSound();
      PowerOnOrdered();
    } else {
      var init, e := es[..|es| - 1], es[|es| - 1];
      ForwardPrefix(es);
      ForwardRunsAreInOrder(init);
      ForwardIsSane(SysRun(init), e);
      NextSound(SysRun(init), e);
      NextOrdered(SysRun(init), e);
    }
    OrderedAscends(SysRun(es));
    MainlineIffAscending(SysRun(es).log);
  }

  lemma OrderedAscends(s: Sys)
    requires Ordered(s)
    ensures Ascending(Counted(s.log))
  {
  }

  lemma ForwardIsSane(s: Sys, e: Event)
    requires ForwardEvent(s, e)
    ensures SaneEvent(e)
  {
  }

  lemma PowerOnOrdered()
    ensures Ordered(POWER_ON)
  {
  }
}
