/** Runs in which no closed day is dropped: their restored checkpoints are safe, so their days count
    in order, and no closed day is lost. */
module EnergyCareful {
  import opened Basics
  import opened Calendar
  import opened LedgerSpec
  import opened LedgerRuns
  import opened StoreSpec
  import opened StoreTheorems
  import opened StoreTotals
  import opened StoreRuns
  import opened EnergySystem
  import opened EnergyOrder
  import opened EnergyFates
  import opened EnergyCheckpoints

  /** No day closes while another waits, the clock is not behind the newest counted day when a day is
      opened after a restart, and an older checkpoint is restored only while its month is kept. */
  predicate CarefulEvent(s: Sys, e: Event) {
    && FairEvent(e)
    && (e.Read? && s.loaded && Closes(s.ledger, e.r) ==> s.pending.None?)
    && (e.Read? && s.loaded && (!s.ledger.open || s.ledger.cur.date < NewestDate(s.log)) ==>
          e.r.day.date >= NewestDate(s.log))
    && (e.Load? && !s.loaded && s.today.Some? ==>
          s.today.value.date >= NewestDate(s.log) || MonthOf(s.today.value.date) in s.months)
  }

  /** Not older than the newest counted day, or counted itself. */
  predicate Due(s: Sys, date: nat) {
    date >= NewestDate(s.log) || IsCounted(s, date)
  }

  /** A saved day is open, waits, is counted, or will be restored as due. */
  predicate Traced(s: Sys, date: nat) {
    IsCounted(s, date) || IsPending(s, date) || IsOpen(s, date) || (!s.ledger.open && date >= NewestDate(s.log))
  }

  /** The persist task has committed what waits. */
  predicate Committed(p: Persist) {
    (p.Stored? || p.Saved?) && p.committed
  }

  predicate Careful(s: Sys) {
    && (s.today.Some? ==> Traced(s, s.today.value.date))
    && (InFlight(s).Some? ==> Traced(s, InFlight(s).value.date))
    && (s.ledger.open && s.pending.None? ==> Due(s, s.ledger.cur.date))
    && (s.pending.Some? ==> Due(s, s.pending.value.date))
    && (Committed(s.persist) ==> s.pending.Some? && IsCounted(s, s.pending.value.date))
  }

  ghost predicate Good(s: Sys) {
    Sound(s) && Checkpointed(s) && Ordered(s) && Careful(s)
  }

  /** A checkpoint that is restored is safe for the order of the counted days. */
  lemma CarefulIsForward(s: Sys, e: Event)
    requires Good(s) && CarefulEvent(s, e)
    ensures ForwardEvent(s, e)
  {
    hide Closes, SaneDate, Sound, Reached, Counted, NewestDate;
    if e.Load? && !s.loaded && s.today.Some? && s.today.value.date < NewestDate(s.log) {
      var d := s.today.value.date;
      assert IsCounted(s, d);
      var i: nat :| i < |Counted(s.log)| && Counted(s.log)[i].day.date == d;
      SoundStore(s);
      CountedStaysReached(s.log, i);
    }
  }

  lemma ReadCareful(s: Sys, r: Reading)
    requires Good(s) && CarefulEvent(s, Read(r)) && (forall d :: IsCounted(OnRead(s, r), d) <==> IsCounted(s, d))
    ensures Careful(OnRead(s, r))
  {
    hide Feed, Closes, SaneDate, Sound, NewestDate, IsCounted;
    if s.loaded { ReadDates(s, r); }
  }

  /** A commit that is answered with success has counted its day, now or before. */
  lemma CommittedIsCounted(s: Sys, c: Call)
    requires Sound(s) && Ascending(Counted(s.log)) && SaneDate(c.day.date) && Due(s, c.day.date)
    requires CommitOk(s.months, c.day, c.rnd, c.io)
    ensures exists i :: 0 <= i < |Counted(s.log + [c])| && Counted(s.log + [c])[i].day.date == c.day.date
  {
    hide Counted, Sound, Commit, ValidStore, Ascending, StoreRun;
    SoundStore(s);
    AppendCounted(s.log, c);
    CountsExactlyWhen(s.months, c.day, c.rnd, c.io);
    if Counts(s.months, c) {
      assert Counted(s.log + [c])[|Counted(s.log)|] == c;
    } else {
      NotCountedIsOld(s, c);
      assert Counted(s.log)[|Counted(s.log)| - 1].day.date == NewestDate(s.log);
    }
  }

  /** A commit that succeeds without counting is not newer than the newest counted day. */
  lemma NotCountedIsOld(s: Sys, c: Call)
    requires Sound(s) && Ascending(Counted(s.log)) && SaneDate(c.day.date)
    requires CommitOk(s.months, c.day, c.rnd, c.io) && !Counts(s.months, c)
    ensures Counted(s.log) != [] && c.day.date <= NewestDate(s.log)
  {
    hide Counted, Mainline, Sound, Commit, ValidStore, LifeOf, StoreRun, SaneDate;
    SoundStore(s);
    RunTracks(s.log);
    MainlineIffAscending(s.log);
    var done := Mainline(s.log);
    if Later(done, c) {
      if done == [] { FreshNotReached(c); } else {
        LaterNotReached(s.months, done, c);
      }
    }
  }

  lemma FreshNotReached(c: Call)
    requires SaneDate(c.day.date)
    ensures !AlreadyCounted(map[], c.day, c.rnd)
  {
    EmptyValid();
    CountsExactlyWhen(map[], c.day, c.rnd, Written({}));
    BaseEndsEarlier(map[], MonthOf(c.day.date), c.rnd);
  }

  lemma LaterNotReached(months: Months, done: seq<Call>, c: Call)
    requires Tracks(months, done) && done != [] && Later(done, c) && SaneDate(c.day.date)
    ensures !AlreadyCounted(months, c.day, c.rnd)
  {
    hide LifeOf, BaseBlob;
    CarriesOn(months, done, c);
    LastDate(done);
  }

  /** A commit moves the newest counted date only by counting its own day. */
  lemma CommitNewest(s: Sys, c: Call)
    requires Sound(s)
    ensures NewestDate(s.log + [c]) == if Counts(s.months, c) then c.day.date else NewestDate(s.log)
    ensures Counts(s.months, c) ==>
              exists i :: 0 <= i < |Counted(s.log + [c])| && Counted(s.log + [c])[i].day.date == c.day.date
  {
    hide Sound, Counted, Folds, StoreRun;
    SoundMonths(s);
    AppendCounted(s.log, c);
    if Counts(s.months, c) { assert Counted(s.log + [c])[|Counted(s.log)|] == c; }
  }

  /** What a commit does to the dates that matter. */
  lemma CommitDates(s: Sys, rnd: nat, io: CommitIo)
    requires Good(s) && s.persist.Copied? && s.persist.closed.Some?
    ensures var t, d := OnCommit(s, rnd, io), s.persist.closed.value.date;
            && (forall x :: IsCounted(s, x) ==> IsCounted(t, x))
            && (t.persist.committed ==> IsCounted(t, d))
            && NewestDate(t.log) in {NewestDate(s.log), d} && NewestDate(t.log) <= s.ledger.cur.date
            && (NewestDate(t.log) != NewestDate(s.log) ==> IsCounted(t, d))
  {
    var c := Call(s.persist.closed.value, rnd, io);
    var t := OnCommit(s, rnd, io);
    PendingSane(s);
    assert Due(s, c.day.date);
    hide Sound, Step, Counted, CommitOk, Folds, Ascending, Safe, SaneDate, Checkpointed, Careful, Due, NewestDate;
    forall d ensures IsCounted(s, d) ==> IsCounted(t, d) { CountedStays(s, CommitStep(rnd, io), d); }
    if CommitOk(s.months, c.day, rnd, io) { CommittedIsCounted(s, c); }
    CommitNewest(s, c);
  }

  lemma CommitCareful(s: Sys, rnd: nat, io: CommitIo)
    requires Good(s) && s.persist.Copied? && s.persist.closed.Some?
    ensures Careful(OnCommit(s, rnd, io))
  {
    CommitDates(s, rnd, io);
    hide Sound, Step, CommitOk, SaneDate, IsCounted, NewestDate, Checkpointed, Ascending, Counted, Safe;
  }

  lemma FinishCareful(s: Sys, locked: bool)
    requires Good(s) && (forall d :: IsCounted(OnFinish(s, locked), d) <==> IsCounted(s, d))
    ensures Careful(OnFinish(s, locked))
  {
    hide Sound, IsCounted, NewestDate, Safe, Ascending, Counted, Checkpointed;
  }

  /** The other steps leave the counted days alone. */
  lemma PersistCareful(s: Sys, e: Event)
    requires Good(s) && (e.Snapshot? || e.SaveStep?)
    requires forall d :: IsCounted(Next(s, e), d) <==> IsCounted(s, d)
    ensures Careful(Next(s, e))
  {
    hide Sound, SaveDue, IsCounted, NewestDate, Safe, Ascending, Counted, Checkpointed;
    if e.Snapshot? { DueIsOpen(s.ledger, e.now, e.force); }
  }

  lemma BootCareful(s: Sys, e: Event)
    requires Good(s) && (e.Load? || e.Crash?)
    requires forall d :: IsCounted(Next(s, e), d) <==> IsCounted(s, d)
    ensures Careful(Next(s, e))
  {
    hide Sound, DaysFromDate, IsCounted, NewestDate, Safe, Ascending, Counted;
  }

  lemma NextCareful(s: Sys, e: Event)
    requires Good(s) && CarefulEvent(s, e)
    ensures Careful(Next(s, e))
  {
    forall d ensures !e.CommitStep? ==> (IsCounted(Next(s, e), d) <==> IsCounted(s, d)) { CountedStays(s, e, d); }
    hide Careful;
    hide Sound, Checkpointed, Ordered, IsCounted, OnRead, OnLoad, OnSnapshot, OnSave, OnFinish, CarefulEvent, SaneDate;
    if e.Read? { ReadCareful(s, e.r); }
    else if e.Load? || e.Crash? { BootCareful(s, e); }
    else if e.Finish? { FinishCareful(s, e.locked); }
    else if !e.CommitStep? { PersistCareful(s, e); }
    else if s.persist.Copied? && s.persist.closed.Some? {
      hide OnCommit;
      CommitCareful(s, e.rnd, e.io);
    } else {
      NothingToCommit(s, e);
    }
  }

  lemma NothingToCommit(s: Sys, e: Event)
    requires Careful(s) && e.CommitStep? && !(s.persist.Copied? && s.persist.closed.Some?)
    ensures Careful(Next(s, e))
  {
    hide Counted;
  }

  lemma NextGood(s: Sys, e: Event)
    requires Good(s) && CarefulEvent(s, e)
    ensures Good(Next(s, e)) && ForwardEvent(s, e)
  {
    CarefulIsForward(s, e);
    NextSound(s, e);
    NextCheckpointed(s, e);
    NextOrdered(s, e);
    NextCareful(s, e);
    hide Sound, Checkpointed, Ordered, Careful, Next, CarefulEvent, ForwardEvent;
  }

  predicate CarefulRun(es: seq<Event>) {
    forall k :: 0 <= k < |es| ==> CarefulEvent(SysRun(es[..k]), es[k])
  }

  lemma CarefulPrefix(es: seq<Event>)
    requires CarefulRun(es) && es != []
    ensures CarefulRun(es[..|es| - 1]) && CarefulEvent(SysRun(es[..|es| - 1]), es[|es| - 1])
  {
    hide SysRun, CarefulEvent;
    var init := es[..|es| - 1];
    forall k | 0 <= k < |init| ensures CarefulEvent(SysRun(init[..k]), init[k]) {
      assert init[..k] == es[..k] && init[k] == es[k];
    }
  }

  lemma PowerOnGood()
    ensures Good(POWER_ON)
  {
    PowerOnSound();
    PowerOnOrdered();
    PowerOnCheckpointed();
  }

  /** If no closed day is dropped behind a waiting one, the system's own checkpoints are always safe
      to restore, and every day is counted in order. */
  lemma {:induction false} CarefulRunsAreInOrder(es: seq<Event>)
    requires CarefulRun(es)
    ensures Good(SysRun(es)) && ForwardRun(es)
    ensures Mainline(SysRun(es).log) == Counted(SysRun(es).log)
  {
    hide Good, Next, CarefulEvent, ForwardEvent, Counted, Mainline;
    if es == [] {
      PowerOnGood();
    } else {
      var init, e := es[..|es| - 1], es[|es| - 1];
      CarefulPrefix(es);
      CarefulRunsAreInOrder(init);
      NextGood(SysRun(init), e);
      forall k | 0 <= k < |es| ensures ForwardEvent(SysRun(es[..k]), es[k]) {
        if k < |init| { assert init[..k] == es[..k] && init[k] == es[k]; }
      }
    }
    ForwardRunsAreInOrder(es);
  }

  // ---- No closed day is lost -------------------------------------------------------------------

  /** Besides, the device does not crash while an uncounted day waits that flash no longer holds. */
  predicate GentleEvent(s: Sys, e: Event) {
    && CarefulEvent(s, e)
    && (e.Crash? && s.pending.Some? ==> IsCounted(s, s.pending.value.date) || IsCheckpoint(s, s.pending.value.date))
  }

  predicate GentleRun(es: seq<Event>) {
    forall k :: 0 <= k < |es| ==> GentleEvent(SysRun(es[..k]), es[k])
  }

  function ClosedAt(s: Sys, e: Event): set<nat> {
    if e.Read? && s.loaded && Closes(s.ledger, e.r) then {s.ledger.cur.date} else {}
  }

  /** The dates of all days the ledger has closed. */
  function ClosedDates(es: seq<Event>): set<nat> {
    if es == [] then {} else ClosedDates(es[..|es| - 1]) + ClosedAt(SysRun(es[..|es| - 1]), es[|es| - 1])
  }

  /** Counted, waiting to be, or in flash to be closed again. */
  predicate Accounted(s: Sys, date: nat) {
    IsCounted(s, date) || IsPending(s, date) || (IsCheckpoint(s, date) && (s.ledger.open ==> IsOpen(s, date)))
  }

  lemma ReadAccounted(s: Sys, r: Reading, date: nat)
    requires Good(s) && CarefulEvent(s, Read(r)) && (IsCounted(OnRead(s, r), date) <==> IsCounted(s, date))
    requires Accounted(s, date) || date in ClosedAt(s, Read(r))
    ensures Accounted(OnRead(s, r), date)
  {
    hide Feed, Closes, SaneDate, Sound, NewestDate, IsCounted, Ordered, Careful;
    if s.loaded { ReadDates(s, r); }
  }

  lemma OtherAccounted(s: Sys, e: Event, date: nat)
    requires Good(s) && GentleEvent(s, e) && !e.Read? && (IsCounted(s, date) ==> IsCounted(Next(s, e), date))
    requires Accounted(s, date)
    ensures Accounted(Next(s, e), date)
  {
    hide Step, CommitOk, SaneDate, Sound, NewestDate, IsCounted, Ordered, SaveDue, DaysFromDate;
  }

  /** Every closed day is counted, waits to be, or is the checkpoint that a restart closes again. */
  lemma {:induction false} EveryClosedDayAccounted(es: seq<Event>)
    requires GentleRun(es)
    ensures CarefulRun(es) && forall d :: d in ClosedDates(es) ==> Accounted(SysRun(es), d)
  {
    hide Good, Next, GentleEvent, CarefulEvent, Accounted, ClosedAt;
    if es != [] {
      var init, e := es[..|es| - 1], es[|es| - 1];
      forall k | 0 <= k < |init| ensures GentleEvent(SysRun(init[..k]), init[k]) {
        assert init[..k] == es[..k] && init[k] == es[k];
      }
      EveryClosedDayAccounted(init);
      assert GentleEvent(SysRun(es[..|es| - 1]), es[|es| - 1]);
      GentleIsCareful(SysRun(init), e);
      forall k | 0 <= k < |es| ensures CarefulEvent(SysRun(es[..k]), es[k]) {
        if k < |init| { assert init[..k] == es[..k] && init[k] == es[k]; }
      }
      CarefulRunsAreInOrder(init);
      forall d | d in ClosedDates(es) ensures Accounted(SysRun(es), d) {
        NextAccounted(SysRun(init), e, d);
      }
    }
  }

  lemma GentleIsCareful(s: Sys, e: Event)
    requires GentleEvent(s, e)
    ensures CarefulEvent(s, e)
  {
  }

  lemma NextAccounted(s: Sys, e: Event, date: nat)
    requires Good(s) && GentleEvent(s, e) && (Accounted(s, date) || date in ClosedAt(s, e))
    ensures Accounted(Next(s, e), date)
  {
    CountedStays(s, e, date);
    hide Sound, Checkpointed, Ordered, Careful, IsCounted, Accounted, CarefulEvent;
    if e.Read? { ReadAccounted(s, e.r, date); } else { OtherAccounted(s, e, date); }
  }
}
