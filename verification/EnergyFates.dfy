/** What becomes of a closed day: what still holds a copy of it, and exactly when the last copy of an
    uncounted one disappears. */
module EnergyFates {
  import opened Basics
  import opened Calendar
  import opened LedgerSpec
  import opened LedgerRuns
  import opened StoreSpec
  import opened StoreTheorems
  import opened StoreTotals
  import opened EnergySystem
  import opened EnergyOrder

  predicate IsCounted(s: Sys, date: nat) {
    exists i :: 0 <= i < |Counted(s.log)| && Counted(s.log)[i].day.date == date
  }

  predicate IsOpen(s: Sys, date: nat) {
    s.ledger.open && s.ledger.cur.date == date
  }

  predicate IsPending(s: Sys, date: nat) {
    s.pending.Some? && s.pending.value.date == date
  }

  predicate IsCheckpoint(s: Sys, date: nat) {
    s.today.Some? && s.today.value.date == date
  }

  /** The checkpoint the persist task is about to write. */
  function InFlight(s: Sys): Option<DayAccum> {
    if s.persist.Copied? || s.persist.Stored? then s.persist.save else None
  }

  predicate IsInFlight(s: Sys, date: nat) {
    InFlight(s).Some? && InFlight(s).value.date == date
  }

  // ---- The last copy of a day ------------------------------------------------------------------

  /** The day is counted, or something of it still exists. */
  predicate Held(s: Sys, date: nat) {
    IsCounted(s, date) || IsOpen(s, date) || IsPending(s, date) || IsCheckpoint(s, date) || IsInFlight(s, date)
  }

  /** The event takes away the last copy of an uncounted day: a crash, when flash does not hold it; a
      close while another day still waits; a checkpoint written over it, or in flight and not
      written; or a commit the store answered without counting it. */
  predicate TakesLast(s: Sys, e: Event, date: nat) {
    match e
    case Crash => !IsCheckpoint(s, date)
    case Read(r) =>
      && s.loaded && Closes(s.ledger, r) && s.pending.Some?
      && !IsPending(s, date) && !IsCheckpoint(s, date) && !IsInFlight(s, date)
    case SaveStep(written) =>
      && s.persist.Stored? && !IsOpen(s, date) && !IsPending(s, date)
      && if written && s.persist.save.Some? then !IsInFlight(s, date) else !IsCheckpoint(s, date)
    case Finish(locked) =>
      && s.persist.Saved? && locked && s.persist.committed && !IsOpen(s, date) && !IsCheckpoint(s, date)
    case _ => false
  }

  lemma CountedStays(s: Sys, e: Event, date: nat)
    requires Sound(s)
    ensures IsCounted(s, date) ==> IsCounted(Next(s, e), date)
    ensures !e.CommitStep? ==> (IsCounted(Next(s, e), date) <==> IsCounted(s, date))
  {
    hide Counted, Commit, CommitOk, Add, DaysFromDate, StoreRun, GoodRecord, GoodAccum, GoodPersist;
    if e.CommitStep? && s.persist.Copied? && s.persist.closed.Some? {
      var c := Call(s.persist.closed.value, e.rnd, e.io);
      AppendCounted(s.log, c);
      if IsCounted(s, date) {
        var i :| 0 <= i < |Counted(s.log)| && Counted(s.log)[i].day.date == date;
        assert Counted(s.log + [c])[i] == Counted(s.log)[i];
      }
    }
  }

  lemma ReadLost(s: Sys, r: Reading, date: nat)
    requires Sound(s) && SaneDate(r.day.date) && r.now < DayEnd(r.day) && Held(s, date)
    requires IsCounted(OnRead(s, r), date) <==> IsCounted(s, date)
    ensures !Held(OnRead(s, r), date) <==> !IsCounted(s, date) && TakesLast(s, Read(r), date)
  {
    hide IsCounted, Feed, Pause, Closes, SaneDate, Sound;
    if s.loaded { ReadDates(s, r); } else { PauseKeeps(s.ledger); }
  }

  /** The steps of the persist task before it reports back. */
  lemma PersistLost(s: Sys, e: Event, date: nat)
    requires e.Snapshot? || e.CommitStep? || e.SaveStep?
    requires Held(s, date) && (IsCounted(s, date) ==> IsCounted(Next(s, e), date))
    requires !e.CommitStep? ==> (IsCounted(Next(s, e), date) <==> IsCounted(s, date))
    ensures !Held(Next(s, e), date) <==> !IsCounted(s, date) && TakesLast(s, e, date)
  {
    hide IsCounted, Step, CommitOk, SaveDue;
  }

  lemma OtherLost(s: Sys, e: Event, date: nat)
    requires e.Load? || e.Finish? || e.Crash?
    requires Held(s, date) && (IsCounted(Next(s, e), date) <==> IsCounted(s, date))
    ensures !Held(Next(s, e), date) <==> !IsCounted(s, date) && TakesLast(s, e, date)
  {
    hide IsCounted, DaysFromDate;
  }

  /** Exactly when the last copy of an uncounted day disappears, in any reachable state. */
  lemma LostExactly(s: Sys, e: Event, date: nat)
    requires Sound(s) && SaneEvent(e) && (e.Read? ==> e.r.now < DayEnd(e.r.day)) && Held(s, date)
    ensures !Held(Next(s, e), date) <==> !IsCounted(s, date) && TakesLast(s, e, date)
  {
    CountedStays(s, e, date);
    hide Held, IsCounted, TakesLast, Sound, SaneDate, OnLoad, OnSnapshot, OnCommit, OnSave, OnFinish, OnRead;
    if e.Read? { ReadLost(s, e.r, date); }
    else if e.Load? || e.Finish? || e.Crash? { OtherLost(s, e, date); }
    else { PersistLost(s, e, date); }
  }
}
