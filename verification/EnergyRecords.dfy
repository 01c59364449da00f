/** Every record the whole system stores is well formed, through crashes and restored checkpoints,
    while readings are plausible and no day books too long. */
module EnergyRecords {
  import opened Basics
  import opened Calendar
  import opened LedgerSpec
  import opened LedgerRuns
  import opened LedgerRecords
  import opened StoreSpec
  import opened StoreTheorems
  import opened EnergySystem

  predicate MildSave(a: Option<DayAccum>) {
    a.Some? ==> DayMild(a.value)
  }

  predicate OkRecord(d: Option<DayRecord>) {
    d.Some? ==> RecordOk(d.value)
  }

  predicate MildPersist(p: Persist) {
    match p
    case Idle => true
    case Copied(closed, save, _) => OkRecord(closed) && MildSave(save)
    case Stored(_, save, _) => MildSave(save)
    case Saved(_, _, _) => true
  }

  /** The open day, its copies and every record made of a closed day are well formed. */
  predicate MildSys(s: Sys) {
    && LedgerMild(s.ledger) && MildSave(s.today) && OkRecord(s.pending) && MildPersist(s.persist)
    && forall i :: 0 <= i < |s.log| ==> RecordOk(s.log[i].day)
  }

  lemma ReadMild(s: Sys, r: Reading)
    requires MildSys(s) && LedgerLight(s.ledger) && Mild(r.i)
    ensures MildSys(OnRead(s, r))
  {
    hide Add, DayMild, RecordOk, Mild, ClosedAccum, Closes, ToRecord;
    if s.loaded {
      FeedMild(s.ledger, r);
      FinishedIsClosed(s.ledger, r);
      if Closes(s.ledger, r) {
        assert ClosedAccum(s.ledger, r) in ClosedBy(s.ledger, r);
        RecordOfMildDay(ClosedAccum(s.ledger, r));
      }
    }
  }

  lemma NextMild(s: Sys, e: Event)
    requires MildSys(s) && LedgerLight(s.ledger) && (e.Read? ==> Mild(e.r.i))
    ensures MildSys(Next(s, e))
  {
    hide Feed, DayMild, RecordOk, Mild, DaysFromDate, Step, CommitOk;
    match e
    case Read(r) => ReadMild(s, r);
    case _ =>
  }

  /** Whatever fails, crashes or is restored: with mild readings, and no open day over 190000 booked
      seconds, every record ever handed to the store keeps covered within total energy and its
      averages between their extremes. */
  lemma {:induction false} EveryStoredRecordOk(es: seq<Event>)
    requires forall k :: 0 <= k < |es| ==> LedgerLight(SysRun(es[..k]).ledger) && (es[k].Read? ==> Mild(es[k].r.i))
    ensures MildSys(SysRun(es))
    ensures forall i :: 0 <= i < |SysRun(es).log| ==> RecordOk(SysRun(es).log[i].day)
  {
    hide Next, RecordOk, DayMild, Mild, LedgerLight;
    if es == [] {
      PowerOnMild();
    } else {
      var init := es[..|es| - 1];
      forall k | 0 <= k < |init|
        ensures LedgerLight(SysRun(init[..k]).ledger) && (init[k].Read? ==> Mild(init[k].r.i))
      {
        assert init[..k] == es[..k] && init[k] == es[k];
      }
      EveryStoredRecordOk(init);
      NextMild(SysRun(init), es[|es| - 1]);
    }
  }

  lemma PowerOnMild()
    ensures MildSys(POWER_ON)
  {
  }
}
