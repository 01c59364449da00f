/** The checkpoint of the open day over whole runs: its date follows the open day, and a pass of the
    persist task with working writes leaves it no more than ten minutes behind. */
module EnergyCheckpoints {
  import opened Basics
  import opened Calendar
  import opened LedgerSpec
  import opened LedgerRuns
  import opened StoreSpec
  import opened StoreTheorems
  import opened EnergySystem
  import opened EnergyOrder
  import opened EnergyFates

  /** A reading of a sane date that lies before its local day's end. */
  predicate FairEvent(e: Event) {
    SaneEvent(e) && (e.Read? ==> e.r.now < DayEnd(e.r.day))
  }

  /** The quantities that only grow within a day. */
  predicate Grows(k: Quantity) {
    !k.DefrostHeat? && !k.OutdoorSum? && !k.RunOutdoorSum?
  }

  /** The day as it was and as it is later: an older date, or the same with nothing taken away. */
  ghost predicate Grew(was: DayAccum, now: DayAccum) {
    was.date <= now.date && (was.date == now.date ==> forall k :: Grows(k) ==> Amount(was, k) <= Amount(now, k))
  }

  lemma GrewTwice(a: DayAccum, b: DayAccum, c: DayAccum)
    requires Grew(a, b) && Grew(b, c)
    ensures Grew(a, c)
  {
    hide Amount;
  }

  lemma RateNotNegative(p: Input, k: Quantity)
    requires Grows(k)
    ensures Rate(p, k) >= 0
  {
  }

  lemma WorthNotNegative(l: Ledger, r: Reading, k: Quantity)
    requires Grows(k)
    ensures Worth(l, r, k) >= 0
  {
    hide Rate, CountedSeconds;
    RateNotNegative(l.prev, k);
  }

  /** A reading only adds to the open day, or closes it for a later one. */
  lemma FeedGrew(l: Ledger, r: Reading)
    requires l.open && r.now < DayEnd(r.day)
    ensures Grew(l.cur, Feed(l, r).cur)
  {
    hide Feed, Amount, Closes, Worth;
    OpenAfter(l, r);
    FeedDate(l, r);
    CloseOpensLaterDate(l, r);
    if !Closes(l, r) {
      forall k | Grows(k) ensures Amount(l.cur, k) <= Amount(Feed(l, r).cur, k) {
        FeedConserves(l, r, k);
        WorthNotNegative(l, r, k);
      }
    }
  }

  /** What the ledger takes for saved, what is saved, what is on its way and the open day are, in this
      order, the same day growing, or older days. */
  ghost predicate ContentsFollow(s: Sys) {
    && (s.ledger.open && s.today.Some? ==> Grew(s.today.value, s.ledger.cur))
    && (InFlight(s).Some? ==> s.ledger.open && Grew(InFlight(s).value, s.ledger.cur))
    && (InFlight(s).Some? && s.today.Some? ==> Grew(s.today.value, InFlight(s).value))
    && (s.ledger.save.has ==> s.today.Some? && Grew(s.ledger.save.saved, s.today.value))
  }

  ghost predicate Checkpointed(s: Sys) {
    && ContentsFollow(s)
    && (s.loaded && s.today.Some? ==> s.ledger.open)
    && (!s.loaded ==> !s.ledger.open && !s.ledger.save.has && s.persist.Idle? && s.pending.None?)
    && (s.persist.Saved? && s.persist.saved.Some? ==> s.today == s.persist.saved)
  }

  lemma ReadCheckpointed(s: Sys, r: Reading)
    requires Sound(s) && Checkpointed(s) && SaneDate(r.day.date) && r.now < DayEnd(r.day)
    ensures Checkpointed(OnRead(s, r))
  {
    hide Feed, Closes, SaneDate, Sound, Grew;
    if s.loaded {
      ReadDates(s, r);
      FeedKeepsSave(s.ledger, r);
      var t := OnRead(s, r);
      if s.ledger.open {
        FeedGrew(s.ledger, r);
        if s.today.Some? { GrewTwice(s.today.value, s.ledger.cur, t.ledger.cur); }
        if InFlight(s).Some? { GrewTwice(InFlight(s).value, s.ledger.cur, t.ledger.cur); }
      }
    }
  }

  lemma SaveCheckpointed(s: Sys, written: bool)
    requires Checkpointed(s)
    ensures Checkpointed(OnSave(s, written))
  {
    hide Grew;
    if s.ledger.save.has && InFlight(s).Some? { GrewTwice(s.ledger.save.saved, s.today.value, InFlight(s).value); }
  }

  lemma GrewSame(a: DayAccum)
    ensures Grew(a, a)
  {
  }

  lemma NextCheckpointed(s: Sys, e: Event)
    requires Sound(s) && Checkpointed(s) && FairEvent(e)
    ensures Checkpointed(Next(s, e))
  {
    hide Feed, Sound, Step, CommitOk, SaneDate, DaysFromDate, SaveDue, Grew, OnRead, OnSave;
    match e
    case Read(r) => ReadCheckpointed(s, r);
    case Snapshot(now, force) =>
      DueIsOpen(s.ledger, now, force);
      GrewSame(s.ledger.cur);
    case SaveStep(written) => SaveCheckpointed(s, written);
    case Load => if s.today.Some? { GrewSame(s.today.value); }
    case Finish(_) => if s.today.Some? { GrewSame(s.today.value); }
    case _ =>
  }

  lemma DueIsOpen(l: Ledger, now: int, force: bool)
    ensures SaveDue(l, now, force) ==> l.open
  {
  }

  lemma {:induction false} AlwaysCheckpointed(es: seq<Event>)
    requires forall k :: 0 <= k < |es| ==> FairEvent(es[k])
    ensures Sound(SysRun(es)) && Checkpointed(SysRun(es))
  {
    hide Sound, Checkpointed, Next;
    if es == [] {
      PowerOnSound();
      PowerOnCheckpointed();
    } else {
      var init, e := es[..|es| - 1], es[|es| - 1];
      AlwaysCheckpointed(init);
      NextSound(SysRun(init), e);
      NextCheckpointed(SysRun(init), e);
    }
  }

  lemma PowerOnCheckpointed()
    ensures Checkpointed(POWER_ON)
  {
  }

  /** One pass of the persist task with working checkpoint writes, no reading in between. */
  function Pass(s: Sys, now: int, force: bool, rnd: nat, io: CommitIo): Sys {
    Next(Next(Next(Next(s, Snapshot(now, force)), CommitStep(rnd, io)), SaveStep(true)), Finish(true))
  }

  /** After a pass, whatever came before, flash holds the open day as it is; or a copy of the same date
      that has grown no less than one the ledger noted, which is less than ten minutes old or still
      the open day. Either way nothing of the open day but what came since is missing from flash. */
  lemma PassBoundsLoss(es: seq<Event>, now: int, force: bool, rnd: nat, io: CommitIo)
    requires forall k :: 0 <= k < |es| ==> FairEvent(es[k])
    requires SysRun(es).loaded && SysRun(es).ledger.open && SysRun(es).persist.Idle?
    ensures var t := Pass(SysRun(es), now, force, rnd, io);
            && t.ledger.open && t.ledger.cur == SysRun(es).ledger.cur && t.today.Some?
            && Grew(t.today.value, t.ledger.cur)
            && (t.today.value == t.ledger.cur ||
                (&& t.today.value.date == t.ledger.cur.date
                 && t.ledger.save.has && Grew(t.ledger.save.saved, t.today.value)
                 && t.ledger.save.saved.date == t.ledger.cur.date
                 && (t.ledger.save.saved == t.ledger.cur ||
                     (!force && now - t.ledger.save.at < SAVE_INTERVAL_SECONDS))))
  {
    AlwaysCheckpointed(es);
    PassEffects(SysRun(es), now, force, rnd, io);
    GrewSame(SysRun(es).ledger.cur);
    hide SysRun, Sound, Pass, Amount;
  }

  lemma PassEffects(s: Sys, now: int, force: bool, rnd: nat, io: CommitIo)
    requires s.loaded && s.persist.Idle?
    ensures var t, due := Pass(s, now, force, rnd, io), SaveDue(s.ledger, now, force);
            && t.ledger == (if due then MarkSaved(s.ledger, now, s.ledger.cur) else s.ledger)
            && t.today == if due then Some(s.ledger.cur) else s.today
  {
    hide Step, CommitOk, SaveDue, MarkSaved;
    var s1 := Next(s, Snapshot(now, force));
    var s2 := Next(s1, CommitStep(rnd, io));
    assert s2.persist.Stored? && s2.ledger == s.ledger && s2.today == s.today && s2.persist.save == s1.persist.save &&
        s2.persist.at == now;
    var s3 := Next(s2, SaveStep(true));
  }
}
