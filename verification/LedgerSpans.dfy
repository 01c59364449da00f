/** Days of bounded length on a clock that does not go back, from a fresh or a restored ledger: what
    they book is bounded by the time they are open, so their records are well formed. */
module LedgerSpans {
  import opened Basics
  import opened Calendar
  import opened LedgerSpec
  import opened LedgerRuns
  import opened LedgerRecords

  const DAY_LIMIT_S: int := 50 * 3600

  /** By time `t` the open day has booked no more than the seconds since `from`; a reference is the
      reading at `t`. */
  predicate Elapsed(l: Ledger, from: int, t: int) {
    && (l.open ==> from <= t && l.cur.outdoor.seconds <= t - from && l.cur.energy.powerS <= t - from)
    && (l.hasPrev ==> l.prevS == t)
  }

  /** The first instant that could be booked to the day open after a reading. */
  function StartAfter(b: Ledger, r: Reading, from: int): int {
    if !b.open then r.now
    else if Closes(b, r) then (if StepSeconds(b, r) > 0 then Max(b.prevS, Seen(b, r.now, r.day).endS) else r.now)
    else from
  }

  lemma AdvanceElapsed(s: Ledger, now: int, day: Day)
    requires s.prevS <= now
    ensures var t := Advance(s, now, day).cur;
            var dt := if now - s.prevS <= MAX_STEP_SECONDS then now - s.prevS else 0;
            if now < s.endS then
              t.outdoor.seconds <= s.cur.outdoor.seconds + dt && t.energy.powerS <= s.cur.energy.powerS + dt
            else
              var open := if dt > 0 then now - Max(s.prevS, s.endS) else 0;
              t.outdoor.seconds <= open && t.energy.powerS <= open
  {
    hide Book, ToRecord;
    if now - s.prevS <= MAX_STEP_SECONDS {
      if now < s.endS {
        BookedPower(s.cur, s.defrostEndS, s.prevS, now, s.prev);
      } else {
        var e := EMPTY.(date := day.date, utcOffsetMin := day.utcOffsetMin);
        BookedPower(e, s.defrostEndS, Max(s.prevS, s.endS), now, s.prev);
      }
    }
  }

  lemma EdgesSeconds(l: Ledger, inStep: bool, now: int, i: Input)
    ensures var c := Edges(l, inStep, now, i).cur; c.outdoor == l.cur.outdoor && c.energy == l.cur.energy
  {
  }

  lemma FeedElapsed(b: Ledger, r: Reading, from: int, t: int)
    requires Elapsed(b, from, t) && t <= r.now
    ensures Elapsed(Feed(b, r), StartAfter(b, r, from), r.now)
  {
    hide Advance, Edges, ToRecord;
    if b.open && !Dropped(b, r.now, r.day) {
      var s := Seen(b, r.now, r.day);
      if s.hasPrev {
        AdvanceElapsed(s, r.now, r.day);
        EdgesSeconds(Advance(s, r.now, r.day), r.now - s.prevS <= MAX_STEP_SECONDS, r.now, r.i);
      }
    }
  }

  function OpenedAt(l: Ledger, from: int, rs: seq<Reading>): int {
    if rs == [] then from
    else
      var init := rs[..|rs| - 1];
      StartAfter(Run(l, init), rs[|rs| - 1], OpenedAt(l, from, init))
  }

  predicate ForwardClock(t: int, rs: seq<Reading>) {
    && (forall a :: 0 <= a < |rs| ==> t <= rs[a].now)
    && (forall a, b :: 0 <= a < b < |rs| ==> rs[a].now <= rs[b].now)
  }

  function LastTime(t: int, rs: seq<Reading>): int {
    if rs == [] then t else rs[|rs| - 1].now
  }

  /** No day of the run, the first with the time it had booked before, is open over 50 hours. */
  predicate ShortDays(l: Ledger, from: int, t: int, rs: seq<Reading>) {
    forall n :: 0 <= n <= |rs| ==> LastTime(t, rs[..n]) - OpenedAt(l, from, rs[..n]) <= DAY_LIMIT_S
  }

  lemma {:induction false} RunElapsed(l: Ledger, from: int, t: int, rs: seq<Reading>)
    requires Elapsed(l, from, t) && ForwardClock(t, rs)
    ensures Elapsed(Run(l, rs), OpenedAt(l, from, rs), LastTime(t, rs))
  {
    hide Elapsed, Add, StartAfter;
    if rs != [] {
      var init := rs[..|rs| - 1];
      RunElapsed(l, from, t, init);
      FeedElapsed(Run(l, init), rs[|rs| - 1], OpenedAt(l, from, init), LastTime(t, init));
    }
  }

  /** With readings within 100 degrees and 80 megawatts, days under 50 hours and a clock that does not
      go back, from any ledger: the 32-bit running sum never wraps, on the open day and on every
      closed one, and every record is well formed. */
  lemma ShortDaysStayExact(l: Ledger, from: int, t: int, rs: seq<Reading>)
    requires LedgerMild(l) && Elapsed(l, from, t) && AllMild(rs) && ForwardClock(t, rs) && ShortDays(l, from, t, rs)
    ensures Run(l, rs).open ==> DayMild(Run(l, rs).cur) && RecordOk(ToRecord(Run(l, rs).cur))
    ensures forall a :: a in ClosedDays(l, rs) ==> DayMild(a) && RecordOk(ToRecord(a))
    ensures RunFits(l, rs)
    ensures TotalOf(ClosedDays(l, rs), RunOutdoorSum) + OpenAmount(Run(l, rs), RunOutdoorSum)
         == OpenAmount(l, RunOutdoorSum) + BookedSteps(l, rs, RunOutdoorSum)
  {
    hide Run, OpenedAt, DayMild, RecordOk, ToRecord, TotalOf, OpenAmount, BookedSteps, FeedFits;
    forall n | 0 <= n <= |rs| ensures LedgerLight(Run(l, rs[..n])) {
      RunElapsed(l, from, t, rs[..n]);
      assert LastTime(t, rs[..n]) - OpenedAt(l, from, rs[..n]) <= DAY_LIMIT_S;
    }
    EveryRecordOk(l, rs);
    RunningSumExact(l, rs);
  }

  /** The two ways such a run starts: a new device, and a checkpoint restored at time `t` that has
      booked at most `booked` seconds. */
  lemma StartsElapsed(a: DayAccum, t: int, booked: nat)
    requires DayMild(a) && a.outdoor.seconds <= booked && a.energy.powerS <= booked
    ensures LedgerMild(FRESH) && Elapsed(FRESH, t, t)
    ensures LedgerMild(Restore(FRESH, a)) && Elapsed(Restore(FRESH, a), t - booked, t)
  {
    hide DayMild, DaysFromDate;
  }
}
