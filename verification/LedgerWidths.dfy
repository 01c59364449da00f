/** The firmware's counters are fixed-width. These lemmas show when the mathematical integers of
    `LedgerSpec` are those counters. */
module LedgerWidths {
  import opened Basics
  import opened LedgerSpec
  import opened LedgerRuns

  const U32: int := 0x1_0000_0000
  const U64: int := 0x1_0000_0000_0000_0000
  const I63: int := 0x8000_0000_0000_0000

  /** Totals that `t` booked seconds can reach at most. */
  predicate EnergyWithin(e: Energy, t: nat) {
    && e.powerS <= t && e.thermalS <= t
    && (forall k :: 0 <= k < BUCKETS ==> e.elec[k] <= t * U32)
    && (forall k :: 0 <= k < MODES ==> e.covered[k] <= t * U32 && e.thermal[k] <= t * U32)
  }

  predicate ActivityWithin(v: Activity, t: nat) {
    && v.starts <= UINT16_MAX && v.defrosts <= UINT16_MAX
    && v.defrostS <= t && -(t * 0x8000_0000) <= v.defrostThermal <= t * 0x8000_0000
    && (forall k :: 0 <= k < SOURCES ==> v.sourceS[k] <= t)
    && (forall k :: 0 <= k < MODES ==> v.runS[k] <= t)
  }

  predicate OutdoorWithin(o: Outdoor, t: nat) {
    o.runSeconds <= o.seconds <= t && -(t * 0x8000) <= o.sum <= t * 0x8000
  }

  predicate Within(a: DayAccum, t: nat) {
    EnergyWithin(a.energy, t) && ActivityWithin(a.activity, t) && OutdoorWithin(a.outdoor, t)
  }

  /** Every counter fits the field the firmware keeps it in. */
  predicate FitsFields(a: DayAccum) {
    && a.energy.powerS < U32 && a.energy.thermalS < U32
    && (forall k :: 0 <= k < BUCKETS ==> a.energy.elec[k] < U64)
    && (forall k :: 0 <= k < MODES ==> a.energy.covered[k] < U64 && a.energy.thermal[k] < U64)
    && a.activity.starts <= UINT16_MAX && a.activity.defrosts <= UINT16_MAX && a.activity.defrostS < U32
    && -I63 <= a.activity.defrostThermal < I63
    && (forall k :: 0 <= k < SOURCES ==> a.activity.sourceS[k] < U32)
    && (forall k :: 0 <= k < MODES ==> a.activity.runS[k] < U32)
    && a.outdoor.seconds < U32 && a.outdoor.runSeconds < U32 && -I63 <= a.outdoor.sum < I63
  }

  lemma Product(w: int, lo: int, hi: int, dt: nat)
    requires lo <= w <= hi
    ensures lo * dt <= w * dt <= hi * dt
  {
  }

  lemma EnergyGrows(e: Energy, t: nat, dt: nat, p: Input)
    requires EnergyWithin(e, t)
    ensures EnergyWithin(BookThermal(BookPower(e, dt, p), dt, p), t + dt)
  {
    Product(p.powerW, 0, U32, dt);
    Product(p.thermalW, -U32, U32, dt);
    Product(-p.thermalW, -U32, U32, dt);
    assert (t + dt) * U32 == t * U32 + dt * U32;
  }

  lemma ActivityGrows(v: Activity, t: nat, dt: nat, p: Input)
    requires ActivityWithin(v, t)
    ensures ActivityWithin(BookActivity(v, dt, p), t + dt)
  {
    Product(p.defrostThermalW, -0x8000_0000, 0x8000_0000, dt);
    assert (t + dt) * 0x8000_0000 == t * 0x8000_0000 + dt * 0x8000_0000;
  }

  lemma OutdoorGrows(o: Outdoor, t: nat, defrostEndS: int, from: int, to: int, p: Input)
    requires OutdoorWithin(o, t) && from <= to
    ensures OutdoorWithin(BookOutdoor(o, defrostEndS, from, to, p), t + (to - from))
  {
    hide Wrap16, Wrap32;
    var outFrom := OutdoorFrom(defrostEndS, from);
    if to > outFrom { Product(Deci(p), -0x8000, 0x8000, to - outFrom); }
  }

  lemma BookGrows(a: DayAccum, t: nat, defrostEndS: int, from: int, to: int, p: Input)
    requires Within(a, t) && from <= to
    ensures Within(Book(a, defrostEndS, from, to, p), t + (to - from))
  {
    hide EnergyWithin, ActivityWithin, OutdoorWithin;
    if from < to && p.connected {
      EnergyGrows(a.energy, t, to - from, p);
      ActivityGrows(a.activity, t, to - from, p);
      OutdoorGrows(a.outdoor, t, defrostEndS, from, to, p);
    } else {
      Looser(a, t, t + (to - from));
    }
  }

  lemma Looser(a: DayAccum, t: nat, u: nat)
    requires Within(a, t) && t <= u
    ensures Within(a, u)
  {
    Product(t, 0, u, U32);
  }

  lemma EdgesGrow(l: Ledger, inStep: bool, now: int, i: Input, t: nat)
    requires Within(l.cur, t)
    ensures Within(Edges(l, inStep, now, i).cur, t)
  {
  }

  lemma EmptyWithin(day: Day, t: nat)
    ensures Within(EMPTY.(date := day.date, utcOffsetMin := day.utcOffsetMin), t)
  {
  }

  const STEP: nat := 120

  lemma AdvanceGrows(s: Ledger, now: int, day: Day, t: nat)
    requires s.prevS <= now && Within(s.cur, t)
    ensures Within(Advance(s, now, day).cur, t + STEP)
  {
    hide Book, Within, ToRecord;
    EmptyWithin(day, t + STEP);
    Looser(s.cur, t, t + STEP);
    if now - s.prevS <= MAX_STEP_SECONDS {
      if now < s.endS {
        BookGrows(s.cur, t, s.defrostEndS, s.prevS, now, s.prev);
        Looser(Book(s.cur, s.defrostEndS, s.prevS, now, s.prev), t + (now - s.prevS), t + STEP);
      } else {
        var e := EMPTY.(date := day.date, utcOffsetMin := day.utcOffsetMin);
        var from := Max(s.prevS, s.endS);
        EmptyWithin(day, 0);
        BookGrows(e, 0, s.defrostEndS, from, now, s.prev);
        Looser(Book(e, s.defrostEndS, from, now, s.prev), now - from, t + STEP);
      }
    }
  }

  lemma FeedGrows(l: Ledger, r: Reading, t: nat)
    requires l.open ==> Within(l.cur, t)
    ensures Within(Feed(l, r).cur, t + STEP)
    ensures forall a :: a in ClosedBy(l, r) ==> Within(a, t + STEP)
  {
    hide Within, Advance, Edges, ToRecord, Book;
    EmptyWithin(r.day, t + STEP);
    if l.open {
      Looser(l.cur, t, t + STEP);
      var s := Seen(l, r.now, r.day);
      if s.hasPrev && r.now >= s.prevS {
        AdvanceGrows(s, r.now, r.day, t);
        EdgesGrow(Advance(s, r.now, r.day), r.now - s.prevS <= MAX_STEP_SECONDS, r.now, r.i, t + STEP);
        if r.now - s.prevS <= MAX_STEP_SECONDS && s.prevS < s.endS <= r.now {
          BookGrows(s.cur, t, s.defrostEndS, s.prevS, s.endS, s.prev);
          Looser(Book(s.cur, s.defrostEndS, s.prevS, s.endS, s.prev), t + (s.endS - s.prevS), t + STEP);
        }
      }
    }
  }

  /** From any ledger, restored ones included, each reading adds at most one step to any day. */
  lemma {:induction false} RunGrows(l: Ledger, t: nat, rs: seq<Reading>)
    requires l.open ==> Within(l.cur, t)
    ensures Run(l, rs).open ==> Within(Run(l, rs).cur, t + STEP * |rs|)
    ensures forall a :: a in ClosedDays(l, rs) ==> Within(a, t + STEP * |rs|)
  {
    hide Within, Add, ClosedBy;
    if rs != [] {
      var init, r := rs[..|rs| - 1], rs[|rs| - 1];
      RunGrows(l, t, init);
      FeedGrows(Run(l, init), r, t + STEP * |init|);
      forall a | a in ClosedDays(l, init) ensures Within(a, t + STEP * |rs|) {
        Looser(a, t + STEP * |init|, t + STEP * |rs|);
      }
    }
  }

  /** No counter of any day wraps while the seconds already booked and 120 for each reading stay below
      2^32: over a year at one reading a second, from a new or a restored day. */
  lemma CountersFit(l: Ledger, t: nat, rs: seq<Reading>)
    requires (l.open ==> Within(l.cur, t)) && t + STEP * |rs| < U32
    ensures Run(l, rs).open ==> FitsFields(Run(l, rs).cur)
    ensures forall a :: a in ClosedDays(l, rs) ==> FitsFields(a)
  {
    hide Within, FitsFields, Run, ClosedDays;
    RunGrows(l, t, rs);
    if Run(l, rs).open { WithinFits(Run(l, rs).cur, t + STEP * |rs|); }
    forall a | a in ClosedDays(l, rs) ensures FitsFields(a) {
      WithinFits(a, t + STEP * |rs|);
    }
  }

  lemma WithinFits(a: DayAccum, t: nat)
    requires Within(a, t) && t < U32
    ensures FitsFields(a)
  {
    assert t * U32 < U64;
  }
}
