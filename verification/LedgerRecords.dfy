/** What every reachable day satisfies, as totals and as the rounded record: covered energy within
    the energy of its mode, averages between the extremes, no counter outgrowing its field. */
module LedgerRecords {
  import opened Basics
  import opened Calendar
  import opened LedgerSpec
  import opened LedgerRuns

  // ---- Energy ----------------------------------------------------------------------------------

  predicate EnergyOk(e: Energy) {
    && (forall m :: 0 <= m < MODES ==> e.covered[m] <= e.elec[m])
    && e.thermalS <= e.powerS
  }

  lemma BookEnergyOk(e: Energy, dt: nat, p: Input)
    requires EnergyOk(e)
    ensures EnergyOk(BookThermal(BookPower(e, dt, p), dt, p))
  {
  }

  // ---- Outdoor temperature ---------------------------------------------------------------------

  /** The time-weighted sum lies between the extremes. */
  predicate OutdoorOk(o: Outdoor) {
    && (o.known <==> o.seconds > 0)
    && o.runSeconds <= o.seconds
    && (o.known ==> o.min <= o.max && o.min * o.seconds <= o.sum <= o.max * o.seconds)
    && (!o.known ==> o.sum == 0 && o.runSum == 0)
  }

  /** The same for the running sum, which is only 32 bits wide. */
  predicate RunOk(o: Outdoor) {
    o.known ==> o.min * o.runSeconds <= o.runSum <= o.max * o.runSeconds
  }

  const LIMIT_DECI: int := 1000

  predicate Bounded(o: Outdoor) {
    o.known ==> -LIMIT_DECI <= o.min && o.max <= LIMIT_DECI
  }

  lemma ScaleBetween(lo: int, hi: int, lo': int, hi': int, x: int, s: nat, sum: int, dt: nat)
    requires lo' <= lo && hi <= hi' && lo' <= x <= hi'
    requires lo * s <= sum <= hi * s
    ensures lo' * (s + dt) <= sum + x * dt <= hi' * (s + dt)
  {
    assert lo' * s <= lo * s;
    assert hi * s <= hi' * s;
    assert lo' * dt <= x * dt <= hi' * dt;
    assert lo' * (s + dt) == lo' * s + lo' * dt;
    assert hi' * (s + dt) == hi' * s + hi' * dt;
  }

  lemma WidenFacts(o: Outdoor, deci: int16)
    requires OutdoorOk(o)
    ensures var w := WidenOutdoor(o, deci);
            && w.known && w.min <= deci <= w.max
            && (o.known ==> w.min <= o.min && o.max <= w.max)
            && w == o.(known := true, min := w.min, max := w.max)
            && (o.known && Bounded(o) && -LIMIT_DECI <= deci <= LIMIT_DECI ==> Bounded(w))
            && (!o.known ==> w.min == deci == w.max)
  {
  }

  lemma BookOutdoorForOk(o: Outdoor, dt: nat, p: Input)
    requires OutdoorOk(o) && dt > 0
    ensures OutdoorOk(BookOutdoorFor(o, dt, p))
  {
    hide WidenOutdoor, Wrap16, Wrap32;
    var deci := Deci(p);
    var w := WidenOutdoor(o, deci);
    WidenFacts(o, deci);
    if o.known {
      ScaleBetween(o.min, o.max, w.min, w.max, deci, o.seconds, o.sum, dt);
    } else {
      ScaleBetween(deci, deci, w.min, w.max, deci, 0, 0, dt);
    }
  }

  /** Readings within 100 degrees keep the running sum exact while the running time is short of
      2147483 seconds: the 32-bit sum does not wrap. */
  lemma BookOutdoorForRun(o: Outdoor, dt: nat, p: Input)
    requires OutdoorOk(o) && RunOk(o) && Bounded(o) && dt > 0
    requires -100 <= p.outdoorC <= 100
    requires o.runSeconds + dt <= 2147483
    ensures RunOk(BookOutdoorFor(o, dt, p)) && Bounded(BookOutdoorFor(o, dt, p))
    ensures p.running && IsMode(p) ==> BookOutdoorFor(o, dt, p).runSum == o.runSum + Deci(p) * dt
  {
    hide WidenOutdoor, Wrap16, Wrap32;
    var deci := Deci(p);
    assert deci == p.outdoorC * 10;
    var w := WidenOutdoor(o, deci);
    WidenFacts(o, deci);
    if o.known {
      ScaleBetween(o.min, o.max, w.min, w.max, deci, o.runSeconds, o.runSum, dt);
      ScaleBetween(o.min, o.max, w.min, w.max, deci, o.runSeconds, o.runSum, 0);
    } else {
      ScaleBetween(deci, deci, w.min, w.max, deci, 0, 0, dt);
    }
    LimitProduct(w.min, w.max, o.runSeconds + dt);
  }

  lemma LimitProduct(lo: int, hi: int, s: nat)
    requires -LIMIT_DECI <= lo && hi <= LIMIT_DECI && s <= 2147483
    ensures -0x8000_0000 <= lo * s && hi * s < 0x8000_0000
  {
    assert -LIMIT_DECI * s <= lo * s;
    assert hi * s <= LIMIT_DECI * s;
  }

  // ---- Every reachable day ---------------------------------------------------------------------

  predicate DayOk(a: DayAccum) {
    EnergyOk(a.energy) && OutdoorOk(a.outdoor)
  }

  lemma BookOk(a: DayAccum, defrostEndS: int, from: int, to: int, p: Input)
    requires DayOk(a)
    ensures DayOk(Book(a, defrostEndS, from, to, p))
  {
    hide EnergyOk, OutdoorOk, BookThermal, BookPower, BookOutdoorFor;
    if from < to && p.connected {
      BookEnergyOk(a.energy, to - from, p);
      var outFrom := OutdoorFrom(defrostEndS, from);
      if to > outFrom { BookOutdoorForOk(a.outdoor, to - outFrom, p); }
    }
  }

  predicate LedgerOk(l: Ledger) {
    l.open ==> DayOk(l.cur)
  }

  /** One reading: the open day and any day it closes are well formed. */
  lemma FeedOk(l: Ledger, r: Reading)
    requires LedgerOk(l)
    ensures LedgerOk(Feed(l, r))
    ensures forall a :: a in ClosedBy(l, r) ==> DayOk(a)
  {
    hide DayOk, ToRecord;
    EmptyOk(r.day);
    if l.open && !Dropped(l, r.now, r.day) {
      var s := Seen(l, r.now, r.day);
      BookOk(s.cur, s.defrostEndS, s.prevS, s.endS, s.prev);
      AcceptOk(s, r);
    }
  }

  lemma EmptyOk(day: Day)
    ensures DayOk(EMPTY.(date := day.date, utcOffsetMin := day.utcOffsetMin))
  {
  }

  lemma AcceptOk(s: Ledger, r: Reading)
    requires DayOk(s.cur)
    ensures DayOk(Accept(s, r.now, r.day, r.i).cur)
  {
    hide DayOk, ToRecord, Book, CountEdges;
    EmptyOk(r.day);
    var boundary := s.endS;
    BookOk(s.cur, s.defrostEndS, s.prevS, r.now, s.prev);
    var l1 := if s.prevS < boundary then BookInto(s, s.prevS, boundary, s.prev) else s;
    var next := CloseAndOpen(l1, r.day);
    BookOk(next.cur, s.defrostEndS, Max(s.prevS, boundary), r.now, s.prev);
    if s.hasPrev && r.now >= s.prevS {
      EdgesOk(Advance(s, r.now, r.day), r.now - s.prevS <= MAX_STEP_SECONDS, r.now, r.i);
    }
  }

  lemma EdgesOk(l: Ledger, inStep: bool, now: int, i: Input)
    ensures DayOk(Edges(l, inStep, now, i).cur) <==> DayOk(l.cur)
  {
  }

  /** From a fresh ledger or one restored from the checkpoint of such a ledger, every day of every
      run is well formed. */
  lemma {:induction false} EveryDayOk(l: Ledger, rs: seq<Reading>)
    requires LedgerOk(l)
    ensures LedgerOk(Run(l, rs))
    ensures forall a :: a in ClosedDays(l, rs) ==> DayOk(a)
  {
    hide LedgerOk, DayOk, Add, ClosedBy;
    if rs != [] {
      var init := rs[..|rs| - 1];
      EveryDayOk(l, init);
      FeedOk(Run(l, init), rs[|rs| - 1]);
    }
  }

  // ---- The rounded record ----------------------------------------------------------------------

  lemma MulMonotone(a: int, b: int, s: nat)
    requires a <= b
    ensures a * s <= b * s
  {
  }

  lemma MulCancel(a: int, b: int, s: nat)
    requires a * s < b * s
    ensures a < b
  {
    if a >= b {
      MulMonotone(b, a, s);
      assert false;
    }
  }

  lemma AverageBetween(lo: int, hi: int, sum: int, s: nat)
    requires s > 0 && lo * s <= sum <= hi * s
    ensures lo <= TruncDiv(sum, s) <= hi
  {
    var q := TruncDiv(sum, s);
    assert (q + 1) * s == q * s + s && (q - 1) * s == q * s - s && (hi + 1) * s == hi * s + s &&
        (lo - 1) * s == lo * s - s;
    if sum >= 0 {
      MulCancel(lo, q + 1, s);
      MulCancel(q, hi + 1, s);
    } else {
      MulCancel(lo - 1, q, s);
      MulCancel(q - 1, hi, s);
    }
  }

  /** In the record the day average, and the running average when its sum is exact, lie between the
      extremes. */
  lemma RecordedAverages(o: Outdoor)
    requires OutdoorOk(o)
    ensures var r := ToOutdoorRecord(o);
            && (r.known ==> r.min <= r.avg <= r.max)
            && (r.runKnown && RunOk(o) ==> r.known && r.min <= r.runAvg <= r.max)
  {
    hide Wrap16, TruncDiv;
    if o.seconds > 0 { AverageBetween(o.min, o.max, o.sum, o.seconds); }
    if o.runSeconds > 0 && RunOk(o) { AverageBetween(o.min, o.max, o.runSum, o.runSeconds); }
  }

  lemma RoundWhMonotone(c: nat, e: nat)
    requires c <= e
    ensures RoundWh(c) <= RoundWh(e)
  {
  }

  /** Rounding keeps `covered <= elec` for every covered value exactly when the mode's energy, in
      watt-hours, fits 32 bits (or lands on the last value before the next wrap). */
  lemma RoundedOrderKept(elec: nat)
    ensures (forall c: nat :: c <= elec ==> WsToWh(c) <= WsToWh(elec)) <==>
            RoundWh(elec) < UINT32 || RoundWh(elec) % UINT32 == UINT32 - 1
  {
    var e := RoundWh(elec);
    if e < UINT32 || e % UINT32 == UINT32 - 1 {
      forall c: nat | c <= elec ensures WsToWh(c) <= WsToWh(elec) {
        RoundWhMonotone(c, elec);
      }
    } else {
      var c: nat := 3600 * (UINT32 - 1);
      assert RoundWh(c) == UINT32 - 1;
      assert c <= elec;
      assert WsToWh(c) > WsToWh(elec);
    }
  }

  predicate RecordOk(r: DayRecord) {
    && (forall m :: 0 <= m < MODES ==> r.energy.covered[m] <= r.energy.elec[m])
    && r.energy.thermalS <= r.energy.powerS
    && (r.outdoor.known ==> r.outdoor.min <= r.outdoor.avg <= r.outdoor.max)
    && (r.outdoor.runKnown ==> r.outdoor.known && r.outdoor.min <= r.outdoor.runAvg <= r.outdoor.max)
  }

  /** A well-formed day has a well-formed record if its running sum is exact and its energy fits. */
  lemma RecordOfOkDay(a: DayAccum)
    requires DayOk(a) && RunOk(a.outdoor)
    requires forall m :: 0 <= m < MODES ==> RoundWh(a.energy.elec[m]) < UINT32
    ensures RecordOk(ToRecord(a))
  {
    RecordedAverages(a.outdoor);
    forall m | 0 <= m < MODES ensures WsToWh(a.energy.covered[m]) <= WsToWh(a.energy.elec[m]) {
      RoundWhMonotone(a.energy.covered[m], a.energy.elec[m]);
    }
    assert forall m :: 0 <= m < MODES ==> ToRecord(a).energy.covered[m] == WsToWh(a.energy.covered[m]);
    assert forall m :: 0 <= m < MODES ==> ToRecord(a).energy.elec[m] == WsToWh(a.energy.elec[m]);
  }

  // ---- Days of plausible readings --------------------------------------------------------------

  const POWER_LIMIT_W: int := 80_000_000
  const BOOKED_LIMIT_S: int := 190_000

  /** Within 100 degrees and 80 megawatts. */
  predicate Mild(i: Input) {
    -100 <= i.outdoorC <= 100 && i.powerW <= POWER_LIMIT_W
  }

  /** A day of mild readings: the 32-bit running sum is exact and the power bounded. */
  predicate DayMild(a: DayAccum) {
    && DayOk(a) && RunOk(a.outdoor) && Bounded(a.outdoor)
    && (forall k :: 0 <= k < BUCKETS ==> a.energy.elec[k] <= POWER_LIMIT_W * a.energy.powerS)
  }

  /** The day has not booked more than 190000 seconds. */
  predicate Light(a: DayAccum) {
    a.outdoor.seconds <= BOOKED_LIMIT_S && a.energy.powerS <= BOOKED_LIMIT_S
  }

  lemma BookPowerMild(e: Energy, dt: nat, p: Input, k: nat)
    requires k < BUCKETS && e.elec[k] <= POWER_LIMIT_W * e.powerS && p.powerW <= POWER_LIMIT_W
    ensures var f := BookThermal(BookPower(e, dt, p), dt, p); f.elec[k] <= POWER_LIMIT_W * f.powerS
  {
    MulMonotone(p.powerW, POWER_LIMIT_W, dt);
    assert POWER_LIMIT_W * (e.powerS + dt) == POWER_LIMIT_W * e.powerS + POWER_LIMIT_W * dt;
  }

  lemma BookMild(a: DayAccum, defrostEndS: int, from: int, to: int, p: Input)
    requires DayMild(a) && Mild(p) && (from < to ==> a.outdoor.seconds + (to - from) <= 2147483)
    ensures DayMild(Book(a, defrostEndS, from, to, p))
  {
    BookOk(a, defrostEndS, from, to, p);
    if from < to && p.connected {
      forall k | 0 <= k < BUCKETS
        ensures var f := Book(a, defrostEndS, from, to, p).energy; f.elec[k] <= POWER_LIMIT_W * f.powerS
      {
        BookPowerMild(a.energy, to - from, p, k);
      }
      hide BookThermal, BookPower, RunOk, Bounded, BookOutdoorFor, BookActivity, NoteSettings;
      BookOutdoorRun(a.outdoor, defrostEndS, from, to, p);
    }
  }

  lemma BookOutdoorRun(o: Outdoor, defrostEndS: int, from: int, to: int, p: Input)
    requires OutdoorOk(o) && RunOk(o) && Bounded(o) && Mild(p) && from < to && o.seconds + (to - from) <= 2147483
    ensures RunOk(BookOutdoor(o, defrostEndS, from, to, p)) && Bounded(BookOutdoor(o, defrostEndS, from, to, p))
  {
    var outFrom := OutdoorFrom(defrostEndS, from);
    if to > outFrom {
      hide BookOutdoorFor, RunOk, Bounded;
      BookOutdoorForRun(o, to - outFrom, p);
    }
  }

  lemma EmptyMild(day: Day)
    ensures DayMild(EMPTY.(date := day.date, utcOffsetMin := day.utcOffsetMin))
  {
  }

  lemma EdgesMild(l: Ledger, inStep: bool, now: int, i: Input)
    ensures DayMild(Edges(l, inStep, now, i).cur) <==> DayMild(l.cur)
  {
  }

  lemma AdvanceMild(s: Ledger, now: int, day: Day)
    requires DayMild(s.cur) && s.cur.outdoor.seconds <= BOOKED_LIMIT_S && Mild(s.prev) && s.prevS <= now
    ensures DayMild(Advance(s, now, day).cur)
  {
    hide DayMild, Book, ToRecord;
    EmptyMild(day);
    if now - s.prevS <= MAX_STEP_SECONDS {
      if now < s.endS {
        BookMild(s.cur, s.defrostEndS, s.prevS, now, s.prev);
      } else {
        var e := EMPTY.(date := day.date, utcOffsetMin := day.utcOffsetMin);
        BookMild(e, s.defrostEndS, Max(s.prevS, s.endS), now, s.prev);
      }
    }
  }

  lemma AcceptMild(s: Ledger, r: Reading)
    requires DayMild(s.cur) && s.cur.outdoor.seconds <= BOOKED_LIMIT_S && (s.hasPrev ==> Mild(s.prev))
    ensures DayMild(Accept(s, r.now, r.day, r.i).cur)
  {
    hide DayMild, ToRecord, Advance, Edges;
    EmptyMild(r.day);
    if s.hasPrev && r.now >= s.prevS {
      AdvanceMild(s, r.now, r.day);
      EdgesMild(Advance(s, r.now, r.day), r.now - s.prevS <= MAX_STEP_SECONDS, r.now, r.i);
    }
  }

  /** A ledger whose open day and reference are mild. */
  predicate LedgerMild(l: Ledger) {
    (l.open ==> DayMild(l.cur)) && (l.hasPrev ==> Mild(l.prev))
  }

  predicate LedgerLight(l: Ledger) {
    l.open ==> Light(l.cur)
  }

  /** One reading, on any clock: the open day and the day it closes stay mild. */
  lemma FeedMild(l: Ledger, r: Reading)
    requires LedgerMild(l) && LedgerLight(l) && Mild(r.i)
    ensures LedgerMild(Feed(l, r))
    ensures forall a :: a in ClosedBy(l, r) ==> DayMild(a) && a.energy.powerS <= BOOKED_LIMIT_S + MAX_STEP_SECONDS
  {
    hide DayMild, ToRecord, Mild, Accept;
    EmptyMild(r.day);
    if l.open && !Dropped(l, r.now, r.day) {
      var s := Seen(l, r.now, r.day);
      AcceptMild(s, r);
      AcceptFacts(s, r.now, r.day, r.i);
      if Closes(l, r) { ClosedMild(l, r); }
    }
  }

  lemma ClosedMild(l: Ledger, r: Reading)
    requires LedgerMild(l) && LedgerLight(l) && Closes(l, r)
    ensures DayMild(ClosedAccum(l, r)) && ClosedAccum(l, r).energy.powerS <= BOOKED_LIMIT_S + MAX_STEP_SECONDS
  {
    hide DayMild, Mild, Book;
    var s := Seen(l, r.now, r.day);
    if s.hasPrev && 0 <= r.now - s.prevS <= MAX_STEP_SECONDS && s.prevS < s.endS {
      BookMild(s.cur, s.defrostEndS, s.prevS, s.endS, s.prev);
      BookedPower(s.cur, s.defrostEndS, s.prevS, s.endS, s.prev);
    }
  }

  /** Booking adds no more than the interval to the counters of seconds. */
  lemma BookedPower(a: DayAccum, defrostEndS: int, from: int, to: int, p: Input)
    requires from <= to
    ensures var b := Book(a, defrostEndS, from, to, p);
            && a.energy.powerS <= b.energy.powerS <= a.energy.powerS + (to - from)
            && a.outdoor.seconds <= b.outdoor.seconds <= a.outdoor.seconds + (to - from)
  {
    hide Deci, WidenOutdoor, Wrap32;
    var outFrom := OutdoorFrom(defrostEndS, from);
    WidenKeepsSeconds(a.outdoor, Deci(p));
  }

  lemma WidenKeepsSeconds(o: Outdoor, deci: int16)
    ensures WidenOutdoor(o, deci).seconds == o.seconds
  {
  }

  /** A mild day that is light, give or take its last step, has a well-formed record. */
  lemma RecordOfMildDay(a: DayAccum)
    requires DayMild(a) && a.energy.powerS <= BOOKED_LIMIT_S + MAX_STEP_SECONDS
    ensures RecordOk(ToRecord(a))
  {
    forall m | 0 <= m < MODES ensures RoundWh(a.energy.elec[m]) < UINT32 {
      MulMonotone(a.energy.powerS, BOOKED_LIMIT_S + MAX_STEP_SECONDS, POWER_LIMIT_W);
      assert a.energy.elec[m] <= POWER_LIMIT_W * a.energy.powerS;
      RoundWhMonotone(a.energy.elec[m], POWER_LIMIT_W * (BOOKED_LIMIT_S + MAX_STEP_SECONDS));
    }
    hide RecordOk, RoundWh;
    RecordOfOkDay(a);
  }

  predicate AllMild(rs: seq<Reading>) {
    forall a :: 0 <= a < |rs| ==> Mild(rs[a].i)
  }

  /** From any ledger, restored ones included, and on any clock: while no open day books more than
      190000 seconds, mild readings never wrap the 32-bit running sum, and every closed day has a
      well-formed record. */
  lemma {:induction false} EveryRecordOk(l: Ledger, rs: seq<Reading>)
    requires LedgerMild(l) && AllMild(rs) && forall n :: 0 <= n <= |rs| ==> LedgerLight(Run(l, rs[..n]))
    ensures LedgerMild(Run(l, rs))
    ensures forall a :: a in ClosedDays(l, rs) ==> DayMild(a) && RecordOk(ToRecord(a))
    ensures Run(l, rs).open ==> RecordOk(ToRecord(Run(l, rs).cur))
  {
    hide LedgerMild, DayMild, Add, ClosedBy, RecordOk, Mild, ToRecord, LedgerLight;
    assert rs[..|rs|] == rs;
    if rs != [] {
      var init := rs[..|rs| - 1];
      forall n | 0 <= n <= |init| ensures LedgerLight(Run(l, init[..n])) {
        assert init[..n] == rs[..n];
      }
      EveryRecordOk(l, init);
      var b := Run(l, init);
      assert init == rs[..|init|];
      FeedMild(b, rs[|rs| - 1]);
      forall a | a in ClosedBy(b, rs[|rs| - 1]) ensures RecordOk(ToRecord(a)) { RecordOfMildDay(a); }
    }
    assert LedgerLight(Run(l, rs[..|rs|]));
    OpenRecordOk(Run(l, rs));
  }

  // ---- The running sum is exact ----------------------------------------------------------------

  lemma MildStepBound(p: Input, defrostEndS: int, from: int, to: int)
    requires Mild(p) && to - from <= MAX_STEP_SECONDS
    ensures -120_000 <= StepAmount(p, defrostEndS, from, to, RunOutdoorSum) <= 120_000
  {
    hide Wrap16;
    var t := CountedSeconds(p, defrostEndS, from, to, RunOutdoorSum);
    MulMonotone(-LIMIT_DECI, Rate(p, RunOutdoorSum), t);
    MulMonotone(Rate(p, RunOutdoorSum), LIMIT_DECI, t);
  }

  lemma MildSumBound(a: DayAccum)
    requires DayMild(a) && a.outdoor.seconds <= BOOKED_LIMIT_S
    ensures -LIMIT_DECI * BOOKED_LIMIT_S <= a.outdoor.runSum <= LIMIT_DECI * BOOKED_LIMIT_S
  {
    var o := a.outdoor;
    if o.known {
      MulMonotone(-LIMIT_DECI, o.min, o.runSeconds);
      MulMonotone(o.max, LIMIT_DECI, o.runSeconds);
    }
  }

  lemma MildFits(a: DayAccum, defrostEndS: int, from: int, to: int, p: Input)
    requires DayMild(a) && a.outdoor.seconds <= BOOKED_LIMIT_S && Mild(p) && to - from <= MAX_STEP_SECONDS
    ensures SumFits(a, defrostEndS, from, to, p)
  {
    hide DayMild, Mild, StepAmount;
    MildStepBound(p, defrostEndS, from, to);
    MildSumBound(a);
  }

  lemma FeedMildFits(l: Ledger, r: Reading)
    requires LedgerMild(l) && LedgerLight(l)
    ensures FeedFits(l, r)
  {
    hide DayMild, Mild, SumFits;
    var s := Seen(l, r.now, r.day);
    if l.open && l.hasPrev && s.prevS <= r.now && r.now - s.prevS <= MAX_STEP_SECONDS {
      MildFits(s.cur, s.defrostEndS, s.prevS, if r.now < s.endS then r.now else Max(s.prevS, s.endS), s.prev);
      EmptyDayMild();
      MildFits(EMPTY, s.defrostEndS, Max(s.prevS, s.endS), r.now, s.prev);
    }
  }

  lemma EmptyDayMild()
    ensures DayMild(EMPTY)
  {
  }

  /** On such a run no step wraps the 32-bit running sum: closed days plus the open day hold exactly
      the unwrapped sum of temperature times running time, each step split at midnight. */
  lemma RunningSumExact(l: Ledger, rs: seq<Reading>)
    requires LedgerMild(l) && AllMild(rs) && forall n :: 0 <= n <= |rs| ==> LedgerLight(Run(l, rs[..n]))
    ensures RunFits(l, rs)
    ensures TotalOf(ClosedDays(l, rs), RunOutdoorSum) + OpenAmount(Run(l, rs), RunOutdoorSum)
         == OpenAmount(l, RunOutdoorSum) + BookedSteps(l, rs, RunOutdoorSum)
  {
    hide Run, LedgerMild, LedgerLight, Mild, FeedFits, TotalOf, OpenAmount, BookedSteps, ClosedDays;
    forall n | 0 <= n < |rs| ensures FeedFits(Run(l, rs[..n]), rs[n]) {
      var init := rs[..n];
      forall m | 0 <= m <= |init| ensures LedgerLight(Run(l, init[..m])) {
        assert init[..m] == rs[..m];
      }
      EveryRecordOk(l, init);
      FeedMildFits(Run(l, init), rs[n]);
    }
    RunConserves(l, rs, RunOutdoorSum);
  }

  lemma OpenRecordOk(l: Ledger)
    requires LedgerMild(l) && LedgerLight(l)
    ensures l.open ==> RecordOk(ToRecord(l.cur))
  {
    hide RecordOk, ToRecord, DayMild;
    if l.open { RecordOfMildDay(l.cur); }
  }

}
