/** The rest of what a day records, over whole runs: the settings its heat was measured with, the
    extremes of the outdoor temperature, compressor starts and defrosts, and when a defrost ended. */
module LedgerDetails {
  import opened Basics
  import opened Calendar
  import opened LedgerSpec
  import opened LedgerRuns

  /** An interval booked to a day, with the state that held over it. */
  datatype Booking = Booking(p: Input, defrostEndS: int, from: int, to: int)

  /** The part of a reading's step that goes to the day it closes. */
  function ToClosing(l: Ledger, r: Reading): seq<Booking> {
    var s := Seen(l, r.now, r.day);
    if StepSeconds(l, r) > 0 && s.prevS < s.endS then [Booking(l.prev, l.defrostEndS, s.prevS, s.endS)] else []
  }

  /** The part that goes to the day open after it. */
  function ToOpen(l: Ledger, r: Reading): seq<Booking> {
    var s := Seen(l, r.now, r.day);
    var from := if Closes(l, r) then Max(s.prevS, s.endS) else s.prevS;
    if StepSeconds(l, r) > 0 then [Booking(l.prev, l.defrostEndS, from, r.now)] else []
  }

  /** All intervals booked to the day that is open after a run from a fresh ledger. */
  function OpenBookings(rs: seq<Reading>): seq<Booking> {
    if rs == [] then []
    else
      var b, r := Run(FRESH, rs[..|rs| - 1]), rs[|rs| - 1];
      (if !b.open || Closes(b, r) then [] else OpenBookings(rs[..|rs| - 1])) + ToOpen(b, r)
  }

  // ---- Settings and extremes -------------------------------------------------------------------

  /** Heat was measured over the interval. */
  predicate MeasuresHeat(b: Booking) {
    b.from < b.to && b.p.connected && b.p.thermalValid && b.p.powerValid && b.p.bucket != STANDBY
  }

  /** The states over which heat was measured, in order. */
  function Measured(bs: seq<Booking>): seq<Input> {
    if bs == [] then []
    else Measured(bs[..|bs| - 1]) + if MeasuresHeat(bs[|bs| - 1]) then [bs[|bs| - 1].p] else []
  }

  predicate SameSettings(p: Input, q: Input) {
    p.flowLpmX10 == q.flowLpmX10 && p.glycolPct == q.glycolPct
  }

  /** The settings are those of the first measurement, and `mixed` says that a later one had others. */
  predicate SettingsOf(s: Settings, ps: seq<Input>) {
    && (s.known <==> ps != [])
    && (ps != [] ==> s.flowLpmX10 == ps[0].flowLpmX10 && s.glycolPct == ps[0].glycolPct)
    && (s.mixed <==> exists j :: 0 <= j < |ps| && !SameSettings(ps[0], ps[j]))
  }

  /** The outdoor temperature counted for some of the interval. */
  predicate HasOutdoor(b: Booking) {
    CountedSeconds(b.p, b.defrostEndS, b.from, b.to, OutdoorTime) > 0
  }

  /** The temperatures that counted, in tenths. */
  function Temperatures(bs: seq<Booking>): seq<int> {
    if bs == [] then []
    else Temperatures(bs[..|bs| - 1]) + if HasOutdoor(bs[|bs| - 1]) then [Deci(bs[|bs| - 1].p)] else []
  }

  /** The extremes are the least and the greatest of them. */
  predicate ExtremesOf(o: Outdoor, ts: seq<int>) {
    && (o.known <==> ts != [])
    && (forall i :: 0 <= i < |ts| ==> o.min <= ts[i] <= o.max)
    && (ts != [] ==> o.min in ts && o.max in ts)
  }

  /** The day's settings and extremes are those of these intervals. */
  predicate Described(a: DayAccum, bs: seq<Booking>) {
    SettingsOf(a.settings, Measured(bs)) && ExtremesOf(a.outdoor, Temperatures(bs))
  }

  lemma SettingsMore(s: Settings, ps: seq<Input>, p: Input)
    requires SettingsOf(s, ps)
    ensures SettingsOf(NoteSettings(s, p), ps + [p])
  {
    var more := ps + [p];
    assert more[|ps|] == p && forall j :: 0 <= j < |ps| ==> more[j] == ps[j];
    if s.mixed {
      var j :| 0 <= j < |ps| && !SameSettings(ps[0], ps[j]);
      assert !SameSettings(more[0], more[j]);
    }
    if ps != [] && !SameSettings(ps[0], p) { assert !SameSettings(more[0], more[|ps|]); }
  }

  lemma ExtremesMore(o: Outdoor, ts: seq<int>, t: int16)
    requires ExtremesOf(o, ts)
    ensures ExtremesOf(WidenOutdoor(o, t), ts + [t])
  {
    var more := ts + [t];
    assert more[|ts|] == t && forall j :: 0 <= j < |ts| ==> more[j] == ts[j];
    if ts != [] { assert o.min in more && o.max in more; }
  }

  /** Listing one more interval. */
  lemma OneMoreBooking(bs: seq<Booking>, b: Booking)
    ensures Measured(bs + [b]) == Measured(bs) + if MeasuresHeat(b) then [b.p] else []
    ensures Temperatures(bs + [b]) == Temperatures(bs) + if HasOutdoor(b) then [Deci(b.p)] else []
    ensures b.from >= b.to ==> Measured(bs + [b]) == Measured(bs) && Temperatures(bs + [b]) == Temperatures(bs)
  {
    assert (bs + [b])[..|bs|] == bs;
  }

  lemma OnlyExtremesMatter(o: Outdoor, q: Outdoor, ts: seq<int>)
    requires ExtremesOf(o, ts) && q.known == o.known && q.min == o.min && q.max == o.max
    ensures ExtremesOf(q, ts)
  {
  }

  /** Booking an interval: the day is described by one more. */
  lemma BookDescribed(a: DayAccum, b: Booking, bs: seq<Booking>)
    requires Described(a, bs)
    ensures Described(Book(a, b.defrostEndS, b.from, b.to, b.p), bs + [b])
  {
    hide SettingsOf, ExtremesOf, NoteSettings, WidenOutdoor, Deci, Wrap32, Measured, Temperatures;
    OneMoreBooking(bs, b);
    SettingsMore(a.settings, Measured(bs), b.p);
    ExtremesMore(a.outdoor, Temperatures(bs), Deci(b.p));
    var o := if HasOutdoor(b) then WidenOutdoor(a.outdoor, Deci(b.p)) else a.outdoor;
    var now := Book(a, b.defrostEndS, b.from, b.to, b.p);
    assert Measured(bs) + [] == Measured(bs) && Temperatures(bs) + [] == Temperatures(bs);
    OnlyExtremesMatter(o, now.outdoor, Temperatures(bs + [b]));
  }

  lemma EmptyDescribed(day: Day)
    ensures Described(EMPTY.(date := day.date, utcOffsetMin := day.utcOffsetMin), [])
  {
  }

  lemma EdgesDescribed(l: Ledger, inStep: bool, now: int, i: Input, bs: seq<Booking>)
    ensures Described(Edges(l, inStep, now, i).cur, bs) <==> Described(l.cur, bs)
  {
    hide Measured, Temperatures, SettingsOf, ExtremesOf;
  }

  lemma AdvanceDescribed(s: Ledger, now: int, day: Day, bs: seq<Booking>)
    requires Described(s.cur, bs) && s.prevS <= now
    ensures var kept := if now < s.endS then bs else [];
            var b := Booking(s.prev, s.defrostEndS, if now < s.endS then s.prevS else Max(s.prevS, s.endS), now);
            Described(Advance(s, now, day).cur, if now - s.prevS <= MAX_STEP_SECONDS then kept + [b] else kept)
  {
    hide Book, ToRecord, Described;
    EmptyDescribed(day);
    if now - s.prevS <= MAX_STEP_SECONDS {
      if now < s.endS {
        BookDescribed(s.cur, Booking(s.prev, s.defrostEndS, s.prevS, now), bs);
      } else {
        var e := EMPTY.(date := day.date, utcOffsetMin := day.utcOffsetMin);
        BookDescribed(e, Booking(s.prev, s.defrostEndS, Max(s.prevS, s.endS), now), []);
      }
    }
  }

  /** An empty interval adds nothing. */
  lemma DropEmpty(a: DayAccum, bs: seq<Booking>, b: Booking)
    requires b.from >= b.to
    ensures Described(a, bs + [b]) <==> Described(a, bs)
  {
    OneMoreBooking(bs, b);
    hide Measured, Temperatures, SettingsOf, ExtremesOf;
  }

  lemma FeedDescribed(l: Ledger, r: Reading, bs: seq<Booking>)
    requires l.open ==> Described(l.cur, bs)
    ensures Described(Feed(l, r).cur, (if !l.open || Closes(l, r) then [] else bs) + ToOpen(l, r))
    ensures Closes(l, r) ==> Described(ClosedAccum(l, r), bs + ToClosing(l, r))
  {
    hide Described, Advance, Edges, Book, ToRecord;
    EmptyDescribed(r.day);
    var none: seq<Booking> := [];
    assert bs + none == bs && none + none == none;
    if l.open && !Dropped(l, r.now, r.day) {
      var s := Seen(l, r.now, r.day);
      if s.hasPrev && r.now >= s.prevS {
        AdvanceDescribed(s, r.now, r.day, bs);
        var kept := if r.now < s.endS then bs else [];
        var b := Booking(s.prev, s.defrostEndS, if r.now < s.endS then s.prevS else Max(s.prevS, s.endS), r.now);
        var inStep := r.now - s.prevS <= MAX_STEP_SECONDS;
        EdgesDescribed(Advance(s, r.now, r.day), inStep, r.now, r.i, if inStep then kept + [b] else kept);
        if r.now == s.prevS {
          DropEmpty(Edges(Advance(s, r.now, r.day), inStep, r.now, r.i).cur, kept, b);
        }
        assert kept + [] == kept;
      }
      if Closes(l, r) && s.hasPrev && 0 <= r.now - s.prevS <= MAX_STEP_SECONDS && s.prevS < s.endS {
        BookDescribed(s.cur, Booking(s.prev, s.defrostEndS, s.prevS, s.endS), bs);
      }
    }
  }

  /** After any run from a fresh ledger the open day's settings are those of its first heat measurement,
      marked as mixed exactly if a later one differed, and its extremes are the least and the greatest
      outdoor temperature that counted; the same for a day the next reading closes. */
  lemma {:induction false} DayDetails(rs: seq<Reading>)
    requires rs != []
    ensures Described(Run(FRESH, rs).cur, OpenBookings(rs))
    ensures var b, r := Run(FRESH, rs[..|rs| - 1]), rs[|rs| - 1];
            Closes(b, r) ==> Described(ClosedAccum(b, r), OpenBookings(rs[..|rs| - 1]) + ToClosing(b, r))
  {
    hide Described, Feed, ClosedAccum, Closes, ToOpen, ToClosing;
    var init := rs[..|rs| - 1];
    if init == [] {
      assert !Run(FRESH, init).open;
    } else {
      DayDetails(init);
    }
    FeedDescribed(Run(FRESH, init), rs[|rs| - 1], OpenBookings(init));
  }

  // ---- Starts and defrosts ---------------------------------------------------------------------

  datatype Edge = CompressorStart | DefrostBegin

  function Count(a: DayAccum, e: Edge): nat {
    if e.CompressorStart? then a.activity.starts else a.activity.defrosts
  }

  predicate On(i: Input, e: Edge) {
    if e.CompressorStart? then i.running else i.defrost
  }

  /** Between two connected readings at most two minutes apart something came on. */
  predicate Rises(l: Ledger, r: Reading, e: Edge) {
    && l.open && !Dropped(l, r.now, r.day) && l.hasPrev && 0 <= r.now - l.prevS <= MAX_STEP_SECONDS
    && l.prev.connected && r.i.connected && On(r.i, e) && !On(l.prev, e)
  }

  function RiseOf(l: Ledger, r: Reading, e: Edge): nat {
    if Rises(l, r, e) then 1 else 0
  }

  lemma BookKeepsCount(a: DayAccum, defrostEndS: int, from: int, to: int, p: Input, e: Edge)
    ensures Count(Book(a, defrostEndS, from, to, p), e) == Count(a, e)
  {
    hide BookPower, BookThermal, BookOutdoor, NoteSettings;
  }

  lemma AdvanceCounts(s: Ledger, now: int, day: Day, e: Edge)
    ensures Count(Advance(s, now, day).cur, e) == if now < s.endS then Count(s.cur, e) else 0
  {
    hide Book, ToRecord;
    if now - s.prevS <= MAX_STEP_SECONDS {
      BookKeepsCount(s.cur, s.defrostEndS, s.prevS, now, s.prev, e);
      var l2 := CloseAndOpen(if s.prevS < s.endS then BookInto(s, s.prevS, s.endS, s.prev) else s, day);
      BookKeepsCount(l2.cur, s.defrostEndS, Max(s.prevS, s.endS), now, s.prev, e);
    }
  }

  lemma EdgesCount(l: Ledger, inStep: bool, now: int, i: Input, e: Edge)
    requires Count(l.cur, e) < UINT16_MAX
    ensures Count(Edges(l, inStep, now, i).cur, e) ==
            Count(l.cur, e) + if inStep && i.connected && l.prev.connected && On(i, e) && !On(l.prev, e) then 1 else 0
  {
  }

  /** A reading counts what came on, for the day that is open after it. */
  lemma FeedCounts(l: Ledger, r: Reading, e: Edge)
    requires l.open ==> Count(l.cur, e) < UINT16_MAX
    ensures Count(Feed(l, r).cur, e) == (if !l.open || Closes(l, r) then 0 else Count(l.cur, e)) + RiseOf(l, r, e)
    ensures Closes(l, r) ==> Count(ClosedAccum(l, r), e) == Count(l.cur, e)
  {
    hide Advance, Edges, Book, ToRecord, Count;
    ZeroCount(r.day, e);
    if l.open && !Dropped(l, r.now, r.day) {
      var s := Seen(l, r.now, r.day);
      BookKeepsCount(s.cur, s.defrostEndS, s.prevS, s.endS, s.prev, e);
      if s.hasPrev && r.now >= s.prevS {
        AdvanceCounts(s, r.now, r.day, e);
        AdvanceFacts(s, r.now, r.day);
        EdgesCount(Advance(s, r.now, r.day), r.now - s.prevS <= MAX_STEP_SECONDS, r.now, r.i, e);
      }
    }
  }

  lemma ZeroCount(day: Day, e: Edge)
    ensures Count(EMPTY.(date := day.date, utcOffsetMin := day.utcOffsetMin), e) == 0
  {
  }

  function OpenCount(l: Ledger, e: Edge): nat {
    if l.open then Count(l.cur, e) else 0
  }

  function TotalCount(days: seq<DayAccum>, e: Edge): nat {
    if days == [] then 0 else TotalCount(days[..|days| - 1], e) + Count(days[|days| - 1], e)
  }

  function RisesOf(l: Ledger, rs: seq<Reading>, e: Edge): nat {
    if rs == [] then 0
    else RisesOf(l, rs[..|rs| - 1], e) + RiseOf(Run(l, rs[..|rs| - 1]), rs[|rs| - 1], e)
  }

  /** Closed days and the open day together count every start, or defrost, exactly once, while no day
      reaches the 16-bit limit. */
  lemma {:induction false} EveryRiseCounted(l: Ledger, rs: seq<Reading>, e: Edge)
    requires forall n :: 0 <= n < |rs| ==> OpenCount(Run(l, rs[..n]), e) < UINT16_MAX
    ensures TotalCount(ClosedDays(l, rs), e) + OpenCount(Run(l, rs), e) == OpenCount(l, e) + RisesOf(l, rs, e)
  {
    hide Feed, Count, ClosedAccum, Closes, RiseOf;
    if rs != [] {
      var init, r := rs[..|rs| - 1], rs[|rs| - 1];
      forall n | 0 <= n < |init| ensures OpenCount(Run(l, init[..n]), e) < UINT16_MAX {
        assert init[..n] == rs[..n];
      }
      EveryRiseCounted(l, init, e);
      var b := Run(l, init);
      assert init == rs[..|init|];
      FeedCounts(b, r, e);
      OpenAfter(b, r);
      ClosesOpenDay(b, r);
      var days := ClosedDays(l, init);
      if Closes(b, r) { assert (days + [ClosedAccum(b, r)])[..|days|] == days; } else { assert days + [] == days; }
    }
  }

  lemma ClosesOpenDay(l: Ledger, r: Reading)
    ensures Closes(l, r) ==> l.open
  {
  }

  // ---- The end of a defrost --------------------------------------------------------------------

  /** The last defrost ended at the reading that first showed none. */
  lemma DefrostEndNoted(l: Ledger, r: Reading)
    ensures Feed(l, r).defrostEndS ==
            if l.open && !Dropped(l, r.now, r.day) && l.hasPrev && r.now >= l.prevS && l.prev.defrost && !r.i.defrost
            then r.now else l.defrostEndS
  {
    hide Book, ToRecord, CountEdges;
    AdvanceFacts(Seen(l, r.now, r.day), r.now, r.day);
    AdvanceKeepsDefrost(Seen(l, r.now, r.day), r.now, r.day);
    hide Advance;
  }

  lemma AdvanceKeepsDefrost(s: Ledger, now: int, day: Day)
    ensures Advance(s, now, day).defrostEndS == s.defrostEndS
  {
    hide Book, ToRecord;
  }

  // ---- Restored days and pauses ----------------------------------------------------------------

  /** A restored day, whatever its offset from UTC, ends at the next local midnight: a reading of the
      same date keeps it open, and the first reading of the next date at or after that midnight closes
      it. */
  lemma RestoredDayCloses(a: DayAccum, r: Reading)
    requires ValidDate(a.date) && r.day.startS == DaysFromDate(r.day.date) * 86400 - r.day.utcOffsetMin * 60
    requires r.day.utcOffsetMin == a.utcOffsetMin && r.day.endS == 0 && r.day.startS <= r.now < DayEnd(r.day)
    ensures r.day.date == a.date ==> !Closes(Restore(FRESH, a), r) && !Dropped(Restore(FRESH, a), r.now, r.day)
    ensures r.day.date == NextDate(a.date) ==> Closes(Restore(FRESH, a), r) && ClosedAccum(Restore(FRESH, a), r) == a
  {
    hide DaysFromDate, NextDate;
    SuccessorIsOneDayLater(a.date);
  }

  /** After a pause the next reading books nothing. */
  lemma PausedBooksNothing(l: Ledger, r: Reading, k: Quantity)
    ensures Worth(Pause(l), r, k) == 0
  {
    StepAmountZero(l.prev, l.defrostEndS, r.now, k);
  }
}
