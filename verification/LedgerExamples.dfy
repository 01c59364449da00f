/** A run of readings whose day has a record with more covered than total energy. */
module LedgerExamples {
  import opened Calendar
  import opened LedgerSpec
  import opened LedgerRuns
  import opened LedgerRecords

  const MIDNIGHT: int := 1704067200
  const FULL_W: int := 0xFFFF_FFFF

  /** New Year's Day 2024. */
  function NewYear(): Day {
    Day(20240101, MIDNIGHT, 0, 0)
  }

  lemma NewYearIsReal()
    ensures DaysFromDate(20240101) * 86400 == MIDNIGHT
  {
    DateParts(2024, 1, 1);
    hide DaysFromDate;
    ErasCancel(20240101);
    assert MonthOffset(1) == 306;
    assert MarchDays(2023) == 19417;
  }

  /** Heating at the largest power the field holds, with its heat known; then 30 W without. */
  function Heating(i: nat): Input {
    NO_INPUT.(connected := true, powerValid := true, bucket := HEATING,
              powerW := if i < 30 then FULL_W else 30, thermalValid := i < 30)
  }

  /** A reading every two minutes from midnight. */
  function Readings(n: nat): seq<Reading> {
    seq(n, i requires 0 <= i < n => Reading(MIDNIGHT + 120 * i, NewYear(), Heating(i)))
  }

  /** The ledger has taken the first `n` readings. */
  predicate Taken(l: Ledger, n: nat) {
    && n > 0 && l.open && l.spanExact && l.startS == MIDNIGHT && l.endS == MIDNIGHT + 86400 && l.cur.date == 20240101
    && l.hasPrev && l.prev == Heating(n - 1) && l.prevS == MIDNIGHT + 120 * (n - 1)
  }

  lemma OneMore(l: Ledger, n: nat, k: Quantity)
    requires Taken(l, n) && n < 40 && !k.RunOutdoorSum? && !IsOutdoor(k)
    ensures var r := Reading(MIDNIGHT + 120 * n, NewYear(), Heating(n));
            && Taken(Feed(l, r), n + 1) && !Closes(l, r)
            && Amount(Feed(l, r).cur, k) == Amount(l.cur, k) + Rate(Heating(n - 1), k) * 120
  {
    var r := Reading(MIDNIGHT + 120 * n, NewYear(), Heating(n));
    hide Accept, Amount, Rate, Heating;
    AcceptFacts(Seen(l, r.now, r.day), r.now, r.day, r.i);
    FeedDate(l, r);
    FeedConserves(l, r, k);
    assert StepSeconds(l, r) == 120;
    HeatingConnected(n - 1);
  }

  lemma HeatingConnected(i: nat)
    ensures Heating(i).connected
  {
  }

  /** Thirty steps at full power, all of it covered. */
  lemma {:induction false} FullSteps(n: nat)
    requires 1 <= n <= 31
    ensures var l := Run(FRESH, Readings(n));
            && Taken(l, n) && Amount(l.cur, Electricity(HEATING)) == 120 * FULL_W * (n - 1)
            && Amount(l.cur, CoveredElectricity(HEATING)) == 120 * FULL_W * (n - 1)
  {
    var rs := Readings(n);
    assert rs[..n - 1] == Readings(n - 1);
    if n == 1 {
      assert Run(FRESH, []) == FRESH;
    } else {
      FullSteps(n - 1);
      var l := Run(FRESH, Readings(n - 1));
      OneMore(l, n - 1, Electricity(HEATING));
      OneMore(l, n - 1, CoveredElectricity(HEATING));
      FullRates(n - 2);
      hide Amount, Rate, Taken, Feed;
    }
  }

  lemma FullRates(i: nat)
    requires i < 30
    ensures Rate(Heating(i), Electricity(HEATING)) == FULL_W && Rate(Heating(i), CoveredElectricity(HEATING)) == FULL_W
  {
  }

  /** The day after those readings. */
  function HugeDay(): DayAccum {
    Run(FRESH, Readings(32)).cur
  }

  /** It holds 2^32 Wh of heating, one watt-hour of it not covered. */
  lemma HugeDayEnergy()
    ensures HugeDay().energy.elec[HEATING] == 3600 * 0x1_0000_0000
    ensures HugeDay().energy.covered[HEATING] == 3600 * 0xFFFF_FFFF
  {
    FullSteps(31);
    var l := Run(FRESH, Readings(31));
    assert Readings(32)[..31] == Readings(31);
    OneMore(l, 31, Electricity(HEATING));
    OneMore(l, 31, CoveredElectricity(HEATING));
    assert Rate(Heating(30), Electricity(HEATING)) == 30 && Rate(Heating(30), CoveredElectricity(HEATING)) == 0;
    hide Feed, Taken, Rate, Heating;
  }

  /** So a run of well-formed readings, every one of them booked to the same day, ends with a
      well-formed day whose record shows more covered than total energy. */
  lemma RoundedOrderCanFail()
    ensures DaysFromDate(20240101) * 86400 == MIDNIGHT && AllWellFormed(Readings(32))
    ensures DayOk(HugeDay()) && !RecordOk(ToRecord(HugeDay()))
    ensures ToRecord(HugeDay()).energy.covered[HEATING] > ToRecord(HugeDay()).energy.elec[HEATING]
  {
    hide DaysFromDate, Run, DayOk, RecordOk, ToRecord, Readings;
    NewYearIsReal();
    ReadingsWellFormed();
    HugeDayOk();
    HugeDayEnergy();
    WrappedRecord(HugeDay());
  }

  lemma ReadingsWellFormed()
    ensures AllWellFormed(Readings(32))
  {
  }

  lemma ReadingsCount()
    ensures |Readings(32)| == 32
  {
  }

  lemma HugeDayOk()
    ensures DayOk(HugeDay())
  {
    hide DayOk, Readings, Feed;
    var rs := Readings(32);
    assert |rs| == 32 by { ReadingsCount(); }
    EveryDayOk(FRESH, rs);
    OpenAfter(Run(FRESH, rs[..|rs| - 1]), rs[|rs| - 1]);
  }

  lemma WrappedRecord(a: DayAccum)
    requires a.energy.elec[HEATING] == 3600 * 0x1_0000_0000 && a.energy.covered[HEATING] == 3600 * 0xFFFF_FFFF
    ensures ToRecord(a).energy.covered[HEATING] > ToRecord(a).energy.elec[HEATING] && !RecordOk(ToRecord(a))
  {
    assert WsToWh(3600 * 0xFFFF_FFFF) == 0xFFFF_FFFF && WsToWh(3600 * 0x1_0000_0000) == 0;
    var r := ToRecord(a);
    assert r.energy.covered[HEATING] > r.energy.elec[HEATING];
  }
}
