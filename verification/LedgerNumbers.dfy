/** What the numbers of a closed day's record are: energies within half a watt-hour of the totals,
    times and counts carried over, averages of the sums; and conservation carried through to the
    records. */
module LedgerNumbers {
  import opened Basics
  import opened Calendar
  import opened LedgerSpec
  import opened LedgerRuns
  import opened LedgerRecords

  /** Watt-seconds whose nearest watt-hour fits 32 bits. */
  predicate FitsWh(ws: int) {
    0 <= ws && ws + 1800 < 3600 * 0x1_0000_0000
  }

  predicate FitsSignedWh(ws: int) {
    -3600 * 0x8000_0000 + 1800 < ws && ws + 1800 < 3600 * 0x8000_0000
  }

  /** The watt-hours stand for the watt-seconds, to the nearest. */
  predicate Nearest(wh: int, ws: int) {
    -1800 <= 3600 * wh - ws <= 1800
  }

  lemma RoundsToNearest(ws: nat)
    requires FitsWh(ws)
    ensures Nearest(WsToWh(ws), ws)
  {
  }

  lemma RoundsSigned(ws: int)
    requires FitsSignedWh(ws)
    ensures Nearest(WsToWhSigned(ws), ws)
  {
    var q := if ws >= 0 then (ws + 1800) / 3600 else -((-ws + 1800) / 3600);
    assert -0x8000_0000 <= q < 0x8000_0000;
  }

  /** The energy a record holds of one kind, in watt-hours. */
  function RecordedWh(r: DayRecord, k: Quantity): int
    requires IsEnergy(k)
  {
    match k
    case Electricity(b) => r.energy.elec[b]
    case Heat(m) => r.energy.thermal[m]
    case CoveredElectricity(m) => r.energy.covered[m]
    case DefrostHeat => r.activity.defrostThermal
  }

  predicate IsEnergy(k: Quantity) {
    k.Electricity? || k.Heat? || k.CoveredElectricity? || k.DefrostHeat?
  }

  /** The seconds a record holds of one kind. */
  function RecordedSeconds(r: DayRecord, k: Quantity): int
    requires IsTime(k)
  {
    match k
    case PowerTime => r.energy.powerS
    case ThermalTime => r.energy.thermalS
    case RunTime(m) => r.activity.runS[m]
    case SourceTime(s) => r.activity.sourceS[s]
    case DefrostTime => r.activity.defrostS
  }

  predicate IsTime(k: Quantity) {
    k.PowerTime? || k.ThermalTime? || k.RunTime? || k.SourceTime? || k.DefrostTime?
  }

  predicate FitsRecord(a: DayAccum, k: Quantity) {
    if k.DefrostHeat? then FitsSignedWh(Amount(a, k)) else FitsWh(Amount(a, k))
  }

  /** Every energy of the record, per bucket and per mode, is that total of the day to the nearest
      watt-hour. */
  lemma RecordedEnergy(a: DayAccum, k: Quantity)
    requires IsEnergy(k) && FitsRecord(a, k)
    ensures Nearest(RecordedWh(ToRecord(a), k), Amount(a, k))
  {
    hide Nearest, FitsWh, FitsSignedWh, WsToWh, WsToWhSigned, ToOutdoorRecord;
    if k.DefrostHeat? { RoundsSigned(Amount(a, k)); } else { RoundsToNearest(Amount(a, k)); }
    match k
    case Electricity(b) => assert b == 0 || b == 1 || b == 2 || b == 3;
    case Heat(m) => assert m == 0 || m == 1 || m == 2;
    case CoveredElectricity(m) => assert m == 0 || m == 1 || m == 2;
    case DefrostHeat =>
  }

  lemma RecordedUnattributed(a: DayAccum)
    requires FitsWh(a.energy.unattributed)
    ensures Nearest(ToRecord(a).energy.unattributed, a.energy.unattributed)
  {
    hide Nearest, FitsWh, WsToWh, ToOutdoorRecord;
    RoundsToNearest(a.energy.unattributed);
  }

  /** Times, counts, settings and the date are carried over as they are. */
  lemma RecordedAsIs(a: DayAccum)
    ensures var r := ToRecord(a);
            && r.date == a.date && r.utcOffsetMin == a.utcOffsetMin && r.settings == a.settings
            && r.activity.starts == a.activity.starts && r.activity.defrosts == a.activity.defrosts
            && (forall k :: IsTime(k) ==> RecordedSeconds(r, k) == Amount(a, k))
  {
    hide ToOutdoorRecord, WsToWh;
  }

  /** The average is the sum over the seconds, cut toward zero: the remainder is less than a second's
      worth and has the sum's sign. */
  predicate IsAverage(avg: int, sum: int, seconds: int) {
    var rest := sum - avg * seconds;
    -seconds < rest < seconds && (sum >= 0 ==> rest >= 0) && (sum <= 0 ==> rest <= 0)
  }

  lemma TruncatedIsAverage(sum: int, seconds: int)
    requires seconds > 0
    ensures IsAverage(TruncDiv(sum, seconds), sum, seconds)
  {
    var q := TruncDiv(sum, seconds);
    if sum >= 0 {
      assert sum == q * seconds + sum % seconds;
    } else {
      var m := -sum;
      assert m == m / seconds * seconds + m % seconds;
      assert q == -(m / seconds);
      assert q * seconds == -(m / seconds * seconds);
    }
  }

  /** The outdoor numbers of a record: the extremes as they are, both averages of their sums. */
  lemma RecordedOutdoor(a: DayAccum)
    requires OutdoorOk(a.outdoor)
    ensures var r, o := ToRecord(a).outdoor, a.outdoor;
            && (r.known <==> o.seconds > 0) && (r.runKnown <==> o.runSeconds > 0)
            && (r.known ==> r.min == o.min && r.max == o.max && IsAverage(r.avg, o.sum, o.seconds))
            && (r.runKnown && RunOk(o) ==> IsAverage(r.runAvg, o.runSum, o.runSeconds))
  {
    hide Wrap16, TruncDiv, EnergyRecord, WsToWhSigned, IsAverage;
    var o := a.outdoor;
    if o.seconds > 0 {
      AverageBetween(o.min, o.max, o.sum, o.seconds);
      TruncatedIsAverage(o.sum, o.seconds);
    }
    if o.runSeconds > 0 && RunOk(o) {
      AverageBetween(o.min, o.max, o.runSum, o.runSeconds);
      TruncatedIsAverage(o.runSum, o.runSeconds);
    }
  }

  // ---- Conservation in the records -------------------------------------------------------------

  /** The watt-hours of one kind in the records of closed days. */
  function TotalRecorded(days: seq<DayAccum>, k: Quantity): int
    requires IsEnergy(k)
  {
    if days == [] then 0
    else TotalRecorded(days[..|days| - 1], k) + RecordedWh(ToRecord(days[|days| - 1]), k)
  }

  lemma {:induction false} RecordsHoldTotals(days: seq<DayAccum>, k: Quantity)
    requires IsEnergy(k) && forall a :: a in days ==> FitsRecord(a, k)
    ensures -1800 * |days| <= 3600 * TotalRecorded(days, k) - TotalOf(days, k) <= 1800 * |days|
  {
    hide Amount, ToRecord, RecordedWh, FitsRecord;
    if days != [] {
      var init, last := days[..|days| - 1], days[|days| - 1];
      assert last in days;
      RecordsHoldTotals(init, k);
      RecordedEnergy(last, k);
    }
  }

  /** Conservation up to rounding: what the records of the closed days hold, and the open day, is what
      the run's steps were worth to within half a watt-hour for each closed day. */
  lemma RecordsConserve(l: Ledger, rs: seq<Reading>, k: Quantity)
    requires IsEnergy(k) && forall a :: a in ClosedDays(l, rs) ==> FitsRecord(a, k)
    ensures var days := ClosedDays(l, rs);
            var held := 3600 * TotalRecorded(days, k) + OpenAmount(Run(l, rs), k) - OpenAmount(l, k);
            -1800 * |days| <= held - BookedSteps(l, rs, k) <= 1800 * |days|
  {
    hide Run, ClosedDays, TotalRecorded, TotalOf, OpenAmount, BookedSteps, FitsRecord;
    RunConserves(l, rs, k);
    RecordsHoldTotals(ClosedDays(l, rs), k);
  }
}
