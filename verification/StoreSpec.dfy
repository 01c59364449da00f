/** NVS persistence of closed days as values: one blob per month holding its days and the lifetime
    totals through the last of them. A write lands whole or changes nothing. */
module StoreSpec {
  import opened Basics
  import opened Calendar
  import opened LedgerSpec

  const MONTHS_KEPT: nat := 13
  const SWEPT: nat := 36

  /** Lifetime totals, in 32-bit counters. */
  datatype Lifetime = Lifetime(
    resetId: nat, sinceDate: nat, throughDate: nat, days: nat, elecWh: nat,
    thermalWh: PerMode, coveredWh: PerMode, powerS: nat, thermalS: nat)

  function FreshLife(rnd: nat): Lifetime {
    Lifetime(rnd, 0, 0, 0, 0, [0, 0, 0], [0, 0, 0], 0, 0)
  }

  function Add32(a: nat, b: nat): nat {
    (a + b) % UINT32
  }

  function TotalElecWh(r: DayRecord): nat {
    (r.energy.unattributed + r.energy.elec[0] + r.energy.elec[1] + r.energy.elec[2] + r.energy.elec[3]) % UINT32
  }

  /** Add a closed day to the lifetime totals. */
  function Fold(life: Lifetime, d: DayRecord): Lifetime {
    Lifetime(
      life.resetId,
      if life.days == 0 then d.date else life.sinceDate,
      d.date, Add32(life.days, 1), Add32(life.elecWh, TotalElecWh(d)),
      [Add32(life.thermalWh[0], d.energy.thermal[0]), Add32(life.thermalWh[1], d.energy.thermal[1]),
       Add32(life.thermalWh[2], d.energy.thermal[2])],
      [Add32(life.coveredWh[0], d.energy.covered[0]), Add32(life.coveredWh[1], d.energy.covered[1]),
       Add32(life.coveredWh[2], d.energy.covered[2])],
      Add32(life.powerS, d.energy.powerS), Add32(life.thermalS, d.energy.thermalS))
  }

  const SLOTS: nat := 31
  type Slots = s: seq<DayRecord> | |s| == SLOTS witness seq(SLOTS, _ => NO_RECORD)

  datatype MonthBlob = MonthBlob(life: Lifetime, days: Slots)

  /** The month blobs by YYYYMM key. */
  type Months = map<nat, MonthBlob>

  function EmptySlots(): Slots {
    seq(SLOTS, _ => NO_RECORD)
  }

  function MonthOf(date: nat): nat { date / 100 }
  function DayOfMonth(date: nat): nat { date % 100 }

  /** `n` calendar months earlier. */
  function Back(ym: nat, n: nat): nat {
    if n == 0 then ym else PrevMonth(Back(ym, n - 1))
  }

  /** Newest month blob among `ym` and the `n - 1` months before it. */
  function FindMonth(months: Months, ym: nat, n: nat): (r: Option<nat>)
    ensures r.Some? ==> r.value in months
    decreases n
  {
    if n == 0 then None
    else if ym in months then Some(ym)
    else FindMonth(months, PrevMonth(ym), n - 1)
  }

  const LOOK_BACK: nat := MONTHS_KEPT + 2

  /** The blob a commit starts from: the month's own, or a new one carrying the totals on from the
      newest earlier month, or a restart of the totals. */
  function BaseBlob(months: Months, ym: nat, rnd: nat): MonthBlob {
    if ym in months then months[ym]
    else
      var found := FindMonth(months, PrevMonth(ym), LOOK_BACK);
      MonthBlob(if found.Some? then months[found.value].life else FreshLife(rnd), EmptySlots())
  }

  /** What the flash did during one commit: it could not be opened, the write failed, or the write
      landed and the erasures of `stuck` months failed. */
  datatype CommitIo = Refused | WriteFails | Written(stuck: set<nat>)

  predicate DayInRange(day: DayRecord) {
    1 <= DayOfMonth(day.date) <= SLOTS
  }

  /** The months a commit in `ym` sweeps away. */
  function AgedOut(ym: nat): set<nat> {
    BackSet(ym, SWEPT)
  }

  /** The `n` months ending MONTHS_KEPT months before `ym`. */
  function BackSet(ym: nat, n: nat): set<nat> {
    if n == 0 then {} else BackSet(ym, n - 1) + {Back(ym, MONTHS_KEPT + n - 1)}
  }

  predicate AlreadyCounted(months: Months, day: DayRecord, rnd: nat) {
    day.date <= BaseBlob(months, MonthOf(day.date), rnd).life.throughDate
  }

  function StoreDay(b: MonthBlob, day: DayRecord): MonthBlob
    requires DayInRange(day)
  {
    MonthBlob(Fold(b.life, day), b.days[DayOfMonth(day.date) - 1 := day])
  }

  /** Does this commit write a new blob? */
  predicate Folds(months: Months, day: DayRecord, rnd: nat, io: CommitIo) {
    DayInRange(day) && io.Written? && !AlreadyCounted(months, day, rnd)
  }

  function Commit(months: Months, day: DayRecord, rnd: nat, io: CommitIo): Months {
    if Folds(months, day, rnd, io) then
      var ym := MonthOf(day.date);
      months[ym := StoreDay(BaseBlob(months, ym, rnd), day)] - (AgedOut(ym) - io.stuck)
    else months
  }

  /** Success as reported to the caller: the day is counted, now or before. */
  predicate CommitOk(months: Months, day: DayRecord, rnd: nat, io: CommitIo) {
    DayInRange(day) && !io.Refused? && (AlreadyCounted(months, day, rnd) || io.Written?)
  }

  function CommitLife(months: Months, day: DayRecord, rnd: nat): Lifetime {
    var b := BaseBlob(months, MonthOf(day.date), rnd);
    if day.date <= b.life.throughDate then b.life else Fold(b.life, day)
  }

  function LoadLifetime(months: Months, date: nat): Option<Lifetime> {
    var found := FindMonth(months, MonthOf(date), LOOK_BACK);
    if found.Some? then Some(months[found.value].life) else None
  }

  // ---- Range reads -----------------------------------------------------------------------------

  predicate InRange(r: DayRecord, from: nat, to: nat) {
    r.date != 0 && from <= r.date <= to
  }

  /** The days in range among the first `n` slots of a month. */
  function SlotsInRange(days: seq<DayRecord>, from: nat, to: nat): seq<DayRecord> {
    if days == [] then []
    else
      var rest := SlotsInRange(days[..|days| - 1], from, to);
      if InRange(days[|days| - 1], from, to) then rest + [days[|days| - 1]] else rest
  }

  function MonthDays(months: Months, ym: nat, from: nat, to: nat): seq<DayRecord> {
    if ym in months then SlotsInRange(months[ym].days, from, to) else []
  }

  lemma NextMonthGrows(ym: nat)
    requires ym <= UINT32 / 100
    ensures NextMonth(ym) > ym
  {
    var y, m := ym / 100, ym % 100;
    assert ym == y * 100 + m;
  }

  /** The days in range from month `ym` on, in storage order. */
  function DaysFrom(months: Months, ym: nat, from: nat, to: nat): seq<DayRecord>
    requires to < UINT32
    decreases 1 + to / 100 - ym
  {
    if ym > to / 100 then []
    else
      NextMonthGrows(ym);
      MonthDays(months, ym, from, to) + DaysFrom(months, NextMonth(ym), from, to)
  }

  function StoredDays(months: Months, from: nat, to: nat): seq<DayRecord>
    requires to < UINT32
  {
    if from > to then [] else DaysFrom(months, from / 100, from, to)
  }

  /** At most `capacity` of them. */
  function FirstOf<T>(s: seq<T>, capacity: nat): seq<T> {
    if |s| <= capacity then s else s[..capacity]
  }
}
