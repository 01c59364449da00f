/** The daily energy ledger as values: what one reading does to the open day.
    Times are epoch seconds. Counters are mathematical integers; `LedgerWidths` proves when they
    fit the firmware's fields. The one 32-bit signed sum that can be tight is wrapped here. */
module LedgerSpec {
  import opened Basics
  import opened Calendar

  const BUCKETS: nat := 4
  const MODES: nat := 3
  const SOURCES: nat := 4
  const HEATING: nat := 0
  const COOLING: nat := 1
  const STANDBY: nat := 3

  const MAX_STEP_SECONDS: int := 120
  const SAVE_INTERVAL_SECONDS: int := 600
  const POST_DEFROST_SECONDS: int := 120
  const NEVER: int := -0x4000_0000_0000_0000
  const UINT16_MAX: int := 0xFFFF

  type Bucket = b: nat | b < BUCKETS
  type Source = s: nat | s < SOURCES
  type PerBucket = s: seq<nat> | |s| == BUCKETS witness [0, 0, 0, 0]
  type PerMode = s: seq<nat> | |s| == MODES witness [0, 0, 0]
  type PerSource = s: seq<nat> | |s| == SOURCES witness [0, 0, 0, 0]
  type uint32 = x: int | 0 <= x < 0x1_0000_0000
  type int16 = x: int | -0x8000 <= x < 0x8000
  /** Signed 32-bit watts; the one value whose negation C leaves undefined is excluded. */
  type watts = x: int | -0x8000_0000 < x < 0x8000_0000

  function Wrap16(x: int): (r: int16)
    ensures -0x8000 <= x < 0x8000 ==> r == x
  {
    var m := x % 0x1_0000;
    if m < 0x8000 then m else m - 0x1_0000
  }

  function Wrap32(x: int): (r: int)
    ensures -0x8000_0000 <= r < 0x8000_0000
    ensures -0x8000_0000 <= x < 0x8000_0000 ==> r == x
  {
    var m := x % 0x1_0000_0000;
    if m < 0x8000_0000 then m else m - 0x1_0000_0000
  }

  /** What the unit was doing at one reading. */
  datatype Input = Input(
    connected: bool, powerValid: bool, powerW: uint32, running: bool, defrost: bool, bucket: Bucket,
    thermalValid: bool, thermalW: watts, source: Source,
    defrostThermalValid: bool, defrostThermalW: watts,
    outdoorValid: bool, outdoorC: int16, flowLpmX10: nat, glycolPct: nat)

  /** The local calendar day a reading falls in. */
  datatype Day = Day(date: nat, startS: int, utcOffsetMin: int, endS: int)

  function DayEnd(d: Day): int {
    if d.endS != 0 then d.endS else d.startS + 86400
  }

  /** Energy totals of one day: watt-seconds while the day is open, watt-hours in a record. */
  datatype Energy = Energy(elec: PerBucket, unattributed: nat, thermal: PerMode, covered: PerMode,
                           powerS: nat, thermalS: nat)

  /** Flow and glycol in force, and whether they changed during the day. */
  datatype Settings = Settings(known: bool, mixed: bool, flowLpmX10: nat, glycolPct: nat)

  /** Compressor and defrost activity; defrost heat has the unit of the enclosing day. */
  datatype Activity = Activity(starts: nat, defrosts: nat, defrostThermal: int, defrostS: nat,
                               sourceS: PerSource, runS: PerMode)

  /** Outdoor temperature in tenths of a degree; `runSum` is the firmware's 32-bit sum. */
  datatype Outdoor = Outdoor(known: bool, min: int16, max: int16, sum: int, seconds: nat, runSum: int, runSeconds: nat)

  /** Running totals of the open day, which are also the checkpoint. */
  datatype DayAccum = DayAccum(date: nat, utcOffsetMin: int,
                               energy: Energy, settings: Settings, activity: Activity, outdoor: Outdoor)

  const EMPTY: DayAccum := DayAccum(0, 0,
                                    Energy([0, 0, 0, 0], 0, [0, 0, 0], [0, 0, 0], 0, 0),
                                    Settings(false, false, 0, 0),
                                    Activity(0, 0, 0, 0, [0, 0, 0, 0], [0, 0, 0]),
                                    Outdoor(false, 0, 0, 0, 0, 0, 0))

  const NO_INPUT: Input := Input(false, false, 0, false, false, STANDBY, false, 0, 0, false, 0, false, 0, 0, 0)

  /** One day as stored and reported. */
  datatype OutdoorRecord = OutdoorRecord(known: bool, runKnown: bool, min: int16, max: int16, avg: int16, runAvg: int16)
  datatype DayRecord = DayRecord(date: nat, utcOffsetMin: int,
                                 energy: Energy, settings: Settings, activity: Activity, outdoor: OutdoorRecord)

  // ---- Rounding to a record --------------------------------------------------------------------

  /** Watt-seconds to the nearest watt-hour, before the 32-bit cast. */
  function RoundWh(ws: nat): nat {
    (ws + 1800) / 3600
  }

  function WsToWh(ws: nat): nat {
    RoundWh(ws) % UINT32
  }

  function WsToWhSigned(ws: int): int {
    Wrap32(if ws >= 0 then (ws + 1800) / 3600 else -((-ws + 1800) / 3600))
  }

  function EnergyRecord(e: Energy): Energy {
    e.(elec := [WsToWh(e.elec[0]), WsToWh(e.elec[1]), WsToWh(e.elec[2]), WsToWh(e.elec[3])],
       unattributed := WsToWh(e.unattributed),
       thermal := [WsToWh(e.thermal[0]), WsToWh(e.thermal[1]), WsToWh(e.thermal[2])],
       covered := [WsToWh(e.covered[0]), WsToWh(e.covered[1]), WsToWh(e.covered[2])])
  }

  function ToOutdoorRecord(o: Outdoor): OutdoorRecord {
    var some := o.seconds > 0;
    OutdoorRecord(o.known, o.runSeconds > 0,
                  if some then o.min else 0, if some then o.max else 0,
                  if some then Wrap16(TruncDiv(o.sum, o.seconds)) else 0,
                  if o.runSeconds > 0 then Wrap16(TruncDiv(o.runSum, o.runSeconds)) else 0)
  }

  function ToRecord(a: DayAccum): DayRecord {
    DayRecord(a.date, a.utcOffsetMin, EnergyRecord(a.energy), a.settings,
              a.activity.(defrostThermal := WsToWhSigned(a.activity.defrostThermal)), ToOutdoorRecord(a.outdoor))
  }

  const NO_RECORD: DayRecord := ToRecord(EMPTY)

  // ---- Booking ---------------------------------------------------------------------------------

  predicate IsMode(p: Input) {
    p.bucket < MODES
  }

  /** Thermal energy is only booked together with the electrical energy of the same time. */
  predicate Covered(p: Input) {
    p.thermalValid && p.powerValid && IsMode(p)
  }

  /** Heat in the direction the mode expects. */
  function HeatW(p: Input): int {
    if p.bucket == COOLING then -p.thermalW else p.thermalW
  }

  function BookPower(e: Energy, dt: nat, p: Input): Energy {
    if p.powerValid then e.(elec := e.elec[p.bucket := e.elec[p.bucket] + p.powerW * dt], powerS := e.powerS + dt)
    else e
  }

  function BookThermal(e: Energy, dt: nat, p: Input): Energy {
    if Covered(p) then
      var q := HeatW(p);
      var e1 := if q > 0 then e.(thermal := e.thermal[p.bucket := e.thermal[p.bucket] + q * dt]) else e;
      e1.(covered := e1.covered[p.bucket := e1.covered[p.bucket] + p.powerW * dt], thermalS := e1.thermalS + dt)
    else e
  }

  function NoteSettings(s: Settings, p: Input): Settings {
    if !s.known then Settings(true, s.mixed, p.flowLpmX10, p.glycolPct)
    else if s.flowLpmX10 != p.flowLpmX10 || s.glycolPct != p.glycolPct then s.(mixed := true)
    else s
  }

  function BookActivity(v: Activity, dt: nat, p: Input): Activity {
    var v1 := if p.running && IsMode(p) then v.(runS := v.runS[p.bucket := v.runS[p.bucket] + dt]) else v;
    var v2 := if p.running && !p.defrost then v1.(sourceS := v1.sourceS[p.source := v1.sourceS[p.source] + dt]) else v1;
    if p.defrost then
      v2.(defrostS := v2.defrostS + dt,
          defrostThermal := v2.defrostThermal + if p.defrostThermalValid then p.defrostThermalW * dt else 0)
    else v2
  }

  /** The air sensor is ignored during defrost and until its tail has passed. */
  function OutdoorFrom(defrostEndS: int, a: int): int {
    if a > defrostEndS + POST_DEFROST_SECONDS then a else defrostEndS + POST_DEFROST_SECONDS
  }

  function Deci(p: Input): int16 {
    Wrap16(p.outdoorC * 10)
  }

  function WidenOutdoor(o: Outdoor, deci: int16): Outdoor {
    var o1 := if !o.known then o.(min := deci, max := deci, known := true) else o;
    var o2 := if deci < o1.min then o1.(min := deci) else o1;
    if deci > o2.max then o2.(max := deci) else o2
  }

  /** `dt` seconds of outdoor temperature. */
  function BookOutdoorFor(o: Outdoor, dt: nat, p: Input): Outdoor {
    var deci := Deci(p);
    var o1 := WidenOutdoor(o, deci);
    var o2 := o1.(sum := o1.sum + deci * dt, seconds := o1.seconds + dt);
    if p.running && IsMode(p) then
      o2.(runSum := Wrap32(o2.runSum + deci * dt), runSeconds := o2.runSeconds + dt)
    else o2
  }

  function BookOutdoor(o: Outdoor, defrostEndS: int, from: int, to: int, p: Input): Outdoor {
    var outFrom := OutdoorFrom(defrostEndS, from);
    if p.outdoorValid && !p.defrost && to > outFrom then BookOutdoorFor(o, to - outFrom, p) else o
  }

  /** Book [from, to) to a day using the state `p` that held over it. */
  function Book(a: DayAccum, defrostEndS: int, from: int, to: int, p: Input): DayAccum {
    if to <= from || !p.connected then a
    else
      var dt := to - from;
      DayAccum(a.date, a.utcOffsetMin,
               BookThermal(BookPower(a.energy, dt, p), dt, p),
               if Covered(p) then NoteSettings(a.settings, p) else a.settings,
               BookActivity(a.activity, dt, p),
               BookOutdoor(a.outdoor, defrostEndS, from, to, p))
  }

  // ---- The ledger ------------------------------------------------------------------------------

  /** The checkpoint last written, and when. */
  datatype SaveState = SaveState(saved: DayAccum, has: bool, at: int)

  datatype Ledger = Ledger(
    cur: DayAccum, open: bool, startS: int, endS: int, spanExact: bool,
    prev: Input, prevS: int, hasPrev: bool, defrostEndS: int,
    finished: DayRecord, hasFinished: bool, save: SaveState)

  const FRESH: Ledger := Ledger(EMPTY, false, 0, 0, false, NO_INPUT, 0, false, NEVER, NO_RECORD, false,
      SaveState(EMPTY, false, 0))

  function SetSpan(l: Ledger, day: Day): Ledger {
    l.(startS := day.startS, endS := DayEnd(day), spanExact := true)
  }

  function OpenDay(l: Ledger, day: Day): Ledger {
    SetSpan(l.(cur := EMPTY.(date := day.date, utcOffsetMin := day.utcOffsetMin), open := true), day)
  }

  function CloseAndOpen(l: Ledger, day: Day): Ledger {
    OpenDay(l.(finished := ToRecord(l.cur), hasFinished := true), day)
  }

  function SetReference(l: Ledger, now: int, i: Input): Ledger {
    l.(prev := i, prevS := now, hasPrev := true)
  }

  function BookInto(l: Ledger, from: int, to: int, p: Input): Ledger {
    l.(cur := Book(l.cur, l.defrostEndS, from, to, p))
  }

  /** The open day's span as the reading sees it, before it decides anything: an estimated span
      becomes exact on a reading of the same date, and a day whose local date has not advanced runs
      on to the next local midnight. */
  function ExactSpan(l: Ledger, day: Day): Ledger {
    if !l.spanExact && day.date == l.cur.date then SetSpan(l, day) else l
  }

  function RunOn(l: Ledger, now: int, day: Day): Ledger {
    if now >= l.endS && day.date <= l.cur.date then l.(endS := DayEnd(day)) else l
  }

  /** Book the elapsed step, closing the day when it is over. */
  function Advance(l: Ledger, now: int, day: Day): Ledger {
    var inStep := now - l.prevS <= MAX_STEP_SECONDS;
    if now >= l.endS then
      var boundary := l.endS;
      var l1 := if inStep && l.prevS < boundary then BookInto(l, l.prevS, boundary, l.prev) else l;
      var l2 := CloseAndOpen(l1, day);
      if inStep then BookInto(l2, Max(l.prevS, boundary), now, l.prev) else l2
    else if inStep then BookInto(l, l.prevS, now, l.prev)
    else l
  }

  /** Count a compressor start or a defrost seen as an edge between two connected readings. */
  function CountEdges(v: Activity, p: Input, i: Input): Activity {
    var v1 := if i.running && !p.running && v.starts < UINT16_MAX then v.(starts := v.starts + 1) else v;
    if i.defrost && !p.defrost && v1.defrosts < UINT16_MAX then v1.(defrosts := v1.defrosts + 1) else v1
  }

  function Edges(l: Ledger, inStep: bool, now: int, i: Input): Ledger {
    var l1 := if inStep && i.connected && l.prev.connected then
        l.(cur := l.cur.(activity := CountEdges(l.cur.activity, l.prev, i))) else l;
    if l.prev.defrost && !i.defrost then l1.(defrostEndS := now) else l1
  }

  /** A reading at or after the open day's midnight. */
  function Accept(l: Ledger, now: int, day: Day, i: Input): Ledger {
    if !l.hasPrev || now < l.prevS then
      var l1 := SetReference(l, now, i);
      if now >= l.endS then CloseAndOpen(l1, day) else l1
    else
      SetReference(Edges(Advance(l, now, day), now - l.prevS <= MAX_STEP_SECONDS, now, i), now, i)
  }

  /** The clock is before the open day's midnight: the reading only drops the reference. */
  predicate Dropped(l: Ledger, now: int, day: Day) {
    l.open && now < ExactSpan(l, day).startS
  }

  /** The open day as an accepted reading finds it. */
  function Seen(l: Ledger, now: int, day: Day): Ledger {
    RunOn(ExactSpan(l.(hasFinished := false), day), now, day)
  }

  /** Feed one reading. */
  function Add(l: Ledger, now: int, day: Day, i: Input): Ledger {
    if !l.open then SetReference(OpenDay(l.(hasFinished := false), day), now, i)
    else if Dropped(l, now, day) then ExactSpan(l.(hasFinished := false), day).(hasPrev := false)
    else Accept(Seen(l, now, day), now, day, i)
  }

  function Pause(l: Ledger): Ledger {
    l.(hasPrev := false)
  }

  /** Seed the open day from a checkpoint, estimating its span from the date and offset. */
  function Restore(l: Ledger, a: DayAccum): Ledger {
    if l.open then l
    else
      var start := DaysFromDate(a.date) * 86400 - a.utcOffsetMin * 60;
      l.(cur := a, open := true, hasPrev := false, save := l.save.(saved := a, has := true),
         startS := start, endS := start + 86400, spanExact := false)
  }

  predicate SaveDue(l: Ledger, now: int, force: bool) {
    && l.open
    && !(l.save.has && l.save.saved == l.cur)
    && (force || !l.save.has || l.save.saved.date != l.cur.date || now - l.save.at >= SAVE_INTERVAL_SECONDS)
  }

  function MarkSaved(l: Ledger, now: int, what: DayAccum): Ledger {
    l.(save := SaveState(what, true, now))
  }
}
