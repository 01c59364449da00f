/** Whole runs of readings through the ledger: energy is conserved across midnights and gaps, and
    days close in strictly increasing date order. */
module LedgerRuns {
  import opened Basics
  import opened LedgerSpec

  datatype Reading = Reading(now: int, day: Day, i: Input)

  function Feed(l: Ledger, r: Reading): Ledger {
    Add(l, r.now, r.day, r.i)
  }

  function Run(l: Ledger, rs: seq<Reading>): Ledger {
    if rs == [] then l else Feed(Run(l, rs[..|rs| - 1]), rs[|rs| - 1])
  }

  predicate Closes(l: Ledger, r: Reading) {
    l.open && !Dropped(l, r.now, r.day) && r.now >= Seen(l, r.now, r.day).endS
  }

  /** Seconds of the step ending at `r` that are booked: at most MAX_STEP_SECONDS, since the last
      reference, on a clock that did not go back. */
  function StepSeconds(l: Ledger, r: Reading): nat {
    if l.open && !Dropped(l, r.now, r.day) && l.hasPrev && 0 <= r.now - l.prevS <= MAX_STEP_SECONDS then
        r.now - l.prevS else 0
  }

  /** The totals the closed day ends with, at watt-second resolution. */
  function ClosedAccum(l: Ledger, r: Reading): DayAccum {
    var s := Seen(l, r.now, r.day);
    if s.hasPrev && 0 <= r.now - s.prevS <= MAX_STEP_SECONDS && s.prevS < s.endS
    then Book(s.cur, s.defrostEndS, s.prevS, s.endS, s.prev)
    else s.cur
  }

  function ClosedBy(l: Ledger, r: Reading): seq<DayAccum> {
    if Closes(l, r) then [ClosedAccum(l, r)] else []
  }

  function ClosedDays(l: Ledger, rs: seq<Reading>): seq<DayAccum> {
    if rs == [] then [] else
      ClosedDays(l, rs[..|rs| - 1]) + ClosedBy(Run(l, rs[..|rs| - 1]), rs[|rs| - 1])
  }

  /** What booking the elapsed step leaves alone, and the span it opens. */
  lemma AdvanceFacts(l: Ledger, now: int, day: Day)
    ensures var t := Advance(l, now, day);
            && (l.open ==> t.open) && t.save == l.save && t.prev == l.prev && t.prevS == l.prevS &&
                t.hasPrev == l.hasPrev
            && t.startS == (if now >= l.endS then day.startS else l.startS)
            && t.endS == (if now >= l.endS then DayEnd(day) else l.endS)
            && t.spanExact == (now >= l.endS || l.spanExact)
            && t.hasFinished == (now >= l.endS || l.hasFinished)
  {
    hide Book, ToRecord;
  }

  lemma EdgesFacts(l: Ledger, inStep: bool, now: int, i: Input)
    ensures var t := Edges(l, inStep, now, i); t == l.(cur := t.cur, defrostEndS := t.defrostEndS)
  {
    hide CountEdges;
  }

  /** The bookkeeping of an accepted reading, apart from the totals. */
  lemma AcceptFacts(l: Ledger, now: int, day: Day, i: Input)
    ensures var t := Accept(l, now, day, i);
            && (l.open ==> t.open) && t.save == l.save && t.hasPrev && t.prev == i && t.prevS == now
            && t.startS == (if now >= l.endS then day.startS else l.startS)
            && t.endS == (if now >= l.endS then DayEnd(day) else l.endS)
            && t.spanExact == (now >= l.endS || l.spanExact)
            && t.hasFinished == (now >= l.endS || l.hasFinished)
  {
    AdvanceFacts(l, now, day);
    EdgesFacts(Advance(l, now, day), now - l.prevS <= MAX_STEP_SECONDS, now, i);
    hide Advance, Edges, ToRecord;
  }

  /** `finished` and `ClosedBy` describe the same day. */
  lemma FinishedIsClosed(l: Ledger, r: Reading)
    ensures Feed(l, r).hasFinished <==> Closes(l, r)
    ensures Closes(l, r) ==> Feed(l, r).finished == ToRecord(ClosedAccum(l, r))
  {
    hide Book, ToRecord, CountEdges;
  }

  // ---- Conservation ----------------------------------------------------------------------------

  type Mode = m: nat | m < MODES

  /** The quantities a day adds up over time. */
  datatype Quantity =
    | Electricity(bucket: Bucket)
    | PowerTime
    | Heat(mode: Mode)
    | CoveredElectricity(mode: Mode)
    | ThermalTime
    | RunTime(mode: Mode)
    | SourceTime(source: Source)
    | DefrostTime
    | DefrostHeat
    | OutdoorTime
    | OutdoorSum
    | RunOutdoorTime
    | RunOutdoorSum

  function Amount(a: DayAccum, k: Quantity): int {
    match k
    case Electricity(b) => a.energy.elec[b]
    case PowerTime => a.energy.powerS
    case Heat(m) => a.energy.thermal[m]
    case CoveredElectricity(m) => a.energy.covered[m]
    case ThermalTime => a.energy.thermalS
    case RunTime(m) => a.activity.runS[m]
    case SourceTime(s) => a.activity.sourceS[s]
    case DefrostTime => a.activity.defrostS
    case DefrostHeat => a.activity.defrostThermal
    case OutdoorTime => a.outdoor.seconds
    case OutdoorSum => a.outdoor.sum
    case RunOutdoorTime => a.outdoor.runSeconds
    case RunOutdoorSum => a.outdoor.runSum
  }

  /** What one second in the state `p` adds: power to its bucket; heat, in the mode's direction, and
      the power that goes with it only while both are known and the unit is in a mode; seconds; the
      outdoor temperature in tenths. */
  function Rate(p: Input, k: Quantity): int {
    match k
    case Electricity(b) => if p.powerValid && p.bucket == b then p.powerW else 0
    case PowerTime => if p.powerValid then 1 else 0
    case Heat(m) => if p.thermalValid && p.powerValid && p.bucket == m then
        Max(0, if m == COOLING then -p.thermalW else p.thermalW) else 0
    case CoveredElectricity(m) => if p.thermalValid && p.powerValid && p.bucket == m then p.powerW else 0
    case ThermalTime => if p.thermalValid && p.powerValid && p.bucket != STANDBY then 1 else 0
    case RunTime(m) => if p.running && p.bucket == m then 1 else 0
    case SourceTime(s) => if p.running && !p.defrost && p.source == s then 1 else 0
    case DefrostTime => if p.defrost then 1 else 0
    case DefrostHeat => if p.defrost && p.defrostThermalValid then p.defrostThermalW else 0
    case OutdoorTime => 1
    case OutdoorSum => Deci(p)
    case RunOutdoorTime => if p.running && p.bucket != STANDBY then 1 else 0
    case RunOutdoorSum => if p.running && p.bucket != STANDBY then Deci(p) else 0
  }

  predicate IsOutdoor(k: Quantity) {
    k.OutdoorTime? || k.OutdoorSum? || k.RunOutdoorTime? || k.RunOutdoorSum?
  }

  /** The seconds of [from, to) that count: for the outdoor temperature not those of a defrost or of
      its tail, nor those without a valid reading. */
  function CountedSeconds(p: Input, defrostEndS: int, from: int, to: int, k: Quantity): nat {
    if !p.connected || to <= from then 0
    else if !IsOutdoor(k) then to - from
    else if p.outdoorValid && !p.defrost && to > OutdoorFrom(defrostEndS, from) then to - OutdoorFrom(defrostEndS, from)
    else 0
  }

  function StepAmount(p: Input, defrostEndS: int, from: int, to: int, k: Quantity): int {
    Rate(p, k) * CountedSeconds(p, defrostEndS, from, to, k)
  }

  /** The 32-bit running sum of a day takes this step without wrapping. */
  predicate SumFits(a: DayAccum, defrostEndS: int, from: int, to: int, p: Input) {
    -0x8000_0000 <= a.outdoor.runSum + StepAmount(p, defrostEndS, from, to, RunOutdoorSum) < 0x8000_0000
  }

  lemma BookAmount(a: DayAccum, defrostEndS: int, from: int, to: int, p: Input, k: Quantity)
    requires from <= to && (k.RunOutdoorSum? ==> SumFits(a, defrostEndS, from, to, p))
    ensures Amount(Book(a, defrostEndS, from, to, p), k) == Amount(a, k) + StepAmount(p, defrostEndS, from, to, k)
  {
    hide NoteSettings, Deci;
    if IsOutdoor(k) {
      BookOutdoorAmount(a, defrostEndS, from, to, p, k);
    } else {
      hide BookOutdoor;
    }
  }

  lemma BookOutdoorAmount(a: DayAccum, defrostEndS: int, from: int, to: int, p: Input, k: Quantity)
    requires from <= to && IsOutdoor(k) && (k.RunOutdoorSum? ==> SumFits(a, defrostEndS, from, to, p))
    ensures Amount(Book(a, defrostEndS, from, to, p), k) == Amount(a, k) + StepAmount(p, defrostEndS, from, to, k)
  {
    hide NoteSettings, Deci, BookPower, BookThermal, BookActivity, WidenOutdoor, Wrap32;
    WidenKeepsSums(a.outdoor, Deci(p));
  }

  lemma WidenKeepsSums(o: Outdoor, deci: int16)
    ensures var w := WidenOutdoor(o, deci);
            w.sum == o.sum && w.seconds == o.seconds && w.runSum == o.runSum && w.runSeconds == o.runSeconds
  {
  }

  lemma StepAmountZero(p: Input, defrostEndS: int, t: int, k: Quantity)
    ensures StepAmount(p, defrostEndS, t, t, k) == 0
  {
    hide Rate;
  }

  lemma StepAmountSplits(p: Input, defrostEndS: int, from: int, mid: int, to: int, k: Quantity)
    requires from <= mid <= to
    ensures StepAmount(p, defrostEndS, from, mid, k) + StepAmount(p, defrostEndS, mid, to, k)
         == StepAmount(p, defrostEndS, from, to, k)
  {
    SecondsSplit(p, defrostEndS, from, mid, to, k);
    hide Rate, CountedSeconds;
    Distribute(Rate(p, k), CountedSeconds(p, defrostEndS, from, mid, k), CountedSeconds(p, defrostEndS, mid, to, k));
  }

  lemma Distribute(a: int, x: int, y: int)
    ensures a * x + a * y == a * (x + y)
  {
  }

  lemma SecondsSplit(p: Input, defrostEndS: int, from: int, mid: int, to: int, k: Quantity)
    requires from <= mid <= to
    ensures CountedSeconds(p, defrostEndS, from, mid, k) + CountedSeconds(p, defrostEndS, mid, to, k)
         == CountedSeconds(p, defrostEndS, from, to, k)
  {
  }

  function OpenAmount(l: Ledger, k: Quantity): int {
    if l.open then Amount(l.cur, k) else 0
  }

  function TotalOf(days: seq<DayAccum>, k: Quantity): int {
    if days == [] then 0 else TotalOf(days[..|days| - 1], k) + Amount(days[|days| - 1], k)
  }

  lemma EdgesKeepAmount(l: Ledger, inStep: bool, now: int, i: Input, k: Quantity)
    ensures Amount(Edges(l, inStep, now, i).cur, k) == Amount(l.cur, k)
  {
  }

  lemma NewDayEmpty(l: Ledger, day: Day, k: Quantity)
    ensures Amount(CloseAndOpen(l, day).cur, k) == 0
  {
    hide ToRecord;
  }

  /** What a reading's step, cut at the day's end, books to the 32-bit running sums fits them. */
  predicate StepFits(s: Ledger, now: int) {
    s.prevS <= now && now - s.prevS <= MAX_STEP_SECONDS ==>
      && SumFits(s.cur, s.defrostEndS, s.prevS, if now < s.endS then now else Max(s.prevS, s.endS), s.prev)
      && (now >= s.endS ==> SumFits(EMPTY, s.defrostEndS, Max(s.prevS, s.endS), now, s.prev))
  }

  /** A step across midnight: the part before the boundary goes to the closing day, the rest to the
      new one, and a step inside a day goes to that day whole. */
  lemma AdvanceAmount(s: Ledger, now: int, day: Day, k: Quantity)
    requires s.prevS <= now && now - s.prevS <= MAX_STEP_SECONDS && (k.RunOutdoorSum? ==> StepFits(s, now))
    ensures now < s.endS ==> Amount(Advance(s, now, day).cur, k)
                             == Amount(s.cur, k) + StepAmount(s.prev, s.defrostEndS, s.prevS, now, k)
    ensures now >= s.endS ==> Amount(Advance(s, now, day).cur, k)
                              == StepAmount(s.prev, s.defrostEndS, Max(s.prevS, s.endS), now, k)
  {
    hide Book, Amount, StepAmount, ToRecord;
    if now < s.endS {
      BookAmount(s.cur, s.defrostEndS, s.prevS, now, s.prev, k);
    } else {
      var boundary := s.endS;
      var l1 := if s.prevS < boundary then BookInto(s, s.prevS, boundary, s.prev) else s;
      var l2 := CloseAndOpen(l1, day);
      NewDayEmpty(l1, day, k);
      BookAmount(l2.cur, l2.defrostEndS, Max(s.prevS, boundary), now, s.prev, k);
    }
  }

  lemma ClosedAmount(l: Ledger, r: Reading, k: Quantity)
    requires Closes(l, r) && (k.RunOutdoorSum? && l.hasPrev ==> StepFits(Seen(l, r.now, r.day), r.now))
    ensures var s := Seen(l, r.now, r.day);
            Amount(ClosedAccum(l, r), k) == Amount(l.cur, k) +
              if StepSeconds(l, r) > 0 && s.prevS < s.endS
              then StepAmount(l.prev, l.defrostEndS, s.prevS, s.endS, k) else 0
  {
    hide Book, Amount, StepAmount;
    var s := Seen(l, r.now, r.day);
    if s.hasPrev && 0 <= r.now - s.prevS <= MAX_STEP_SECONDS && s.prevS < s.endS {
      BookAmount(s.cur, s.defrostEndS, s.prevS, s.endS, s.prev, k);
    }
  }

  lemma OpenAfter(l: Ledger, r: Reading)
    ensures Feed(l, r).open
  {
    AcceptFacts(Seen(l, r.now, r.day), r.now, r.day, r.i);
    hide Accept;
  }

  lemma FeedKeepsSave(l: Ledger, r: Reading)
    ensures Feed(l, r).save == l.save
  {
    AcceptFacts(Seen(l, r.now, r.day), r.now, r.day, r.i);
    hide Accept;
  }

  lemma AcceptAmount(s: Ledger, r: Reading, k: Quantity)
    requires s.open && (k.RunOutdoorSum? && s.hasPrev ==> StepFits(s, r.now))
    ensures var t := Accept(s, r.now, r.day, r.i);
            var step := s.hasPrev && 0 <= r.now - s.prevS <= MAX_STEP_SECONDS;
            Amount(t.cur, k) ==
              if r.now < s.endS then
                Amount(s.cur, k) + if step then StepAmount(s.prev, s.defrostEndS, s.prevS, r.now, k) else 0
              else if step then StepAmount(s.prev, s.defrostEndS, Max(s.prevS, s.endS), r.now, k)
              else 0
  {
    hide Amount, StepAmount, Edges, Advance, CloseAndOpen;
    if s.hasPrev && r.now >= s.prevS {
      var inStep := r.now - s.prevS <= MAX_STEP_SECONDS;
      EdgesKeepAmount(Advance(s, r.now, r.day), inStep, r.now, r.i, k);
      if inStep { AdvanceAmount(s, r.now, r.day, k); } else { SkipAmount(s, r.now, r.day, k); }
    } else {
      NewDayEmpty(SetReference(s, r.now, r.i), r.day, k);
    }
  }

  /** A step that is too long books nothing. */
  lemma SkipAmount(s: Ledger, now: int, day: Day, k: Quantity)
    requires now - s.prevS > MAX_STEP_SECONDS
    ensures Amount(Advance(s, now, day).cur, k) == if now < s.endS then Amount(s.cur, k) else 0
  {
    hide Amount, CloseAndOpen;
    NewDayEmpty(s, day, k);
  }

  /** The step of a reading does not wrap a 32-bit running sum. */
  predicate FeedFits(l: Ledger, r: Reading) {
    l.open && !Dropped(l, r.now, r.day) && l.hasPrev ==> StepFits(Seen(l, r.now, r.day), r.now)
  }

  /** What the step ending at a reading is worth. */
  function Worth(l: Ledger, r: Reading, k: Quantity): int {
    StepAmount(l.prev, l.defrostEndS, r.now - StepSeconds(l, r), r.now, k)
  }

  /** One reading neither loses nor double-books anything. */
  lemma FeedConserves(l: Ledger, r: Reading, k: Quantity)
    requires k.RunOutdoorSum? ==> FeedFits(l, r)
    ensures TotalOf(ClosedBy(l, r), k) + OpenAmount(Feed(l, r), k) == OpenAmount(l, k) + Worth(l, r, k)
  {
    hide Accept, ClosedAccum, StepAmount, StepFits, Amount;
    OpenAfter(l, r);
    StepAmountZero(l.prev, l.defrostEndS, r.now, k);
    if !l.open {
      FirstDayEmpty(l, r, k);
    } else if !Dropped(l, r.now, r.day) {
      var s := Seen(l, r.now, r.day);
      AcceptAmount(s, r, k);
      if Closes(l, r) {
        ClosedAmount(l, r, k);
        TotalOfOne(ClosedAccum(l, r), k);
        if StepSeconds(l, r) > 0 && s.prevS < s.endS {
          StepAmountSplits(l.prev, l.defrostEndS, s.prevS, s.endS, r.now, k);
        }
      }
    }
  }

  lemma FirstDayEmpty(l: Ledger, r: Reading, k: Quantity)
    requires !l.open
    ensures Amount(Feed(l, r).cur, k) == 0
  {
  }

  lemma TotalOfOne(a: DayAccum, k: Quantity)
    ensures TotalOf([a], k) == Amount(a, k)
  {
    assert [a][..0] == [];
  }

  lemma {:induction false} TotalOfConcat(xs: seq<DayAccum>, ys: seq<DayAccum>, k: Quantity)
    ensures TotalOf(xs + ys, k) == TotalOf(xs, k) + TotalOf(ys, k)
  {
    if ys == [] {
      assert xs + ys == xs;
    } else {
      var n := |ys| - 1;
      assert (xs + ys)[..|xs + ys| - 1] == xs + ys[..n];
      TotalOfConcat(xs, ys[..n], k);
    }
  }

  /** What the steps of a run are worth, each booked to the state seen at its start. */
  function BookedSteps(l: Ledger, rs: seq<Reading>, k: Quantity): int {
    if rs == [] then 0 else
      var before := Run(l, rs[..|rs| - 1]);
      BookedSteps(l, rs[..|rs| - 1], k) + Worth(before, rs[|rs| - 1], k)
  }

  /** The 32-bit running sum of no day wraps on the run. */
  predicate RunFits(l: Ledger, rs: seq<Reading>) {
    forall n :: 0 <= n < |rs| ==> FeedFits(Run(l, rs[..n]), rs[n])
  }

  /** Conservation over any run, for any days and any clock: closed days plus the open day hold
      exactly what the steps were worth. */
  lemma {:induction false} RunConserves(l: Ledger, rs: seq<Reading>, k: Quantity)
    requires k.RunOutdoorSum? ==> RunFits(l, rs)
    ensures TotalOf(ClosedDays(l, rs), k) + OpenAmount(Run(l, rs), k) == OpenAmount(l, k) + BookedSteps(l, rs, k)
  {
    hide FeedFits, Worth, Feed, ClosedBy, OpenAmount;
    if rs != [] {
      var init, last := rs[..|rs| - 1], rs[|rs| - 1];
      if k.RunOutdoorSum? { FitsBefore(l, rs); }
      RunConserves(l, init, k);
      FeedConserves(Run(l, init), last, k);
      TotalOfConcat(ClosedDays(l, init), ClosedBy(Run(l, init), last), k);
    }
  }

  lemma FitsBefore(l: Ledger, rs: seq<Reading>)
    requires RunFits(l, rs) && rs != []
    ensures RunFits(l, rs[..|rs| - 1]) && FeedFits(Run(l, rs[..|rs| - 1]), rs[|rs| - 1])
  {
    hide FeedFits, Run;
    var init := rs[..|rs| - 1];
    forall n | 0 <= n < |init| ensures FeedFits(Run(l, init[..n]), init[n]) {
      assert init[..n] == rs[..n] && init[n] == rs[n];
    }
  }

  // ---- The same, from the readings alone -------------------------------------------------------

  predicate WellFormed(r: Reading) {
    r.day.startS <= r.now < DayEnd(r.day)
  }

  predicate AllWellFormed(rs: seq<Reading>) {
    forall k :: 0 <= k < |rs| ==> WellFormed(rs[k])
  }

  /** Reading `n` of a fresh run was before the midnight of the day open then. */
  predicate DroppedAt(rs: seq<Reading>, n: nat)
    requires n < |rs|
  {
    Dropped(Run(FRESH, rs[..n]), rs[n].now, rs[n].day)
  }

  /** Rate times elapsed time over the consecutive readings at most MAX_STEP_SECONDS apart whose
      first was not dropped; a disconnected one is worth nothing. The outdoor quantities pause until
      the tail of the last defrost the ledger saw has passed. */
  function ReadingSteps(rs: seq<Reading>, k: Quantity): int {
    if |rs| < 2 then 0 else
      var p, r := rs[|rs| - 2], rs[|rs| - 1];
      ReadingSteps(rs[..|rs| - 1], k) +
      if !DroppedAt(rs, |rs| - 2) && 0 <= r.now - p.now <= MAX_STEP_SECONDS
      then StepAmount(p.i, Run(FRESH, rs[..|rs| - 1]).defrostEndS, p.now, r.now, k) else 0
  }

  /** What a run from a fresh ledger knows after its last reading. */
  lemma FreshRunState(rs: seq<Reading>)
    requires rs != [] && AllWellFormed(rs)
    ensures var l, r := Run(FRESH, rs), rs[|rs| - 1];
            && l.open && l.spanExact
            && (l.hasPrev <==> !DroppedAt(rs, |rs| - 1))
            && (l.hasPrev ==> l.prev == r.i && l.prevS == r.now && l.startS <= l.prevS < l.endS)
  {
    var init, r := rs[..|rs| - 1], rs[|rs| - 1];
    var b := Run(FRESH, init);
    if init != [] { FreshRunState(init); }
    FeedState(b, r);
  }

  lemma FeedState(b: Ledger, r: Reading)
    requires WellFormed(r) && (b.open ==> b.spanExact)
    ensures var l := Feed(b, r);
            && l.open && l.spanExact
            && (l.hasPrev <==> !Dropped(b, r.now, r.day))
            && (l.hasPrev ==> l.prev == r.i && l.prevS == r.now && l.startS <= l.prevS < l.endS)
  {
    AcceptFacts(Seen(b, r.now, r.day), r.now, r.day, r.i);
    hide Accept;
  }

  /** Conservation stated on the readings: for well-formed days, under any clock jumps and
      timezone shifts, the closed days plus the open day hold of every quantity exactly its rate
      at the previous reading times elapsed time, over the qualifying steps. */
  lemma {:induction false} ReadingsConserved(rs: seq<Reading>, k: Quantity)
    requires AllWellFormed(rs) && (k.RunOutdoorSum? ==> RunFits(FRESH, rs))
    ensures TotalOf(ClosedDays(FRESH, rs), k) + OpenAmount(Run(FRESH, rs), k) == ReadingSteps(rs, k)
  {
    RunConserves(FRESH, rs, k);
    StepsAgree(rs, k);
  }

  lemma {:induction false} StepsAgree(rs: seq<Reading>, k: Quantity)
    requires AllWellFormed(rs)
    ensures BookedSteps(FRESH, rs, k) == ReadingSteps(rs, k)
  {
    hide Run, StepAmount, StepSeconds, Worth;
    if |rs| == 1 {
      FirstStepIsFree(rs, k);
    } else if |rs| > 1 {
      var init := rs[..|rs| - 1];
      StepsAgree(init, k);
      LastStepAgrees(rs, k);
    }
  }

  lemma FirstStepIsFree(rs: seq<Reading>, k: Quantity)
    requires |rs| == 1
    ensures BookedSteps(FRESH, rs, k) == 0
  {
    assert rs[..0] == [];
  }

  /** The last step is worth the same by the ledger's state and by the readings alone. */
  lemma LastStepAgrees(rs: seq<Reading>, k: Quantity)
    requires |rs| > 1 && AllWellFormed(rs)
    ensures var before, p, r := Run(FRESH, rs[..|rs| - 1]), rs[|rs| - 2], rs[|rs| - 1];
            Worth(before, r, k) ==
            if !DroppedAt(rs, |rs| - 2) && 0 <= r.now - p.now <= MAX_STEP_SECONDS
            then StepAmount(p.i, before.defrostEndS, p.now, r.now, k) else 0
  {
    hide Run;
    var init := rs[..|rs| - 1];
    FreshRunState(init);
    assert init[..|init| - 1] == rs[..|rs| - 2];
  }

  /** On a clock that never goes back no reading is dropped, so every qualifying step counts. */
  lemma {:induction false} NothingDroppedForward(rs: seq<Reading>)
    requires AllWellFormed(rs)
    requires forall a, b :: 0 <= a < b < |rs| ==> rs[a].now <= rs[b].now
    ensures forall n :: 0 <= n < |rs| ==> !DroppedAt(rs, n)
  {
    if rs != [] {
      var init := rs[..|rs| - 1];
      NothingDroppedForward(init);
      forall n | 0 <= n < |init| ensures !DroppedAt(rs, n) {
        assert !DroppedAt(init, n);
        assert init[..n] == rs[..n];
      }
      if init != [] { FreshRunState(init); }
    }
  }

  // ---- Dates -----------------------------------------------------------------------------------

  /** Exactly when a close fails to open a later date: the reading's day is not later than the open
      one and claims to be over already. Well-formed days never do that. */
  lemma CloseOpensLaterDate(l: Ledger, r: Reading)
    ensures Closes(l, r) ==>
              (Feed(l, r).cur.date == r.day.date &&
               (r.day.date <= l.cur.date <==> r.day.date <= ClosedAccum(l, r).date))
    ensures Closes(l, r) && r.day.date <= l.cur.date <==>
            l.open && !Dropped(l, r.now, r.day) && r.day.date <= l.cur.date && r.now >= ExactSpan(l, r.day).endS &&
                r.now >= DayEnd(r.day)
  {
    FeedDate(l, r);
    ClosedDate(l, r);
  }

  lemma BookKeepsDate(a: DayAccum, defrostEndS: int, from: int, to: int, p: Input)
    ensures var b := Book(a, defrostEndS, from, to, p); b.date == a.date && b.utcOffsetMin == a.utcOffsetMin
  {
  }

  lemma ClosedDate(l: Ledger, r: Reading)
    ensures Closes(l, r) ==> ClosedAccum(l, r).date == l.cur.date
  {
    var s := Seen(l, r.now, r.day);
    BookKeepsDate(s.cur, s.defrostEndS, s.prevS, s.endS, s.prev);
  }

  lemma AdvanceDate(s: Ledger, now: int, day: Day)
    ensures Advance(s, now, day).cur.date == if now >= s.endS then day.date else s.cur.date
    ensures Advance(s, now, day).cur.utcOffsetMin == if now >= s.endS then day.utcOffsetMin else s.cur.utcOffsetMin
    ensures Advance(s, now, day).endS == if now >= s.endS then DayEnd(day) else s.endS
  {
    var inStep := now - s.prevS <= MAX_STEP_SECONDS;
    if now >= s.endS {
      var l1 := if inStep && s.prevS < s.endS then BookInto(s, s.prevS, s.endS, s.prev) else s;
      var l2 := CloseAndOpen(l1, day);
      BookKeepsDate(l2.cur, l2.defrostEndS, Max(s.prevS, s.endS), now, s.prev);
    } else {
      BookKeepsDate(s.cur, s.defrostEndS, s.prevS, now, s.prev);
    }
  }

  /** A day that a reading opens has the reading's offset and span. */
  lemma FeedOpens(l: Ledger, r: Reading)
    requires !l.open || Closes(l, r)
    ensures var t := Feed(l, r);
            t.cur.utcOffsetMin == r.day.utcOffsetMin && t.startS == r.day.startS && t.endS == DayEnd(r.day)
  {
    hide Advance, CountEdges, ToRecord;
    if l.open {
      var s := Seen(l, r.now, r.day);
      AdvanceDate(s, r.now, r.day);
      AdvanceFacts(s, r.now, r.day);
    }
  }

  lemma FeedDate(l: Ledger, r: Reading)
    ensures Feed(l, r).cur.date == if !l.open || Closes(l, r) then r.day.date else l.cur.date
    ensures !Dropped(l, r.now, r.day) ==>
        Feed(l, r).endS == if !l.open || Closes(l, r) then DayEnd(r.day) else Seen(l, r.now, r.day).endS
  {
    hide Advance, CountEdges, ToRecord;
    if l.open && !Dropped(l, r.now, r.day) {
      AdvanceDate(Seen(l, r.now, r.day), r.now, r.day);
    }
  }

  /** Every accepted reading of a well-formed day ends up before the open day's end. */
  lemma AcceptedBeforeEnd(l: Ledger, r: Reading)
    requires r.now < DayEnd(r.day) && !Dropped(l, r.now, r.day)
    ensures r.now < Feed(l, r).endS
  {
    FeedDate(l, r);
  }

  predicate DatesAscend(days: seq<DayAccum>) {
    forall a, b :: 0 <= a < b < |days| ==> days[a].date < days[b].date
  }

  predicate DatesBelow(days: seq<DayAccum>, date: nat) {
    forall a :: 0 <= a < |days| ==> days[a].date < date
  }

  /** Under any clock jumps and timezone shifts, closed dates strictly increase and stay strictly
      below the open date, so no closed date is ever reopened. */
  lemma {:induction false} DatesIncrease(l: Ledger, rs: seq<Reading>)
    requires forall k :: 0 <= k < |rs| ==> rs[k].now < DayEnd(rs[k].day)
    ensures DatesAscend(ClosedDays(l, rs))
    ensures DatesBelow(ClosedDays(l, rs), Run(l, rs).cur.date)
    ensures l.open ==> l.cur.date <= Run(l, rs).cur.date
  {
    hide Add, ClosedAccum, Closes;
    if rs != [] {
      var init, r := rs[..|rs| - 1], rs[|rs| - 1];
      DatesIncrease(l, init);
      var b := Run(l, init);
      NoCloseBeforeOpen(l, init);
      FeedDate(b, r);
      ClosedDate(b, r);
      CloseOpensLaterDate(b, r);
      assert r.now < DayEnd(r.day);
      AppendDates(ClosedDays(l, init), ClosedBy(b, r), b.cur.date, Feed(b, r).cur.date);
    }
  }

  lemma AppendDates(days: seq<DayAccum>, more: seq<DayAccum>, date: nat, next: nat)
    requires DatesAscend(days) && DatesBelow(days, date) && |more| <= 1
    requires days == [] || date <= next
    requires more != [] ==> more[0].date == date < next
    ensures DatesAscend(days + more) && DatesBelow(days + more, next)
  {
  }

  lemma NoCloseBeforeOpen(l: Ledger, rs: seq<Reading>)
    ensures l.open || ClosedDays(l, rs) != [] ==> Run(l, rs).open
  {
    if rs != [] { OpenAfter(Run(l, rs[..|rs| - 1]), rs[|rs| - 1]); }
  }
}
