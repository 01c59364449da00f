/** Pairing of open and close events into spans: the one-pass walk over the log, and the pairing it
    stands for. A span is named by the index of the event that opened it. */
module FaultPairing {
  import opened Basics
  import opened Events

  datatype SpanKind = Fault | Defrost | FreezeProtection

  const FREEZE_PROTECTION_MODE: nat := 2
  const MAX_OPEN: nat := 16

  function ModeTo(payload: nat): nat {
    payload % 256
  }

  function ModeFrom(payload: nat): nat {
    payload / 256 % 256
  }

  predicate Opens(kind: SpanKind, e: Entry) {
    match kind
    case Fault => e.kind == ERROR_APPEARED
    case Defrost => e.kind == DEFROST_START
    case FreezeProtection =>
      && e.kind == MODE_CHANGED
      && ModeTo(e.payload) == FREEZE_PROTECTION_MODE && ModeFrom(e.payload) != FREEZE_PROTECTION_MODE
  }

  predicate Closes(kind: SpanKind, e: Entry) {
    match kind
    case Fault => e.kind == ERROR_CLEARED
    case Defrost => e.kind == DEFROST_END
    case FreezeProtection =>
      && e.kind == MODE_CHANGED
      && ModeFrom(e.payload) == FREEZE_PROTECTION_MODE && ModeTo(e.payload) != FREEZE_PROTECTION_MODE
  }

  function Site(kind: SpanKind, e: Entry): nat {
    if kind.Fault? then e.payload % 0x1_0000 else 0
  }

  // ---------------------------------------------------------------- the walk

  /** A finished span: the opening event and the reported end; 0 means still active. */
  datatype Span = Span(opener: nat, end: nat)

  datatype Walk = Walk(boot: nat, haveBoot: bool, last: nat, open: seq<nat>, spans: seq<Span>)

  predicate OpenersWithin(open: seq<nat>, n: nat) {
    forall i :: 0 <= i < |open| ==> open[i] < n
  }

  /** Close every open span, the end never before the start. */
  function CloseAll(events: seq<Entry>, open: seq<nat>, end: nat): (r: seq<Span>)
    requires OpenersWithin(open, |events|)
    ensures |r| == |open|
  {
    seq(|open|, i requires 0 <= i < |open| => Span(open[i], Max(events[open[i]].timestamp, end)))
  }

  function Active(open: seq<nat>): seq<Span> {
    seq(|open|, i requires 0 <= i < |open| => Span(open[i], 0))
  }

  /** The first open span of a site, or the number of open spans. */
  function Find(events: seq<Entry>, kind: SpanKind, open: seq<nat>, site: nat, i: nat): (j: nat)
    requires OpenersWithin(open, |events|) && i <= |open|
    ensures i <= j <= |open|
    ensures j < |open| ==> Site(kind, events[open[j]]) == site
    ensures forall k :: i <= k < j ==> Site(kind, events[open[k]]) != site
    decreases |open| - i
  {
    if i == |open| || Site(kind, events[open[i]]) == site then i else Find(events, kind, open, site, i + 1)
  }

  /** Fill the hole with the last open span. */
  function RemoveAt(open: seq<nat>, j: nat): seq<nat>
    requires j < |open|
  {
    open[j := open[|open| - 1]][..|open| - 1]
  }

  /** A timed event of another boot first closes what the earlier boot left open. */
  function EnterBoot(events: seq<Entry>, w: Walk, n: nat): Walk
    requires n < |events| && OpenersWithin(w.open, n)
  {
    var e := events[n];
    var v := if w.haveBoot && e.boot != w.boot then w.(spans := w.spans + CloseAll(events, w.open, w.last), open := [])
        else w;
    v.(boot := e.boot, haveBoot := true, last := e.timestamp)
  }

  function Handle(events: seq<Entry>, kind: SpanKind, w: Walk, n: nat): Walk
    requires n < |events| && OpenersWithin(w.open, n)
  {
    var e := events[n];
    var j := Find(events, kind, w.open, Site(kind, e), 0);
    if Opens(kind, e) then
      if j == |w.open| && |w.open| < MAX_OPEN then w.(open := w.open + [n]) else w
    else if Closes(kind, e) && j < |w.open| then
      w.(spans := w.spans + [Span(w.open[j], e.timestamp)], open := RemoveAt(w.open, j))
    else w
  }

  /** The walk after the first `n` events. */
  function After(events: seq<Entry>, kind: SpanKind, n: nat): (w: Walk)
    requires n <= |events|
    ensures OpenersWithin(w.open, n)
  {
    if n == 0 then Walk(0, false, 0, [], [])
    else
      var w := After(events, kind, n - 1);
      if events[n - 1].timestamp == 0 then w else Handle(events, kind, EnterBoot(events, w, n - 1), n - 1)
  }

  /** What is left open at the end is active if the log ends in the current boot. */
  function Spans(events: seq<Entry>, kind: SpanKind, current: nat): seq<Span> {
    var w := After(events, kind, |events|);
    w.spans + if w.haveBoot && w.boot == current then Active(w.open) else CloseAll(events, w.open, w.last)
  }

  // ---------------------------------------------------------------- the pairing

  predicate Timed(events: seq<Entry>, i: nat) {
    i < |events| && events[i].timestamp != 0
  }

  /** Event `k` ends the span event `o` opened: it closes that site, or belongs to another boot. */
  predicate Stops(events: seq<Entry>, kind: SpanKind, o: nat, k: nat) {
    && Timed(events, k) && o < |events|
    && (events[k].boot != events[o].boot || (Closes(kind, events[k]) && Site(kind, events[k]) == Site(kind, events[o])))
  }

  predicate IsOpener(events: seq<Entry>, kind: SpanKind, o: nat) {
    Timed(events, o) && Opens(kind, events[o])
  }

  /** Event `o` opened its site and nothing before event `n` ended that. */
  ghost predicate Live(events: seq<Entry>, kind: SpanKind, o: nat, n: nat) {
    IsOpener(events, kind, o) && o < n && forall k :: o < k < n ==> !Stops(events, kind, o, k)
  }

  /** Event `o` opens its site while the site is not open in that boot. */
  ghost predicate FirstOpen(events: seq<Entry>, kind: SpanKind, o: nat) {
    && IsOpener(events, kind, o)
    && forall p: nat :: Live(events, kind, p, o) && events[p].boot == events[o].boot ==>
        Site(kind, events[p]) != Site(kind, events[o])
  }

  /** Event `k` is the newest timed event before `n`. */
  ghost predicate IsLast(events: seq<Entry>, n: nat, k: nat) {
    Timed(events, k) && k < n && forall m :: k < m < n ==> !Timed(events, m)
  }

  /** The end of a span: the next close of its site in the same boot; else, when another boot
      follows, the last time of its own boot; else active if its boot is the current one. */
  ghost predicate EndsWith(events: seq<Entry>, kind: SpanKind, o: nat, current: nat, end: nat)
  {
    if Live(events, kind, o, |events|) then
      if events[o].boot == current then end == 0
      else exists k: nat :: IsLast(events, |events|, k) && end == Max(events[o].timestamp, events[k].timestamp)
    else
      exists c: nat :: EndsAt(events, kind, o, c, end)
  }

  ghost predicate EndsAt(events: seq<Entry>, kind: SpanKind, o: nat, c: nat, end: nat)
  {
    && Live(events, kind, o, c) && Stops(events, kind, o, c)
    && if events[c].boot == events[o].boot then end == events[c].timestamp
       else exists k: nat :: IsLast(events, c, k) && end == Max(events[o].timestamp, events[k].timestamp)
  }

  /** The spans open after the first `n` events. */
  ghost function OpenSet(events: seq<Entry>, kind: SpanKind, n: nat): set<nat> {
    set o: nat | o < n && FirstOpen(events, kind, o) && Live(events, kind, o, n)
  }

  /** Never more than 16 sites are open at once. */
  ghost predicate FitsOpenTable(events: seq<Entry>, kind: SpanKind, n: nat) {
    forall m :: 0 <= m <= n ==> |OpenSet(events, kind, m)| <= MAX_OPEN
  }
}
