/** The span query over a list of events: one pass that pairs them and collects the result into the
    caller's array. */
module FaultHistory {
  import opened Basics
  import opened Events
  import opened FaultPairing
  import opened FaultBuilder

  datatype OpenSpan = OpenSpan(site: nat, start: nat)

  function OpenOf(events: seq<Entry>, kind: SpanKind, o: nat): OpenSpan
    requires o < |events|
  {
    OpenSpan(Site(kind, events[o]), events[o].timestamp)
  }

  /** The interval a span is reported as. */
  function IntervalOf(events: seq<Entry>, kind: SpanKind, sp: Span): Interval {
    if sp.opener < |events| then Interval(events[sp.opener].timestamp, sp.end, Site(kind, events[sp.opener]))
        else Interval(0, sp.end, 0)
  }

  function Intervals(events: seq<Entry>, kind: SpanKind, spans: seq<Span>): (r: seq<Interval>)
    ensures |r| == |spans|
  {
    seq(|spans|, i requires 0 <= i < |spans| => IntervalOf(events, kind, spans[i]))
  }

  /** The table of open spans holds these openers. */
  ghost predicate TableHolds(events: seq<Entry>, kind: SpanKind, table: seq<OpenSpan>, open: seq<nat>) {
    && |table| == |open| && OpenersWithin(open, |events|)
    && forall i :: 0 <= i < |open| ==> table[i] == OpenOf(events, kind, open[i])
  }

  function ClosedIntervals(table: seq<OpenSpan>, end: nat): (r: seq<Interval>)
    ensures |r| == |table|
  {
    seq(|table|, i requires 0 <= i < |table| => Interval(table[i].start, Max(table[i].start, end), table[i].site))
  }

  function ActiveIntervals(table: seq<OpenSpan>): (r: seq<Interval>)
    ensures |r| == |table|
  {
    seq(|table|, i requires 0 <= i < |table| => Interval(table[i].start, 0, table[i].site))
  }

  lemma TableIntervals(events: seq<Entry>, kind: SpanKind, table: seq<OpenSpan>, open: seq<nat>, end: nat)
    requires TableHolds(events, kind, table, open)
    ensures ClosedIntervals(table, end) == Intervals(events, kind, CloseAll(events, open, end))
    ensures ActiveIntervals(table) == Intervals(events, kind, Active(open))
  {
  }

  method CloseTable(b: Builder, table: array<OpenSpan>, n: nat, end: nat)
    requires b.Valid() && n <= table.Length
    modifies b, b.out
    ensures b.Valid()
    ensures b.Contents() == EmitAll(old(b.Contents()), b.window, b.cap, ClosedIntervals(old(table[..n]), end))
    ensures old(b.count) <= b.count && forall i :: b.count <= i < b.out.Length ==> b.out[i] == old(b.out[i])
  {
    ghost var before := b.Contents();
    ghost var all := ClosedIntervals(table[..n], end);
    for i := 0 to n
      invariant b.Valid() && table[..n] == old(table[..n])
      invariant b.Contents() == EmitAll(before, b.window, b.cap, all[..i])
      invariant old(b.count) <= b.count && forall k :: b.count <= k < b.out.Length ==> b.out[k] == old(b.out[k])
    {
      assert all[..i + 1][..i] == all[..i];
      b.Emit(Interval(table[i].start, Max(table[i].start, end), table[i].site));
    }
    assert all[..n] == all;
  }

  method ReportActive(b: Builder, table: array<OpenSpan>, n: nat)
    requires b.Valid() && n <= table.Length
    modifies b, b.out
    ensures b.Valid()
    ensures b.Contents() == EmitAll(old(b.Contents()), b.window, b.cap, ActiveIntervals(old(table[..n])))
    ensures old(b.count) <= b.count && forall i :: b.count <= i < b.out.Length ==> b.out[i] == old(b.out[i])
  {
    ghost var before := b.Contents();
    ghost var all := ActiveIntervals(table[..n]);
    for i := 0 to n
      invariant b.Valid() && table[..n] == old(table[..n])
      invariant b.Contents() == EmitAll(before, b.window, b.cap, all[..i])
      invariant old(b.count) <= b.count && forall k :: b.count <= k < b.out.Length ==> b.out[k] == old(b.out[k])
    {
      assert all[..i + 1][..i] == all[..i];
      b.Emit(Interval(table[i].start, 0, table[i].site));
    }
    assert all[..n] == all;
  }

  /** What the query has collected stands for the spans the walk has finished. */
  ghost predicate Collected(events: seq<Entry>, kind: SpanKind,
      spans: seq<Span>, kept: Kept, window: Window, cap: nat) {
    cap > 0 && kept == EmitAll(Kept([], 0), window, cap, Intervals(events, kind, spans))
  }

  lemma CollectMore(events: seq<Entry>, kind: SpanKind,
      spans: seq<Span>, more: seq<Span>, kept: Kept, window: Window, cap: nat)
    requires Collected(events, kind, spans, kept, window, cap)
    ensures Collected(events, kind, spans + more, EmitAll(kept, window, cap, Intervals(events, kind, more)), window,
        cap)
  {
    hide EmitAll;
    EmitAllTwice(Kept([], 0), window, cap, Intervals(events, kind, spans), Intervals(events, kind, more));
    assert Intervals(events, kind, spans + more) == Intervals(events, kind, spans) + Intervals(events, kind, more);
  }

  lemma CollectOne(events: seq<Entry>, kind: SpanKind, spans: seq<Span>, sp: Span, kept: Kept, window: Window, cap: nat)
    requires Collected(events, kind, spans, kept, window, cap)
    ensures Collected(events, kind, spans + [sp], Emitted(kept, window, cap, IntervalOf(events, kind, sp)), window, cap)
  {
    CollectMore(events, kind, spans, [sp], kept, window, cap);
    hide Emitted;
    var one := Intervals(events, kind, [sp]);
    assert one == [IntervalOf(events, kind, sp)];
    assert one[..0] == [];
  }

  /** Look a site up in the table. */
  method FindSite(table: array<OpenSpan>, n: nat, site: nat,
      ghost events: seq<Entry>, ghost kind: SpanKind, ghost open: seq<nat>) returns (j: nat)
    requires n <= table.Length && TableHolds(events, kind, table[..n], open)
    ensures j == Find(events, kind, open, site, 0)
  {
    j := 0;
    while j < n && table[j].site != site
      invariant j <= n
      invariant Find(events, kind, open, site, 0) == Find(events, kind, open, site, j)
    {
      assert table[..n][j] == OpenOf(events, kind, open[j]);
      j := j + 1;
    }
    if j < n { assert table[..n][j] == OpenOf(events, kind, open[j]); }
  }

  /** Enter a new span, unless its site is open or the table is full. */
  method OpenSite(table: array<OpenSpan>, n: nat, site: nat, start: nat,
      ghost events: seq<Entry>, ghost kind: SpanKind, ghost open: seq<nat>) returns (m: nat)
    requires table.Length == MAX_OPEN && n <= MAX_OPEN && TableHolds(events, kind, table[..n], open)
    modifies table
    ensures m <= MAX_OPEN
    ensures table[..m] == if Find(events, kind, open, site, 0) == |open| && |open| < MAX_OPEN then
        old(table[..n]) + [OpenSpan(site, start)] else old(table[..n])
  {
    var j := FindSite(table, n, site, events, kind, open);
    hide Find, TableHolds;
    m := n;
    if j == n && n < MAX_OPEN {
      table[n] := OpenSpan(site, start);
      m := n + 1;
    }
  }

  /** Emit the span of a site that is open and fill its place with the last entry. */
  method CloseSite(b: Builder, table: array<OpenSpan>, n: nat, site: nat, end: nat,
                   ghost events: seq<Entry>, ghost kind: SpanKind, ghost w: Walk)
    returns (m: nat)
    requires b.Valid() && table.Length == MAX_OPEN && n <= MAX_OPEN && TableHolds(events, kind, table[..n], w.open)
    requires Collected(events, kind, w.spans, b.Contents(), b.window, b.cap)
    modifies b, b.out, table
    ensures b.Valid() && m <= MAX_OPEN
    ensures var j := Find(events, kind, w.open, site, 0);
      if j < |w.open| then TableHolds(events, kind, table[..m], RemoveAt(w.open, j)) &&
          Collected(events, kind, w.spans + [Span(w.open[j], end)], b.Contents(), b.window, b.cap)
      else table[..m] == old(table[..n]) && b.Contents() == old(b.Contents())
    ensures old(b.count) <= b.count && forall k :: b.count <= k < b.out.Length ==> b.out[k] == old(b.out[k])
  {
    var j := FindSite(table, n, site, events, kind, w.open);
    hide Collected, Emitted;
    m := n;
    if j < n {
      assert table[..n][j] == OpenOf(events, kind, w.open[j]);
      CollectOne(events, kind, w.spans, Span(w.open[j], end), b.Contents(), b.window, b.cap);
      b.Emit(Interval(table[j].start, end, site));
      m := n - 1;
      table[j] := table[m];
      TableRemoved(events, kind, old(table[..n]), w.open, j);
      hide TableHolds;
      assert table[..m] == old(table[..n])[j := old(table[..n])[m]][..m];
    }
  }

  /** One event after the boot check: open a span, close one, or neither. */
  method HandleEvent(b: Builder, table: array<OpenSpan>, n: nat, events: seq<Entry>, kind: SpanKind, i: nat,
                     ghost w: Walk)
    returns (m: nat)
    requires b.Valid() && table.Length == MAX_OPEN && n <= MAX_OPEN && i < |events|
    requires OpenersWithin(w.open, i) && TableHolds(events, kind, table[..n], w.open)
    requires Collected(events, kind, w.spans, b.Contents(), b.window, b.cap)
    modifies b, b.out, table
    ensures b.Valid() && m <= MAX_OPEN
    ensures TableHolds(events, kind, table[..m], Handle(events, kind, w, i).open)
    ensures Collected(events, kind, Handle(events, kind, w, i).spans, b.Contents(), b.window, b.cap)
    ensures old(b.count) <= b.count && forall k :: b.count <= k < b.out.Length ==> b.out[k] == old(b.out[k])
  {
    hide Collected, Opens, Closes, Find;
    m := n;
    var e := events[i];
    if Opens(kind, e) {
      m := OpenSite(table, n, Site(kind, e), e.timestamp, events, kind, w.open);
    } else if Closes(kind, e) {
      hide RemoveAt;
      m := CloseSite(b, table, n, Site(kind, e), e.timestamp, events, kind, w);
    }
  }

  lemma TableRemoved(events: seq<Entry>, kind: SpanKind, table: seq<OpenSpan>, open: seq<nat>, j: nat)
    requires TableHolds(events, kind, table, open) && j < |open|
    ensures TableHolds(events, kind, table[j := table[|open| - 1]][..|open| - 1], RemoveAt(open, j))
  {
  }

  /** One event of the walk. */
  method WalkEvent(b: Builder, table: array<OpenSpan>, n: nat, events: seq<Entry>, kind: SpanKind, i: nat,
                   boot: nat, haveBoot: bool, last: nat, ghost w: Walk)
    returns (m: nat)
    requires b.Valid() && table.Length == MAX_OPEN && n <= MAX_OPEN && i < |events|
    requires OpenersWithin(w.open, i) && TableHolds(events, kind, table[..n], w.open)
    requires w.boot == boot && w.haveBoot == haveBoot && w.last == last
    requires Collected(events, kind, w.spans, b.Contents(), b.window, b.cap)
    modifies b, b.out, table
    ensures b.Valid() && m <= MAX_OPEN && OpenersWithin(EnterBoot(events, w, i).open, i)
    ensures TableHolds(events, kind, table[..m], Handle(events, kind, EnterBoot(events, w, i), i).open)
    ensures Collected(events, kind, Handle(events, kind, EnterBoot(events, w, i), i).spans, b.Contents(), b.window,
        b.cap)
    ensures old(b.count) <= b.count && forall k :: b.count <= k < b.out.Length ==> b.out[k] == old(b.out[k])
  {
    hide Collected, Handle;
    m := n;
    if haveBoot && events[i].boot != boot {
      TableIntervals(events, kind, table[..n], w.open, last);
      CollectMore(events, kind, w.spans, CloseAll(events, w.open, last), b.Contents(), b.window, b.cap);
      CloseTable(b, table, n, last);
      m := 0;
    }
    m := HandleEvent(b, table, m, events, kind, i, EnterBoot(events, w, i));
  }

  /** Step the ghost walk over event `i`. */
  lemma AfterNext(events: seq<Entry>, kind: SpanKind, i: nat)
    requires i < |events|
    ensures var w := After(events, kind, i);
      if events[i].timestamp == 0 then After(events, kind, i + 1) == w
      else
        && OpenersWithin(EnterBoot(events, w, i).open, i)
        && After(events, kind, i + 1) == Handle(events, kind, EnterBoot(events, w, i), i)
        && After(events, kind, i + 1).boot == events[i].boot
        && After(events, kind, i + 1).haveBoot
        && After(events, kind, i + 1).last == events[i].timestamp
  {
  }

  method WalkAll(b: Builder, table: array<OpenSpan>, events: seq<Entry>, kind: SpanKind)
    returns (n: nat, boot: nat, haveBoot: bool, last: nat)
    requires b.Valid() && b.Contents() == Kept([], 0) && table.Length == MAX_OPEN
    modifies b, b.out, table
    ensures b.Valid() && n <= MAX_OPEN
    ensures var w := After(events, kind, |events|);
      && boot == w.boot && haveBoot == w.haveBoot && last == w.last && TableHolds(events, kind, table[..n], w.open)
      && Collected(events, kind, w.spans, b.Contents(), b.window, b.cap)
    ensures forall k :: b.count <= k < b.out.Length ==> b.out[k] == old(b.out[k])
  {
    n, boot, haveBoot, last := 0, 0, false, 0;
    ghost var w := After(events, kind, 0);
    assert Intervals(events, kind, []) == [];
    assert Collected(events, kind, w.spans, b.Contents(), b.window, b.cap);
    hide EmitAll, Handle, EnterBoot, Collected, After;
    for i := 0 to |events|
      invariant b.Valid() && n <= MAX_OPEN && w == After(events, kind, i)
      invariant boot == w.boot && haveBoot == w.haveBoot && last == w.last
      invariant TableHolds(events, kind, table[..n], w.open)
      invariant Collected(events, kind, w.spans, b.Contents(), b.window, b.cap)
      invariant forall k :: b.count <= k < b.out.Length ==> b.out[k] == old(b.out[k])
    {
      AfterNext(events, kind, i);
      if events[i].timestamp == 0 { continue; }
      n := WalkEvent(b, table, n, events, kind, i, boot, haveBoot, last, w);
      boot, haveBoot, last := events[i].boot, true, events[i].timestamp;
      w := After(events, kind, i + 1);
      hide TableHolds;
    }
  }

  /** Walk over all events, then report what is still open. */
  method Scan(b: Builder, events: seq<Entry>, kind: SpanKind, current: nat)
    requires b.Valid() && b.Contents() == Kept([], 0)
    modifies b, b.out
    ensures b.Valid() && Collected(events, kind, Spans(events, kind, current), b.Contents(), b.window, b.cap)
    ensures forall k :: b.count <= k < b.out.Length ==> b.out[k] == old(b.out[k])
  {
    var table := new OpenSpan[MAX_OPEN](_ => OpenSpan(0, 0));
    var n, boot, haveBoot, last := WalkAll(b, table, events, kind);
    hide EmitAll, Collected, After;
    ghost var w := After(events, kind, |events|);
    TableIntervals(events, kind, table[..n], w.open, last);
    if haveBoot && boot == current {
      CollectMore(events, kind, w.spans, Active(w.open), b.Contents(), b.window, b.cap);
      hide TableHolds, Active;
      ReportActive(b, table, n);
    } else {
      CollectMore(events, kind, w.spans, CloseAll(events, w.open, last), b.Contents(), b.window, b.cap);
      hide TableHolds, CloseAll;
      CloseTable(b, table, n, last);
    }
  }

  /** The intervals of all spans that overlap the window. */
  function InWindow(events: seq<Entry>, kind: SpanKind, window: Window, current: nat): seq<Interval> {
    Overlapping(window, Intervals(events, kind, Spans(events, kind, current)))
  }

  /** The query: the count of all spans in the window, and the newest of them by ascending start.
      With no array or no room it reports nothing. */
  method PairSpans(kind: SpanKind, events: seq<Entry>, window: Window, current: nat, out: array?<Interval>, cap: nat)
    returns (count: nat, total: nat)
    requires out != null ==> cap <= out.Length
    modifies if out == null then {} else {out}
    ensures out == null || cap == 0 ==> count == 0 && total == 0
    ensures out != null && cap > 0 ==>
              && count <= cap && total == |InWindow(events, kind, window, current)|
              && NewestOf(out[..count], InWindow(events, kind, window, current), cap) && Ascending(out[..count])
    ensures out != null ==> forall k :: count <= k < out.Length ==> out[k] == old(out[k])
  {
    if out == null || cap == 0 { return 0, 0; }
    hide Spans, Ascending, NewestOf, EmitAll;
    var b := new Builder(window, out, cap);
    Scan(b, events, kind, current);
    EmitAllNewest(window, cap, Intervals(events, kind, Spans(events, kind, current)));
    count, total := b.count, b.total;
    ghost var kept := out[..count];
    SortByStart(out, count);
    SameNewest(kept, out[..count], InWindow(events, kind, window, current), cap);
  }

  lemma SameNewest(kept: seq<Interval>, sorted: seq<Interval>, all: seq<Interval>, cap: nat)
    requires NewestOf(kept, all, cap) && multiset(sorted) == multiset(kept)
    ensures NewestOf(sorted, all, cap)
  {
    assert |sorted| == |multiset(sorted)| == |kept|;
    assert forall k :: k in sorted <==> k in multiset(sorted);
  }
}
