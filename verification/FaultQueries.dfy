/** What a span query returns, in terms of the pairing. */
module FaultQueries {
  import opened Events
  import opened FaultPairing
  import opened FaultTheorems
  import opened FaultBuilder
  import opened FaultHistory

  // ------------------------------------------------ each opener is reported once

  ghost predicate OnceEach(w: Walk, n: nat) {
    && (forall i, j :: 0 <= i < j < |w.open| ==> w.open[i] != w.open[j])
    && (forall i, j :: 0 <= i < j < |w.spans| ==> w.spans[i].opener != w.spans[j].opener)
    && (forall i, j :: 0 <= i < |w.spans| && 0 <= j < |w.open| ==> w.spans[i].opener != w.open[j])
    && (forall i :: 0 <= i < |w.spans| ==> w.spans[i].opener < n)
  }

  lemma EnterOnce(events: seq<Entry>, w: Walk, n: nat)
    requires n < |events| && OpenersWithin(w.open, n) && OnceEach(w, n)
    ensures OpenersWithin(EnterBoot(events, w, n).open, n) && OnceEach(EnterBoot(events, w, n), n)
  {
  }

  lemma HandleOnce(events: seq<Entry>, kind: SpanKind, w: Walk, n: nat)
    requires n < |events| && OpenersWithin(w.open, n) && OnceEach(w, n)
    ensures OnceEach(Handle(events, kind, w, n), n + 1)
  {
    hide Opens, Closes, Site;
  }

  lemma StepOnce(events: seq<Entry>, kind: SpanKind, n: nat)
    requires n < |events| && OnceEach(After(events, kind, n), n)
    ensures OnceEach(After(events, kind, n + 1), n + 1)
  {
    hide After, EnterBoot, Handle;
    AfterNext(events, kind, n);
    var w := After(events, kind, n);
    if events[n].timestamp != 0 {
      hide OnceEach, OpenersWithin;
      EnterOnce(events, w, n);
      HandleOnce(events, kind, EnterBoot(events, w, n), n);
    }
  }

  lemma {:induction false} WalkOnce(events: seq<Entry>, kind: SpanKind, n: nat)
    requires n <= |events|
    ensures OnceEach(After(events, kind, n), n)
  {
    hide After, OnceEach, OpenersWithin;
    if n == 0 {
      NoneAtStart(events, kind);
    } else {
      WalkOnce(events, kind, n - 1);
      StepOnce(events, kind, n - 1);
    }
  }

  lemma NoneAtStart(events: seq<Entry>, kind: SpanKind)
    ensures OnceEach(After(events, kind, 0), 0)
  {
  }

  /** No opening event is reported twice, whatever the log holds. */
  lemma ReportedOnce(events: seq<Entry>, kind: SpanKind, current: nat, i: nat, j: nat)
    requires i < j < |Spans(events, kind, current)|
    ensures Spans(events, kind, current)[i].opener != Spans(events, kind, current)[j].opener
  {
    WalkOnce(events, kind, |events|);
    hide After;
  }

  // ------------------------------------------------ the query as a whole

  /** While at most 16 sites are open at once, the intervals a query counts are exactly those of the
      declared spans that overlap the window. */
  lemma CountedAreDeclared(events: seq<Entry>, kind: SpanKind, window: Window, current: nat, iv: Interval)
    requires FitsOpenTable(events, kind, |events|)
    ensures iv in FaultHistory.InWindow(events, kind, window, current) <==>
              Overlaps(window, iv) &&
              exists sp: Span :: Declared(events, kind, current, sp) && sp.end == iv.end &&
                  iv.start == events[sp.opener].timestamp && iv.site == Site(kind, events[sp.opener])
  {
    PairingExact(events, kind, current);
    assert forall sp: Span :: Declared(events, kind, current, sp) ==> sp.opener < |events|;
    hide FitsOpenTable, Declared, Spans, Overlapping, Overlaps, Site;
    var spans := Spans(events, kind, current);
    var all := Intervals(events, kind, spans);
    if iv in all {
      var i :| 0 <= i < |all| && all[i] == iv;
      assert spans[i] in spans;
    }
    if sp: Span :| Declared(events, kind, current, sp) && iv == IntervalOf(events, kind, sp) {
      assert sp in spans;
      var i :| 0 <= i < |spans| && spans[i] == sp;
      assert all[i] == iv;
    }
  }
}
