/** The spans reported from the log are the pairing of its open and close events. */
module FaultTheorems {
  import opened Basics
  import opened Events
  import opened FaultPairing
  import opened FaultPairingProof

  /** The spans the pairing asks for. */
  ghost predicate Declared(events: seq<Entry>, kind: SpanKind, current: nat, sp: Span) {
    FirstOpen(events, kind, sp.opener) && EndsWith(events, kind, sp.opener, current, sp.end)
  }

  // ------------------------------------------------ every first opener has one end

  lemma {:induction false} FirstStop(events: seq<Entry>, kind: SpanKind, o: nat, n: nat) returns (c: nat)
    requires IsOpener(events, kind, o) && o < n <= |events| && !Live(events, kind, o, n)
    ensures c < n && Live(events, kind, o, c) && Stops(events, kind, o, c)
    decreases n
  {
    if Live(events, kind, o, n - 1) {
      c := n - 1;
    } else {
      c := FirstStop(events, kind, o, n - 1);
    }
  }

  lemma {:induction false} LastExists(events: seq<Entry>, o: nat, n: nat) returns (k: nat)
    requires Timed(events, o) && o < n <= |events|
    ensures IsLast(events, n, k) && o <= k
    decreases n
  {
    if Timed(events, n - 1) { k := n - 1; } else { k := LastExists(events, o, n - 1); }
  }

  lemma EndExists(events: seq<Entry>, kind: SpanKind, o: nat, current: nat) returns (end: nat)
    requires IsOpener(events, kind, o)
    ensures EndsWith(events, kind, o, current, end)
  {
    if Live(events, kind, o, |events|) {
      var k := LastExists(events, o, |events|);
      end := if events[o].boot == current then 0 else Max(events[o].timestamp, events[k].timestamp);
    } else {
      var c := FirstStop(events, kind, o, |events|);
      var k := LastExists(events, o, c);
      end := if events[c].boot == events[o].boot then events[c].timestamp
          else Max(events[o].timestamp, events[k].timestamp);
      assert EndsAt(events, kind, o, c, end);
    }
  }

  lemma StopUnique(events: seq<Entry>, kind: SpanKind, o: nat, c: nat, d: nat, a: nat, b: nat)
    requires EndsAt(events, kind, o, c, a) && EndsAt(events, kind, o, d, b)
    ensures c == d && a == b
  {
    assert c == d;
    if events[c].boot != events[o].boot {
      var j: nat :| IsLast(events, c, j) && a == Max(events[o].timestamp, events[j].timestamp);
      var k: nat :| IsLast(events, c, k) && b == Max(events[o].timestamp, events[k].timestamp);
      LastUnique(events, c, j, k);
    }
  }

  lemma EndUnique(events: seq<Entry>, kind: SpanKind, o: nat, current: nat, a: nat, b: nat)
    requires EndsWith(events, kind, o, current, a) && EndsWith(events, kind, o, current, b)
    ensures a == b
  {
    hide EndsAt;
    if Live(events, kind, o, |events|) {
      if events[o].boot != current {
        var j: nat :| IsLast(events, |events|, j) && a == Max(events[o].timestamp, events[j].timestamp);
        var k: nat :| IsLast(events, |events|, k) && b == Max(events[o].timestamp, events[k].timestamp);
        LastUnique(events, |events|, j, k);
      }
    } else {
      var c: nat :| EndsAt(events, kind, o, c, a);
      var d: nat :| EndsAt(events, kind, o, d, b);
      StopUnique(events, kind, o, c, d, a, b);
    }
  }

  // ------------------------------------------------ the walk reports what is declared

  /** What the walk adds at the end of the log. */
  function Tail(events: seq<Entry>, kind: SpanKind, current: nat): seq<Span> {
    var w := After(events, kind, |events|);
    if w.haveBoot && w.boot == current then Active(w.open) else CloseAll(events, w.open, w.last)
  }

  lemma TailDeclared(events: seq<Entry>, kind: SpanKind, current: nat, i: nat)
    requires WalkOk(events, kind, |events|, After(events, kind, |events|)) && i < |After(events, kind, |events|).open|
    ensures |Tail(events, kind, current)| == |After(events, kind, |events|).open|
    ensures Tail(events, kind, current)[i].opener == After(events, kind, |events|).open[i]
    ensures Declared(events, kind, current, Tail(events, kind, current)[i])
  {
    hide After;
    var w := After(events, kind, |events|);
    var o := w.open[i];
    assert o in w.open && o in OpenSet(events, kind, |events|);
    hide FirstOpen;
    assert w.haveBoot by { assert Timed(events, o); }
    var k: nat :| IsLast(events, |events|, k) && w.boot == events[k].boot && w.last == events[k].timestamp;
    LiveBoot(events, kind, o, |events|, k);
  }

  lemma FinishedDeclared(events: seq<Entry>, kind: SpanKind, current: nat, sp: Span)
    requires SpanOk(events, kind, |events|, sp)
    ensures Declared(events, kind, current, sp) && !Live(events, kind, sp.opener, |events|)
  {
    hide FirstOpen;
    var c: nat :| c < |events| && EndsAt(events, kind, sp.opener, c, sp.end);
    assert Stops(events, kind, sp.opener, c);
  }

  lemma ReportedIsDeclared(events: seq<Entry>, kind: SpanKind, current: nat, sp: Span)
    requires FitsOpenTable(events, kind, |events|) && sp in Spans(events, kind, current)
    ensures Declared(events, kind, current, sp)
  {
    WalkFollows(events, kind, |events|);
    hide FirstOpen, EndsWith, After, FitsOpenTable, OpenSet, BootOk;
    var w := After(events, kind, |events|);
    if sp in w.spans {
      hide SpanOk;
      FinishedDeclared(events, kind, current, sp);
    } else {
      assert sp in Tail(events, kind, current);
      var i :| 0 <= i < |Tail(events, kind, current)| && Tail(events, kind, current)[i] == sp;
      TailDeclared(events, kind, current, i);
    }
  }

  lemma DeclaredIsReported(events: seq<Entry>, kind: SpanKind, current: nat, sp: Span)
    requires FitsOpenTable(events, kind, |events|) && Declared(events, kind, current, sp)
    ensures sp in Spans(events, kind, current)
  {
    WalkFollows(events, kind, |events|);
    var w, o := After(events, kind, |events|), sp.opener;
    assert o < |events|;
    hide FirstOpen, EndsWith, After, FitsOpenTable, BootOk, SpanOk;
    var found: Span;
    if Live(events, kind, o, |events|) {
      assert o in w.open;
      var i :| 0 <= i < |w.open| && w.open[i] == o;
      TailDeclared(events, kind, current, i);
      found := Tail(events, kind, current)[i];
      assert found in Tail(events, kind, current);
    } else {
      assert HasSpan(w.spans, o);
      found :| found in w.spans && found.opener == o;
      FinishedDeclared(events, kind, current, found);
    }
    EndUnique(events, kind, o, current, sp.end, found.end);
    assert found == sp;
  }

  // ------------------------------------------------ when the table overflows

  /** An opener that was not entered at its own event is never reported. */
  ghost predicate Missed(w: Walk, o: nat) {
    o !in w.open && !HasSpan(w.spans, o)
  }

  lemma EnterMisses(events: seq<Entry>, n: nat, w: Walk, o: nat)
    requires n < |events| && OpenersWithin(w.open, n) && Missed(w, o)
    ensures Missed(EnterBoot(events, w, n), o)
  {
    var v := EnterBoot(events, w, n);
    forall sp | sp in v.spans
      ensures sp.opener != o
    {
      assert sp in w.spans ==> HasSpan(w.spans, sp.opener);
      assert sp in w.spans || sp in CloseAll(events, w.open, w.last);
    }
  }

  lemma HandleMisses(events: seq<Entry>, kind: SpanKind, n: nat, w: Walk, o: nat)
    requires n < |events| && OpenersWithin(w.open, n) && Missed(w, o) && o != n
    ensures Missed(Handle(events, kind, w, n), o)
  {
    var v := Handle(events, kind, w, n);
    forall sp | sp in v.spans
      ensures sp.opener != o
    {
      assert sp in w.spans ==> HasSpan(w.spans, sp.opener);
    }
  }

  lemma {:induction false} StaysMissed(events: seq<Entry>, kind: SpanKind, o: nat, m: nat, n: nat)
    requires o < m <= n <= |events| && Missed(After(events, kind, m), o)
    ensures Missed(After(events, kind, n), o)
    decreases n
  {
    hide Missed, EnterBoot, Handle;
    if m < n {
      StaysMissed(events, kind, o, m, n - 1);
      var w := After(events, kind, n - 1);
      if events[n - 1].timestamp != 0 {
        EnterMisses(events, n - 1, w, o);
        EnterWithin(events, w, n - 1);
        HandleMisses(events, kind, n - 1, EnterBoot(events, w, n - 1), o);
      }
    }
  }

  lemma EnterWithin(events: seq<Entry>, w: Walk, n: nat)
    requires n < |events| && OpenersWithin(w.open, n)
    ensures OpenersWithin(EnterBoot(events, w, n).open, n)
  {
  }

  lemma MissedNotReported(events: seq<Entry>, kind: SpanKind, current: nat, sp: Span)
    requires Missed(After(events, kind, |events|), sp.opener)
    ensures sp !in Spans(events, kind, current)
  {
    hide After;
    var w := After(events, kind, |events|);
    assert sp in w.spans ==> HasSpan(w.spans, sp.opener);
    assert sp in Spans(events, kind, current) ==> sp in w.spans || sp in Tail(events, kind, current);
  }

  /** The first event at which the pairing needs a seventeenth entry is an opener that gets none. */
  lemma OverflowMisses(events: seq<Entry>, kind: SpanKind, n: nat)
    requires n < |events| && FitsOpenTable(events, kind, n) && |OpenSet(events, kind, n + 1)| > MAX_OPEN
    ensures FirstOpen(events, kind, n) && Missed(After(events, kind, n + 1), n)
  {
    WalkFollows(events, kind, n);
    var w := After(events, kind, n);
    FirstOpensTheOverflow(events, kind, n);
    EnterKeeps(events, kind, n, w);
    var v := EnterBoot(events, w, n);
    RoomForFirst(events, kind, n, v);
    hide OpenSet, Carried, BootOk, EnterBoot, FitsOpenTable, After;
    assert Handle(events, kind, v, n) == v;
    EarlierOpeners(events, kind, n, v);
    assert After(events, kind, n + 1) == v by { AfterStep(events, kind, n); }
  }

  lemma AfterStep(events: seq<Entry>, kind: SpanKind, n: nat)
    requires n < |events| && events[n].timestamp != 0
    requires OpenersWithin(EnterBoot(events, After(events, kind, n), n).open, n)
    ensures After(events, kind, n + 1) == Handle(events, kind, EnterBoot(events, After(events, kind, n), n), n)
  {
    hide EnterBoot, Handle;
  }

  lemma EarlierOpeners(events: seq<Entry>, kind: SpanKind, n: nat, w: Walk)
    requires n < |events| && TableOk(events, kind, n, n + 1, Carried(events, kind, n), w)
    ensures Missed(w, n)
  {
    hide FirstOpen, Carried;
    forall sp | sp in w.spans
      ensures sp.opener != n
    {
      var c: nat :| c < n + 1 && EndsAt(events, kind, sp.opener, c, sp.end);
      assert Live(events, kind, sp.opener, c);
    }
  }

  /** Only a first opener adds to the open spans. */
  lemma FirstOpensTheOverflow(events: seq<Entry>, kind: SpanKind, n: nat)
    requires n < |events| && |OpenSet(events, kind, n)| <= MAX_OPEN < |OpenSet(events, kind, n + 1)|
    ensures FirstOpen(events, kind, n)
  {
    if !FirstOpen(events, kind, n) {
      forall o | o in OpenSet(events, kind, n + 1)
        ensures o in OpenSet(events, kind, n)
      {
        OpenSetStep(events, kind, n, o);
      }
      Smaller(OpenSet(events, kind, n + 1), OpenSet(events, kind, n));
    }
  }

  lemma {:induction false} Smaller(a: set<nat>, b: set<nat>)
    requires a <= b
    ensures |a| <= |b|
  {
    assert b == a + (b - a);
  }

  lemma {:induction false} FirstOverflow(events: seq<Entry>, kind: SpanKind, n: nat) returns (m: nat)
    requires n <= |events| && !FitsOpenTable(events, kind, n)
    ensures m < n && FitsOpenTable(events, kind, m) && |OpenSet(events, kind, m + 1)| > MAX_OPEN
  {
    assert OpenSet(events, kind, 0) == {};
    hide OpenSet;
    if FitsOpenTable(events, kind, n - 1) { m := n - 1; } else { m := FirstOverflow(events, kind, n - 1); }
  }

  /** The walk reports exactly the declared spans if and only if no more than 16 sites are ever
      open at once. */
  lemma PairingExact(events: seq<Entry>, kind: SpanKind, current: nat)
    ensures (forall sp: Span :: sp in Spans(events, kind, current) <==> Declared(events, kind, current, sp)) <==>
        FitsOpenTable(events, kind, |events|)
  {
    hide Spans, FitsOpenTable, EndsWith, FirstOpen, After, Missed, OpenSet;
    if FitsOpenTable(events, kind, |events|) {
      forall sp: Span
        ensures sp in Spans(events, kind, current) <==> Declared(events, kind, current, sp)
      {
        if sp in Spans(events, kind, current) { ReportedIsDeclared(events, kind, current, sp); }
        if Declared(events, kind, current, sp) { DeclaredIsReported(events, kind, current, sp); }
      }
    } else {
      var o := FirstOverflow(events, kind, |events|);
      OverflowMisses(events, kind, o);
      FirstIsOpener(events, kind, o);
      var end := EndExists(events, kind, o, current);
      StaysMissed(events, kind, o, o + 1, |events|);
      MissedNotReported(events, kind, current, Span(o, end));
      assert Declared(events, kind, current, Span(o, end));
    }
  }

  lemma FirstIsOpener(events: seq<Entry>, kind: SpanKind, o: nat)
    requires FirstOpen(events, kind, o)
    ensures IsOpener(events, kind, o)
  {
  }

  // ------------------------------------------------ spans of one site

  ghost predicate TimesAscend(events: seq<Entry>) {
    forall i: nat, j: nat :: i < j && Timed(events, i) && Timed(events, j) ==>
        events[i].timestamp <= events[j].timestamp
  }

  /** With ascending times, a declared span of a site has ended by the time the next one starts. */
  lemma SpansDoNotOverlap(events: seq<Entry>, kind: SpanKind, current: nat, a: Span, b: Span)
    requires TimesAscend(events) && a.opener < b.opener
    requires Declared(events, kind, current, a) && Declared(events, kind, current, b)
    requires Site(kind, events[a.opener]) == Site(kind, events[b.opener])
    ensures 0 < events[a.opener].timestamp <= a.end <= events[b.opener].timestamp
  {
    var p, o := a.opener, b.opener;
    if Live(events, kind, p, o) {
      assert events[p].boot != events[o].boot;
      assert Stops(events, kind, p, o);
      assert Live(events, kind, p, o) && !Live(events, kind, p, |events|);
    } else {
      var d := FirstStop(events, kind, p, o);
      assert !Live(events, kind, p, |events|);
    }
    var c: nat :| EndsAt(events, kind, p, c, a.end);
    assert c <= o;
    if events[c].boot != events[p].boot {
      var k: nat :| IsLast(events, c, k) && a.end == Max(events[p].timestamp, events[k].timestamp);
    }
  }
}
