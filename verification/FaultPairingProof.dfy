/** The one-pass walk computes the pairing, exactly while its table of open spans is large enough. */
module FaultPairingProof {
  import opened Events
  import opened FaultPairing

  ghost predicate BootOk(events: seq<Entry>, n: nat, w: Walk) {
    if w.haveBoot then
      exists k: nat :: IsLast(events, n, k) && w.boot == events[k].boot && w.last == events[k].timestamp
    else forall k: nat :: k < n ==> !Timed(events, k)
  }

  ghost predicate SitesDistinct(events: seq<Entry>, kind: SpanKind, open: seq<nat>)
    requires OpenersWithin(open, |events|)
  {
    forall i, j :: 0 <= i < j < |open| ==> Site(kind, events[open[i]]) != Site(kind, events[open[j]])
  }

  /** A finished span ends where the pairing says, before event `n`. */
  ghost predicate SpanOk(events: seq<Entry>, kind: SpanKind, n: nat, sp: Span) {
    && FirstOpen(events, kind, sp.opener)
    && exists c: nat :: c < n && EndsAt(events, kind, sp.opener, c, sp.end)
  }

  ghost predicate HasSpan(spans: seq<Span>, o: nat) {
    exists sp :: sp in spans && sp.opener == o
  }

  /** The table holds `open`; everything else first opened before `n` has its span. */
  ghost predicate TableOk(events: seq<Entry>, kind: SpanKind, n: nat, m: nat, open: set<nat>, w: Walk)
    requires n <= |events|
  {
    && OpenersWithin(w.open, n) && SitesDistinct(events, kind, w.open)
    && (forall o :: o in w.open <==> o in open)
    && (forall sp :: sp in w.spans ==> SpanOk(events, kind, m, sp))
    && (forall o: nat :: o < n && FirstOpen(events, kind, o) && o !in open ==> HasSpan(w.spans, o))
  }

  ghost predicate WalkOk(events: seq<Entry>, kind: SpanKind, n: nat, w: Walk)
    requires n <= |events|
  {
    BootOk(events, n, w) && TableOk(events, kind, n, n, OpenSet(events, kind, n), w)
  }

  // ------------------------------------------------ facts about the pairing

  lemma {:induction false} LiveHasFirst(events: seq<Entry>, kind: SpanKind, p: nat, n: nat) returns (q: nat)
    requires Live(events, kind, p, n)
    ensures q <= p && FirstOpen(events, kind, q) && Live(events, kind, q, n)
    ensures events[q].boot == events[p].boot && Site(kind, events[q]) == Site(kind, events[p])
    decreases p
  {
    if FirstOpen(events, kind, p) { q := p; return; }
    var r: nat :| Live(events, kind, r, p) && events[r].boot == events[p].boot &&
        Site(kind, events[r]) == Site(kind, events[p]);
    forall k | r < k < n
      ensures !Stops(events, kind, r, k)
    {
      if k > p { assert !Stops(events, kind, p, k); }
    }
    q := LiveHasFirst(events, kind, r, n);
  }

  lemma LiveBoot(events: seq<Entry>, kind: SpanKind, o: nat, n: nat, k: nat)
    requires Live(events, kind, o, n) && IsLast(events, n, k)
    ensures events[o].boot == events[k].boot && o <= k
  {
    if o < k { assert !Stops(events, kind, o, k); }
  }

  lemma LastUnique(events: seq<Entry>, n: nat, j: nat, k: nat)
    requires IsLast(events, n, j) && IsLast(events, n, k)
    ensures j == k
  {
  }

  lemma LiveStep(events: seq<Entry>, kind: SpanKind, o: nat, n: nat)
    requires o < n < |events|
    ensures Live(events, kind, o, n + 1) <==> Live(events, kind, o, n) && !Stops(events, kind, o, n)
  {
  }

  /** How the set of open spans changes at one event. */
  lemma OpenSetStep(events: seq<Entry>, kind: SpanKind, n: nat, o: nat)
    requires n < |events|
    ensures o in OpenSet(events, kind, n + 1) <==>
              (o in OpenSet(events, kind, n) && !Stops(events, kind, o, n)) || (o == n && FirstOpen(events, kind, n))
  {
    hide FirstOpen;
    if o < n { LiveStep(events, kind, o, n); }
    if o == n { FirstIsLive(events, kind, n); }
  }

  lemma FirstIsLive(events: seq<Entry>, kind: SpanKind, n: nat)
    ensures FirstOpen(events, kind, n) ==> Live(events, kind, n, n + 1)
  {
  }

  lemma UntimedKeeps(events: seq<Entry>, kind: SpanKind, n: nat, w: Walk)
    requires n < |events| && WalkOk(events, kind, n, w) && events[n].timestamp == 0
    ensures WalkOk(events, kind, n + 1, w)
  {
    assert BootOk(events, n + 1, w) by {
      if w.haveBoot {
        var k: nat :| IsLast(events, n, k) && w.boot == events[k].boot && w.last == events[k].timestamp;
        assert IsLast(events, n + 1, k);
      }
    }
    assert !IsOpener(events, kind, n) && !FirstOpen(events, kind, n);
    hide FirstOpen, BootOk, EndsAt, Live;
    forall o
      ensures o in OpenSet(events, kind, n + 1) <==> o in OpenSet(events, kind, n)
    {
      if o >= 0 { OpenSetStep(events, kind, n, o); }
    }
    assert OpenSet(events, kind, n + 1) == OpenSet(events, kind, n);
    SpansLater(events, kind, n, w.spans);
    hide OpenSet, SpanOk;
  }

  lemma SpansLater(events: seq<Entry>, kind: SpanKind, n: nat, spans: seq<Span>)
    requires forall sp :: sp in spans ==> SpanOk(events, kind, n, sp)
    ensures forall sp :: sp in spans ==> SpanOk(events, kind, n + 1, sp)
  {
    hide FirstOpen, EndsAt;
    forall sp | sp in spans
      ensures SpanOk(events, kind, n + 1, sp)
    {
      var c: nat :| c < n && EndsAt(events, kind, sp.opener, c, sp.end);
      assert c < n + 1;
    }
  }

  /** The open spans of the boot event `n` belongs to. */
  ghost function Carried(events: seq<Entry>, kind: SpanKind, n: nat): set<nat>
    requires n < |events|
  {
    set o | o in OpenSet(events, kind, n) && o < |events| && events[o].boot == events[n].boot
  }

  lemma OpenBoot(events: seq<Entry>, kind: SpanKind, n: nat, w: Walk, o: nat)
    requires n < |events| && BootOk(events, n, w) && o in OpenSet(events, kind, n)
    ensures w.haveBoot && o < n && events[o].boot == w.boot && Live(events, kind, o, n) && FirstOpen(events, kind, o)
  {
    hide FirstOpen;
    assert Timed(events, o);
    if w.haveBoot {
      var k: nat :| IsLast(events, n, k) && w.boot == events[k].boot && w.last == events[k].timestamp;
      LiveBoot(events, kind, o, n, k);
    }
  }

  lemma EnterKeeps(events: seq<Entry>, kind: SpanKind, n: nat, w: Walk)
    requires n < |events| && WalkOk(events, kind, n, w) && events[n].timestamp != 0
    ensures BootOk(events, n + 1, EnterBoot(events, w, n))
    ensures TableOk(events, kind, n, n + 1, Carried(events, kind, n), EnterBoot(events, w, n))
  {
    var v := EnterBoot(events, w, n);
    assert IsLast(events, n + 1, n);
    forall o | o in OpenSet(events, kind, n)
      ensures w.haveBoot && o < n && events[o].boot == w.boot && Live(events, kind, o, n) && FirstOpen(events, kind, o)
    {
      OpenBoot(events, kind, n, w, o);
    }
    SpansLater(events, kind, n, w.spans);
    hide FirstOpen, Live;
    if w.haveBoot && events[n].boot != w.boot {
      assert Carried(events, kind, n) == {};
      ClosedSpans(events, kind, n, w);
    } else {
      assert Carried(events, kind, n) == OpenSet(events, kind, n);
      hide OpenSet, SpanOk, Carried;
    }
  }

  /** The spans left open by an earlier boot end at that boot's last time. */
  lemma ClosedSpans(events: seq<Entry>, kind: SpanKind, n: nat, w: Walk)
    requires n < |events| && WalkOk(events, kind, n, w) && events[n].timestamp != 0 && w.haveBoot &&
        events[n].boot != w.boot
    ensures forall sp :: sp in CloseAll(events, w.open, w.last) ==> SpanOk(events, kind, n + 1, sp)
    ensures forall o :: o in OpenSet(events, kind, n) ==> HasSpan(CloseAll(events, w.open, w.last), o)
  {
    var closed := CloseAll(events, w.open, w.last);
    forall sp | sp in closed
      ensures SpanOk(events, kind, n + 1, sp)
    {
      var o := sp.opener;
      assert o in w.open;
      OpenBoot(events, kind, n, w, o);
      hide FirstOpen, Live;
      assert EndsAt(events, kind, o, n, sp.end);
    }
    forall o | o in OpenSet(events, kind, n)
      ensures HasSpan(closed, o)
    {
      assert o in w.open;
      var i :| 0 <= i < |w.open| && w.open[i] == o;
      assert closed[i] in closed;
    }
  }

  /** An opening event is first for its site exactly when the table has no entry for the site. */
  lemma FirstIffNotFound(events: seq<Entry>, kind: SpanKind, n: nat, w: Walk)
    requires n < |events| && IsOpener(events, kind, n)
    requires TableOk(events, kind, n, n + 1, Carried(events, kind, n), w)
    ensures FirstOpen(events, kind, n) <==> Find(events, kind, w.open, Site(kind, events[n]), 0) == |w.open|
  {
    var site := Site(kind, events[n]);
    var j := Find(events, kind, w.open, site, 0);
    if j < |w.open| {
      assert w.open[j] in Carried(events, kind, n);
    } else {
      forall p: nat | Live(events, kind, p, n) && events[p].boot == events[n].boot
        ensures Site(kind, events[p]) != site
      {
        var q := LiveHasFirst(events, kind, p, n);
        assert q in Carried(events, kind, n);
        assert q in w.open;
      }
    }
  }

  /** Which open spans event `n` keeps. */
  lemma OpenAfter(events: seq<Entry>, kind: SpanKind, n: nat, o: nat)
    requires n < |events| && Timed(events, n)
    ensures o in OpenSet(events, kind, n + 1) <==>
              || (o in Carried(events, kind, n) &&
                  !(Closes(kind, events[n]) && Site(kind, events[n]) == Site(kind, events[o])))
              || (o == n && FirstOpen(events, kind, n))
  {
    OpenSetStep(events, kind, n, o);
  }

  lemma {:induction false} DistinctCount(open: seq<nat>, elements: set<nat>)
    requires forall i, j :: 0 <= i < j < |open| ==> open[i] != open[j]
    requires forall o: nat :: o in open <==> o in elements
    ensures |elements| == |open|
  {
    if open == [] {
      assert elements == {};
    } else {
      var last := open[|open| - 1];
      var rest := open[..|open| - 1];
      assert forall o: nat :: o in open <==> o in rest || o == last;
      DistinctCount(rest, elements - {last});
    }
  }

  /** While the pairing needs no more than the table's entries, there is room for a first opener. */
  lemma RoomForFirst(events: seq<Entry>, kind: SpanKind, n: nat, w: Walk)
    requires n < |events| && FirstOpen(events, kind, n)
    requires TableOk(events, kind, n, n + 1, Carried(events, kind, n), w)
    ensures |OpenSet(events, kind, n + 1)| == |w.open| + 1
  {
    forall o: nat
      ensures o in OpenSet(events, kind, n + 1) <==> o in w.open || o == n
    {
      OpenAfter(events, kind, n, o);
    }
    hide OpenSet, FirstOpen, Carried, SpanOk;
    assert forall i, j :: 0 <= i < j < |w.open| ==> w.open[i] != w.open[j];
    hide Site, HasSpan;
    DistinctCount(w.open + [n], OpenSet(events, kind, n + 1));
  }

  lemma OpenerKeeps(events: seq<Entry>, kind: SpanKind, n: nat, w: Walk)
    requires n < |events| && IsOpener(events, kind, n) && |OpenSet(events, kind, n + 1)| <= MAX_OPEN
    requires TableOk(events, kind, n, n + 1, Carried(events, kind, n), w)
    ensures TableOk(events, kind, n + 1, n + 1, OpenSet(events, kind, n + 1), Handle(events, kind, w, n))
  {
    FirstIffNotFound(events, kind, n, w);
    if FirstOpen(events, kind, n) { RoomForFirst(events, kind, n, w); }
    forall o: nat
      ensures o in OpenSet(events, kind, n + 1) <==> o in w.open || (o == n && FirstOpen(events, kind, n))
    {
      OpenAfter(events, kind, n, o);
    }
    hide OpenSet, FirstOpen, SpanOk;
    forall o
      ensures o in Handle(events, kind, w, n).open <==> o in OpenSet(events, kind, n + 1)
    {
      if o in OpenSet(events, kind, n + 1) { assert o >= 0; }
    }
  }

  lemma RemovedAll(events: seq<Entry>, kind: SpanKind, open: seq<nat>, j: nat)
    requires OpenersWithin(open, |events|) && SitesDistinct(events, kind, open) && j < |open|
    ensures OpenersWithin(RemoveAt(open, j), |events|) && SitesDistinct(events, kind, RemoveAt(open, j))
    ensures forall o :: o in RemoveAt(open, j) <==> o in open && Site(kind, events[o]) != Site(kind, events[open[j]])
  {
    var r, last := RemoveAt(open, j), |open| - 1;
    forall o | o in open && Site(kind, events[o]) != Site(kind, events[open[j]])
      ensures o in r
    {
      var i :| 0 <= i < |open| && open[i] == o;
      assert o == r[if i == last then j else i];
    }
  }

  lemma OpenAfterCloser(events: seq<Entry>, kind: SpanKind, n: nat, w: Walk)
    requires n < |events| && Timed(events, n) && !Opens(kind, events[n])
    requires OpenersWithin(w.open, n) && forall o :: o in w.open <==> o in Carried(events, kind, n)
    ensures !FirstOpen(events, kind, n)
    ensures forall o: nat :: o in OpenSet(events, kind, n + 1) <==>
              o in w.open && !(Closes(kind, events[n]) && Site(kind, events[n]) == Site(kind, events[o]))
  {
    forall o: nat
      ensures o in OpenSet(events, kind, n + 1) <==>
                o in w.open && !(Closes(kind, events[n]) && Site(kind, events[n]) == Site(kind, events[o]))
    {
      OpenAfter(events, kind, n, o);
    }
  }

  lemma ClosedKeeps(events: seq<Entry>, kind: SpanKind, n: nat, w: Walk, j: nat)
    requires n < |events| && Timed(events, n) && !Opens(kind, events[n]) && Closes(kind, events[n])
    requires TableOk(events, kind, n, n + 1, Carried(events, kind, n), w)
    requires j < |w.open| && Site(kind, events[w.open[j]]) == Site(kind, events[n])
    ensures TableOk(events, kind, n + 1, n + 1, OpenSet(events, kind, n + 1),
                    w.(spans := w.spans + [Span(w.open[j], events[n].timestamp)], open := RemoveAt(w.open, j)))
  {
    hide OpenSet, FirstOpen, SpanOk, Carried;
    OpenAfterCloser(events, kind, n, w);
    EndedHere(events, kind, n, w.open[j]);
    RemovedAll(events, kind, w.open, j);
    AddedSpan(w.spans, Span(w.open[j], events[n].timestamp));
    hide RemoveAt, Opens, Closes, Site, HasSpan;
  }

  lemma IgnoredKeeps(events: seq<Entry>, kind: SpanKind, n: nat, w: Walk)
    requires n < |events| && Timed(events, n) && !Opens(kind, events[n])
    requires TableOk(events, kind, n, n + 1, Carried(events, kind, n), w)
    requires Closes(kind, events[n]) ==> forall i :: 0 <= i < |w.open| ==>
        Site(kind, events[w.open[i]]) != Site(kind, events[n])
    ensures TableOk(events, kind, n + 1, n + 1, OpenSet(events, kind, n + 1), w)
  {
    hide OpenSet, FirstOpen, SpanOk, Carried;
    OpenAfterCloser(events, kind, n, w);
    hide Opens, HasSpan, Closes, Site;
  }

  lemma CloserKeeps(events: seq<Entry>, kind: SpanKind, n: nat, w: Walk)
    requires n < |events| && Timed(events, n) && !Opens(kind, events[n])
    requires TableOk(events, kind, n, n + 1, Carried(events, kind, n), w)
    ensures TableOk(events, kind, n + 1, n + 1, OpenSet(events, kind, n + 1), Handle(events, kind, w, n))
  {
    TableWithin(events, kind, n, n + 1, Carried(events, kind, n), w);
    hide OpenSet, Carried, TableOk, Opens, Closes, Site, RemoveAt;
    var j := Find(events, kind, w.open, Site(kind, events[n]), 0);
    if Closes(kind, events[n]) && j < |w.open| {
      ClosedKeeps(events, kind, n, w, j);
    } else {
      IgnoredKeeps(events, kind, n, w);
    }
  }

  lemma AddedSpan(spans: seq<Span>, sp: Span)
    ensures HasSpan(spans + [sp], sp.opener)
    ensures forall o :: HasSpan(spans, o) ==> HasSpan(spans + [sp], o)
  {
    assert (spans + [sp])[|spans|] == sp;
    forall o | HasSpan(spans, o)
      ensures HasSpan(spans + [sp], o)
    {
      var t :| t in spans && t.opener == o;
      assert t in spans + [sp];
    }
  }

  lemma EndedHere(events: seq<Entry>, kind: SpanKind, n: nat, o: nat)
    requires n < |events| && Timed(events, n) && o in Carried(events, kind, n) && Closes(kind, events[n]) &&
        Site(kind, events[n]) == Site(kind, events[o])
    ensures SpanOk(events, kind, n + 1, Span(o, events[n].timestamp))
  {
    assert EndsAt(events, kind, o, n, events[n].timestamp);
  }

  lemma HandleKeepsBoot(events: seq<Entry>, kind: SpanKind, n: nat, w: Walk)
    requires n < |events| && OpenersWithin(w.open, n) && BootOk(events, n + 1, w)
    ensures BootOk(events, n + 1, Handle(events, kind, w, n))
  {
  }

  /** While the table is large enough, the walk follows the pairing. */
  lemma {:induction false} WalkFollows(events: seq<Entry>, kind: SpanKind, n: nat)
    requires n <= |events| && FitsOpenTable(events, kind, n)
    ensures WalkOk(events, kind, n, After(events, kind, n))
  {
    hide OpenSet, FirstOpen, BootOk, TableOk, Handle, EnterBoot;
    if n == 0 {
      Begin(events, kind);
    } else {
      WalkFollows(events, kind, n - 1);
      var w := After(events, kind, n - 1);
      if events[n - 1].timestamp == 0 {
        UntimedKeeps(events, kind, n - 1, w);
      } else {
        EnterKeeps(events, kind, n - 1, w);
        var v := EnterBoot(events, w, n - 1);
        TableWithin(events, kind, n - 1, n, Carried(events, kind, n - 1), v);
        HandleKeepsBoot(events, kind, n - 1, v);
        if Opens(kind, events[n - 1]) {
          OpenerKeeps(events, kind, n - 1, v);
        } else {
          CloserKeeps(events, kind, n - 1, v);
        }
      }
    }
  }

  lemma TableWithin(events: seq<Entry>, kind: SpanKind, n: nat, m: nat, open: set<nat>, w: Walk)
    requires n <= |events| && TableOk(events, kind, n, m, open, w)
    ensures OpenersWithin(w.open, n)
  {
  }

  lemma Begin(events: seq<Entry>, kind: SpanKind)
    ensures WalkOk(events, kind, 0, After(events, kind, 0))
  {
  }
}
