/** What an open span stands for: the fault, the defrost or the freeze protection is on, read off the
    log by replaying it. */
module FaultConditions {
  import opened Events
  import opened FaultPairing
  import FaultPairingProof

  /** After the first `n` events, is the condition on in this boot? Events without a time do not count
      and another boot ends it. A fault is on from its appearance to its clearing, a defrost from its
      start to its end, freeze protection while it is the mode last changed to. */
  predicate IsOn(events: seq<Entry>, kind: SpanKind, site: nat, boot: nat, n: nat)
    requires n <= |events|
  {
    if n == 0 then false
    else
      var e, before := events[n - 1], IsOn(events, kind, site, boot, n - 1);
      if e.timestamp == 0 then before
      else if e.boot != boot then false
      else
        match kind
        case Fault =>
          if e.payload % 0x1_0000 != site then before
          else if e.kind == ERROR_APPEARED then true else if e.kind == ERROR_CLEARED then false else before
        case Defrost => if e.kind == DEFROST_START then true else if e.kind == DEFROST_END then false else before
        case FreezeProtection => if e.kind == MODE_CHANGED then e.payload % 256 == 2 else before
  }

  /** Every mode change names, as the mode it leaves, freeze protection exactly if that is on. */
  predicate ModesChain(events: seq<Entry>, boot: nat) {
    forall i: nat :: i < |events| && IsModeChange(events[i], boot) ==>
        (events[i].payload / 256 % 256 == 2 <==> IsOn(events, FreezeProtection, 0, boot, i))
  }

  predicate IsModeChange(e: Entry, boot: nat) {
    e.timestamp != 0 && e.boot == boot && e.kind == MODE_CHANGED
  }

  ghost predicate IsOpen(events: seq<Entry>, kind: SpanKind, site: nat, boot: nat, n: nat) {
    exists o: nat :: o in OpenSet(events, kind, n) && events[o].boot == boot && Site(kind, events[o]) == site
  }

  ghost predicate LiveAt(events: seq<Entry>, kind: SpanKind, site: nat, boot: nat, n: nat) {
    exists o: nat :: Live(events, kind, o, n) && events[o].boot == boot && Site(kind, events[o]) == site
  }

  lemma OpenIsLive(events: seq<Entry>, kind: SpanKind, site: nat, boot: nat, n: nat)
    ensures IsOpen(events, kind, site, boot, n) <==> LiveAt(events, kind, site, boot, n)
  {
    if o: nat :| Live(events, kind, o, n) && events[o].boot == boot && Site(kind, events[o]) == site {
      var q := FaultPairingProof.LiveHasFirst(events, kind, o, n);
      assert q in OpenSet(events, kind, n);
    }
  }

  /** How one event changes whether a site is open. */
  lemma LiveNext(events: seq<Entry>, kind: SpanKind, site: nat, boot: nat, n: nat)
    requires n < |events|
    ensures var e := events[n];
            LiveAt(events, kind, site, boot, n + 1) ==
            if e.timestamp == 0 then LiveAt(events, kind, site, boot, n)
            else if e.boot != boot then false
            else if Opens(kind, e) && Site(kind, e) == site then true
            else if Closes(kind, e) && Site(kind, e) == site then false
            else LiveAt(events, kind, site, boot, n)
  {
    hide Live, Opens, Closes, Site;
    forall o: nat | o < n
      ensures Live(events, kind, o, n + 1) <==> Live(events, kind, o, n) && !Stops(events, kind, o, n)
    {
      FaultPairingProof.LiveStep(events, kind, o, n);
    }
    OpenerLives(events, kind, n);
    LiveBounds(events, kind);
    if o: nat :| Live(events, kind, o, n) && events[o].boot == boot && Site(kind, events[o]) == site {
      assert Stops(events, kind, o, n) || Live(events, kind, o, n + 1);
    }
    if o: nat :| Live(events, kind, o, n + 1) && events[o].boot == boot && Site(kind, events[o]) == site {
      assert o == n || (Live(events, kind, o, n) && !Stops(events, kind, o, n));
    }
  }

  lemma OpenerLives(events: seq<Entry>, kind: SpanKind, n: nat)
    ensures Live(events, kind, n, n + 1) <==> IsOpener(events, kind, n)
  {
  }

  lemma LiveBounds(events: seq<Entry>, kind: SpanKind)
    ensures forall o: nat, n: nat :: Live(events, kind, o, n) ==> o < n && IsOpener(events, kind, o)
  {
  }

  lemma {:induction false} LiveIffOn(events: seq<Entry>, kind: SpanKind, site: nat, boot: nat, n: nat)
    requires n <= |events| && (kind.FreezeProtection? ==> ModesChain(events, boot)) && (site == 0 || kind.Fault?)
    ensures LiveAt(events, kind, site, boot, n) <==> IsOn(events, kind, site, boot, n)
  {
    hide LiveAt;
    if n == 0 {
      NothingAtStart(events, kind, site, boot);
    } else {
      LiveIffOn(events, kind, site, boot, n - 1);
      LiveNext(events, kind, site, boot, n - 1);
    }
  }

  lemma NothingAtStart(events: seq<Entry>, kind: SpanKind, site: nat, boot: nat)
    ensures !LiveAt(events, kind, site, boot, 0)
  {
  }

  /** After every prefix of the log, a span is open for a site exactly if its condition is on. */
  lemma OpenIffOn(events: seq<Entry>, kind: SpanKind, site: nat, boot: nat, n: nat)
    requires n <= |events| && (kind.FreezeProtection? ==> ModesChain(events, boot)) && (site == 0 || kind.Fault?)
    ensures IsOpen(events, kind, site, boot, n) <==> IsOn(events, kind, site, boot, n)
  {
    hide *;
    OpenIsLive(events, kind, site, boot, n);
    LiveIffOn(events, kind, site, boot, n);
  }
}
