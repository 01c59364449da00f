/** Seventeen faults at once: the last one is never reported. */
module FaultExamples {
  import opened Events
  import opened FaultPairing
  import opened FaultPairingProof
  import opened FaultTheorems

  /** Faults of sites 0, 1, 2 and so on appear one second after another in one boot. */
  function Burst(n: nat): seq<Entry> {
    seq(n, i requires 0 <= i < n => Entry(i + 1, 1, 0, ERROR_APPEARED, i))
  }

  lemma BurstOpens(n: nat, o: nat, m: nat)
    requires n <= 0x1_0000 && o < m <= n
    ensures FirstOpen(Burst(n), Fault, o) && Live(Burst(n), Fault, o, m)
  {
  }

  lemma BurstOpenSet(n: nat, m: nat)
    requires m <= n <= 0x1_0000
    ensures |OpenSet(Burst(n), Fault, m)| == m
  {
    var open := seq(m, i => i);
    forall o: nat ensures o in open <==> o in OpenSet(Burst(n), Fault, m) {
      if o < m {
        BurstOpens(n, o, m);
        assert open[o] == o;
      }
    }
    hide OpenSet;
    DistinctCount(open, OpenSet(Burst(n), Fault, m));
  }

  /** The seventeenth fault is a declared span, active in the current boot, and is not reported. */
  lemma SeventeenthIsMissed()
    ensures !FitsOpenTable(Burst(17), Fault, 17)
    ensures Declared(Burst(17), Fault, 1, Span(16, 0)) && Span(16, 0) !in Spans(Burst(17), Fault, 1)
  {
    var events := Burst(17);
    forall m | 0 <= m <= 17 ensures |OpenSet(events, Fault, m)| == m { BurstOpenSet(17, m); }
    assert |OpenSet(events, Fault, 17)| == 17;
    BurstOpens(17, 16, 17);
    hide OpenSet, Spans, After, Missed, FirstOpen, Live;
    OverflowMisses(events, Fault, 16);
    MissedNotReported(events, Fault, 1, Span(16, 0));
  }
}
