/** What the event ring keeps over every run of records, time syncs, clears. */
module EventTheorems {
  import opened Events
  import opened EventRing

  datatype Op = Record(entry: Entry) | Sync(epochMs: int) | Clear

  datatype Log = Log(items: seq<Item>, next: nat)

  /** One operation on a log without a limit. */
  function StepFull(log: Log, boot: nat, op: Op): Log {
    match op
    case Record(e) => Log(log.items + [Item(e, log.next)], NextId(log.next))
    case Sync(epochMs) => log.(items := FillAll(log.items, boot, epochMs))
    case Clear => log.(items := [])
  }

  /** One operation on the ring, as its methods promise. */
  function StepRing(log: Log, boot: nat, op: Op): Log {
    var full := StepFull(log, boot, op);
    if op.Record? then full.(items := Newest(full.items)) else full
  }

  function RunFull(log: Log, boot: nat, ops: seq<Op>): Log {
    if ops == [] then log else StepFull(RunFull(log, boot, ops[..|ops| - 1]), boot, ops[|ops| - 1])
  }

  function RunRing(log: Log, boot: nat, ops: seq<Op>): Log {
    if ops == [] then log else StepRing(RunRing(log, boot, ops[..|ops| - 1]), boot, ops[|ops| - 1])
  }

  lemma NewestOfNewest(items: seq<Item>, item: Item)
    ensures Newest(Newest(items) + [item]) == Newest(items + [item])
  {
  }

  lemma NewestFilled(items: seq<Item>, boot: nat, epochMs: int)
    ensures FillAll(Newest(items), boot, epochMs) == Newest(FillAll(items, boot, epochMs))
  {
  }

  /** The ring always holds the newest 1000 items of the log it would be without a limit. */
  lemma {:induction false} RingIsNewest(log: Log, boot: nat, ops: seq<Op>)
    requires |log.items| <= CAPACITY
    ensures RunRing(log, boot, ops).items == Newest(RunFull(log, boot, ops).items)
    ensures RunRing(log, boot, ops).next == RunFull(log, boot, ops).next
  {
    hide Filled;
    if ops != [] {
      var before, op := ops[..|ops| - 1], ops[|ops| - 1];
      RingIsNewest(log, boot, before);
      var full := RunFull(log, boot, before);
      match op
      case Record(e) => NewestOfNewest(full.items, Item(e, full.next));
      case Sync(epochMs) => NewestFilled(full.items, boot, epochMs);
      case Clear =>
    }
  }

  // ------------------------------------------------ ids

  predicate IsId(id: nat) {
    0 < id <= ID_COUNT
  }

  /** How many steps of the counter lead from an id to the next one to be used. */
  function Behind(id: nat, next: nat): nat {
    (next - id) % ID_COUNT
  }

  /** A number is its own residue up to multiples of the count of ids. */
  lemma Residue(n: int, r: int)
    requires 0 <= r < ID_COUNT && (r == n || r == n + ID_COUNT)
    ensures n % ID_COUNT == r
  {
  }

  lemma BehindSteps(id: nat, next: nat)
    requires IsId(id) && IsId(next) && Behind(id, next) < ID_COUNT - 1
    ensures IsId(NextId(next)) && Behind(id, NextId(next)) == Behind(id, next) + 1
  {
    if next == ID_COUNT {
      Residue(1 - id, Behind(id, next) + 1);
    } else {
      Residue(next + 1 - id, Behind(id, next) + 1);
    }
  }

  lemma BehindNew(next: nat)
    requires IsId(next)
    ensures IsId(NextId(next)) && Behind(next, NextId(next)) == 1
  {
  }

  /** The retained ids trail the counter in order, and none will be met by the counter before its
      item has left the ring. Ids may have gaps. */
  ghost predicate IdsOk(log: Log) {
    && IsId(log.next) && |log.items| <= CAPACITY
    && (forall i :: 0 <= i < |log.items| ==> IdFits(log, i))
    && (forall i, j :: 0 <= i < j < |log.items| ==>
        Behind(log.items[j].id, log.next) < Behind(log.items[i].id, log.next))
  }

  ghost predicate IdFits(log: Log, i: nat)
    requires i < |log.items|
  {
    && IsId(log.items[i].id)
    && 1 <= Behind(log.items[i].id, log.next) &&
        Behind(log.items[i].id, log.next) + CAPACITY - |log.items| + i < ID_COUNT
  }

  /** What one record does to the position of a retained item. */
  lemma IdAfterRecord(log: Log, boot: nat, e: Entry, i: nat)
    requires IdsOk(log) && i < |StepRing(log, boot, Record(e)).items|
    ensures var now := StepRing(log, boot, Record(e));
      && IdFits(now, i) && IsId(now.next)
      && now.items[i].id == (var k := i + (if |log.items| < CAPACITY then 0 else 1); if k < |log.items| then
          log.items[k].id else log.next)
      && Behind(now.items[i].id, now.next)
          == (var k := i + (if |log.items| < CAPACITY then 0 else 1); if k < |log.items| then
              Behind(log.items[k].id, log.next) + 1 else 1)
      && (i + 1 < |now.items| ==> Behind(now.items[i].id, now.next) > 1)
  {
    var now := StepRing(log, boot, Record(e));
    var k := i + (if |log.items| < CAPACITY then 0 else 1);
    assert now.items[i] == (log.items + [Item(e, log.next)])[k];
    assert now.next == NextId(log.next);
    if k < |log.items| {
      assert IdFits(log, k);
      BehindSteps(log.items[k].id, log.next);
    } else {
      BehindNew(log.next);
    }
  }

  lemma StepIds(log: Log, boot: nat, op: Op)
    requires IdsOk(log)
    ensures IdsOk(StepRing(log, boot, op))
  {
    var now := StepRing(log, boot, op);
    match op
    case Record(e) =>
      assert now.items != [];
      forall i: nat | i < |now.items|
        ensures IdFits(now, i) && IsId(now.next)
      {
        IdAfterRecord(log, boot, e, i);
      }
      assert IdFits(now, 0);
      forall i: nat, j: nat | i < j < |now.items|
        ensures Behind(now.items[j].id, now.next) < Behind(now.items[i].id, now.next)
      {
        IdAfterRecord(log, boot, e, i);
        IdAfterRecord(log, boot, e, j);
        hide IdFits, StepRing, Behind;
      }
      hide IdFits, Behind;
    case Sync(epochMs) =>
      SameIds(log, now);
    case Clear =>
  }

  lemma SameIds(log: Log, now: Log)
    requires IdsOk(log) && |now.items| == |log.items| && now.next == log.next
    requires forall i :: 0 <= i < |log.items| ==> now.items[i].id == log.items[i].id
    ensures IdsOk(now)
  {
    hide Behind;
    forall i: nat | i < |now.items|
      ensures IdFits(now, i)
    {
      assert IdFits(log, i);
    }
  }

  /** Retained ids are never zero and never equal, however often the counter wraps. */
  lemma {:induction false} RetainedIdsDistinct(log: Log, boot: nat, ops: seq<Op>)
    requires IdsOk(log)
    ensures IdsOk(RunRing(log, boot, ops))
    ensures DistinctIds(RunRing(log, boot, ops).items)
  {
    hide DistinctIds;
    if ops != [] {
      hide StepRing, IdsOk;
      RetainedIdsDistinct(log, boot, ops[..|ops| - 1]);
      StepIds(RunRing(log, boot, ops[..|ops| - 1]), boot, ops[|ops| - 1]);
    }
    OkIdsDistinct(RunRing(log, boot, ops));
  }

  ghost predicate DistinctIds(items: seq<Item>) {
    && (forall i :: 0 <= i < |items| ==> items[i].id != 0)
    && (forall i, j :: 0 <= i < j < |items| ==> items[i].id != items[j].id)
  }

  lemma OkIdsDistinct(log: Log)
    requires IdsOk(log)
    ensures DistinctIds(log.items)
  {
    hide Behind;
    forall i: nat | i < |log.items|
      ensures log.items[i].id != 0
    {
      assert IdFits(log, i);
    }
  }

  /** An empty log and consecutive ids meet the condition. */
  lemma ConsecutiveIdsOk(items: seq<Item>, next: nat)
    requires |items| <= CAPACITY && |items| < next <= ID_COUNT
    requires forall i :: 0 <= i < |items| ==> items[i].id == next - |items| + i
    ensures IdsOk(Log(items, next))
  {
  }

  // ------------------------------------------------ paging

  /** Read pages of the given sizes one after another. */
  function Pages<T>(items: seq<T>, sizes: seq<nat>, offset: nat): seq<T> {
    if sizes == [] then [] else
      var page := Page(items, sizes[0], offset);
      page + Pages(items, sizes[1..], offset + |page|)
  }

  function Sum(sizes: seq<nat>): nat {
    if sizes == [] then 0 else sizes[0] + Sum(sizes[1..])
  }

  lemma TwoPages<T>(items: seq<T>, a: nat, b: nat, offset: nat)
    requires offset <= |items|
    ensures Page(items, a, offset) + Page(items, b, offset + |Page(items, a, offset)|) == Page(items, a + b, offset)
  {
  }

  /** Successive pages of any sizes join to one page: nothing is skipped or repeated. */
  lemma {:induction false} PagesJoin<T>(items: seq<T>, sizes: seq<nat>, offset: nat)
    requires offset <= |items|
    ensures Pages(items, sizes, offset) == Page(items, Sum(sizes), offset)
    decreases |sizes|
  {
    hide Page;
    if sizes == [] {
      assert |Page(items, 0, offset)| == 0;
    } else {
      var next := offset + |Page(items, sizes[0], offset)|;
      PagesJoin(items, sizes[1..], next);
      TwoPages(items, sizes[0], Sum(sizes[1..]), offset);
    }
  }

  /** Reading everything and reversing it gives the log oldest first. */
  lemma WholePageReversed<T>(items: seq<T>, i: nat)
    requires |items| <= CAPACITY && i < |items|
    ensures |Page(items, CAPACITY, 0)| == |items| && Page(items, CAPACITY, 0)[|items| - 1 - i] == items[i]
  {
  }

  // ------------------------------------------------ time sync

  /** A sync changes an entry only in its time, and only an untimed one of this boot. */
  lemma SyncChangesOnlyUntimed(items: seq<Item>, boot: nat, epochMs: int, i: nat)
    requires i < |items|
    ensures var e, f := items[i].entry, FillAll(items, boot, epochMs)[i].entry;
      && FillAll(items, boot, epochMs)[i].id == items[i].id && f.(timestamp := e.timestamp) == e
      && (f != e ==> e.timestamp == 0 && e.boot == boot)
  {
  }

  function Seconds(e: Entry, epochMs: int): int {
    (epochMs + e.uptime) / 1000
  }

  /** Two filled entries keep their uptime order exactly when the 32-bit time does not wrap between
      them (uptimes less than 2^32 seconds apart). */
  lemma SyncKeepsOrder(d: Entry, e: Entry, boot: nat, epochMs: int)
    requires Fills(d, boot, epochMs) && Fills(e, boot, epochMs) && d.uptime <= e.uptime
    requires Seconds(e, epochMs) - Seconds(d, epochMs) < UINT32
    ensures Filled(d, boot, epochMs).timestamp <= Filled(e, boot, epochMs).timestamp <==>
        Seconds(d, epochMs) / UINT32 == Seconds(e, epochMs) / UINT32
  {
    var s, t := Seconds(d, epochMs), Seconds(e, epochMs);
    assert s <= t;
    assert s / UINT32 == t / UINT32 || s / UINT32 + 1 == t / UINT32;
  }

  /** The order is lost across the wrap. */
  lemma SyncOrderCanFail(d: Entry, e: Entry)
    requires d == Entry(0, 1, 0, 0, 0) && e == Entry(0, 1, 1000, 0, 0)
    ensures Filled(d, 1, (UINT32 - 1) * 1000).timestamp > Filled(e, 1, (UINT32 - 1) * 1000).timestamp
  {
  }

  /** The time filled in is the time the event would have been recorded with, had the clock been set:
      the second it happened in, while that fits 32 bits, and none if it is before 2024. */
  lemma BackfillIsTrueTime(e: Entry, boot: nat, epochMs: int)
    requires e.boot == boot && e.timestamp == 0
    ensures var f, second := Filled(e, boot, epochMs).timestamp, Seconds(e, epochMs);
      && f == Stamp(second)
      && (CLOCK_SET <= second < UINT32 ==> f == second && second * 1000 <= epochMs + e.uptime < second * 1000 + 1000)
      && (second < CLOCK_SET ==> f == 0)
  {
  }

  /** A sync leaves to be filled in only what would be filled in with zero, the second at which the
      32-bit time wraps. */
  lemma SyncSettles(items: seq<Item>, boot: nat, epochMs: int, i: nat)
    requires i < |items|
    ensures Fills(FillAll(items, boot, epochMs)[i].entry, boot, epochMs) <==>
            Fills(items[i].entry, boot, epochMs) && Seconds(items[i].entry, epochMs) % UINT32 == 0
  {
  }
}
