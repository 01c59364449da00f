/** The event log in memory: a ring of the newest 1000 events, with ids that skip zero when the
    counter wraps and timestamps filled in once the clock is set. */
module EventRing {
  import opened Events

  const CAPACITY: nat := 1000
  /** Ids run from 1 to this. */
  const ID_COUNT: nat := 0xFFFF_FFFF
  /** 2024-01-01: an earlier clock counts as unset. */
  const CLOCK_SET: int := 1704067200

  datatype Item = Item(entry: Entry, id: nat)

  function NextId(id: nat): nat {
    if (id + 1) % UINT32 == 0 then 1 else (id + 1) % UINT32
  }

  /** A clock before 2024 counts as unset. */
  function Stamp(now: int): nat {
    if now < CLOCK_SET then 0 else now % UINT32
  }

  // ------------------------------------------------ the log as a sequence, oldest first

  /** The newest items that fit. */
  function Newest<T>(s: seq<T>): seq<T> {
    if |s| <= CAPACITY then s else s[|s| - CAPACITY..]
  }

  /** Fill in the timestamp of an untimed event of this boot, if its time is plausible. */
  function Filled(e: Entry, boot: nat, bootEpochMs: int): Entry {
    if Fills(e, boot, bootEpochMs) then e.(timestamp := (bootEpochMs + e.uptime) / 1000 % UINT32) else e
  }

  predicate Fills(e: Entry, boot: nat, bootEpochMs: int) {
    e.boot == boot && e.timestamp == 0 && bootEpochMs + e.uptime >= CLOCK_SET * 1000
  }

  function FillAll(items: seq<Item>, boot: nat, bootEpochMs: int): (r: seq<Item>)
    ensures |r| == |items|
  {
    seq(|items|, i requires 0 <= i < |items| => items[i].(entry := Filled(items[i].entry, boot, bootEpochMs)))
  }

  /** One page, newest first. */
  function Page<T>(items: seq<T>, max: int, offset: int): (r: seq<T>)
    ensures |r| == PageSize(|items|, max, offset)
  {
    seq(PageSize(|items|, max, offset),
        i requires 0 <= i < PageSize(|items|, max, offset) => items[|items| - 1 - offset - i])
  }

  function PageSize(count: nat, max: int, offset: int): nat {
    if max <= 0 || offset < 0 || count <= offset then 0 else if count - offset < max then count - offset else max
  }

  predicate AnyFills(items: seq<Item>, boot: nat, bootEpochMs: int) {
    exists i :: 0 <= i < |items| && Fills(items[i].entry, boot, bootEpochMs)
  }

  // ------------------------------------------------ the ring

  /** The slot of the i-th oldest item. */
  function Slot(head: nat, count: nat, i: nat): (k: nat)
    requires count <= CAPACITY
    ensures k < CAPACITY
  {
    (head + CAPACITY - count + i) % CAPACITY
  }

  /** The items of a ring, oldest first. */
  function ItemsOf(entries: seq<Entry>, ids: seq<nat>, head: nat, count: nat): (r: seq<Item>)
    requires |entries| == |ids| == CAPACITY && count <= CAPACITY
    ensures |r| == count
  {
    seq(count, i requires 0 <= i < count => Item(entries[Slot(head, count, i)], ids[Slot(head, count, i)]))
  }

  class Ring {
    const buffer: array<Entry>
    const ids: array<nat>
    const boot: nat
    var head: nat
    var count: nat
    var next: nat
    var revision: nat

    ghost predicate Valid()
      reads this
    {
      buffer.Length == CAPACITY && ids.Length == CAPACITY && head < CAPACITY && count <= CAPACITY
    }

    ghost function Items(): (r: seq<Item>)
      requires Valid()
      reads this, buffer, ids
      ensures |r| == count
    {
      ItemsOf(buffer[..], ids[..], head, count)
    }

    /** Start a boot with what the journal restored. */
    constructor (restored: seq<Item>, nextId: nat, bootId: nat)
      requires |restored| <= CAPACITY
      ensures Valid() && Items() == restored && next == nextId && boot == bootId && revision == 0
      ensures fresh(buffer) && fresh(ids)
    {
      buffer := new Entry[CAPACITY](i => if 0 <= i < |restored| then restored[i].entry else Entry(0, 0, 0, 0, 0));
      ids := new nat[CAPACITY](i => if 0 <= i < |restored| then restored[i].id else 0);
      boot, next, revision := bootId, nextId, 0;
      count, head := |restored|, |restored| % CAPACITY;
    }

    /** Append an event; the oldest makes room. An unknown kind is ignored. */
    method Record(kind: nat, payload: nat, now: int, uptime: nat)
      requires Valid()
      modifies this, buffer, ids
      ensures Valid()
      ensures kind >= KIND_COUNT ==> Items() == old(Items()) && next == old(next) && revision == old(revision)
      ensures kind < KIND_COUNT ==>
                && Items() == Newest(old(Items()) + [Item(Entry(Stamp(now), boot, uptime, kind, payload), old(next))])
                && next == NextId(old(next)) && revision == (old(revision) + 1) % UINT32
    {
      hide ItemsOf, Newest, NextId;
      if kind >= KIND_COUNT { return; }
      var e := Entry(Stamp(now), boot, uptime, kind, payload);
      buffer[head] := e;
      ids[head] := next;
      next := NextId(next);
      head := (head + 1) % CAPACITY;
      if count < CAPACITY { count := count + 1; }
      revision := (revision + 1) % UINT32;
      assert buffer[..] == old(buffer[..])[old(head) := e] && ids[..] == old(ids[..])[old(head) := old(next)];
      RecordedItems(old(buffer[..]), old(ids[..]), old(head), old(count), Item(e, old(next)));
    }

    /** Copy one page, newest first; a bad size or offset reads nothing. */
    method Get(out: array<Entry>, max: int, offset: int) returns (n: nat)
      requires Valid() && out != buffer && max <= out.Length
      modifies out
      ensures Valid() && Items() == old(Items())
      ensures n == PageSize(count, max, offset) <= out.Length
      ensures forall i :: 0 <= i < n ==> out[i] == Page(Items(), max, offset)[i].entry
      ensures forall i :: n <= i < out.Length ==> out[i] == old(out[i])
    {
      if max <= 0 || offset < 0 { return 0; }
      var available := count - offset;
      if available <= 0 { return 0; }
      n := if available < max then available else max;
      for i := 0 to n
        invariant buffer[..] == old(buffer[..])
        invariant forall k :: 0 <= k < i ==> out[k] == buffer[Slot(head, count, count - 1 - offset - k)]
        invariant forall k :: i <= k < out.Length ==> out[k] == old(out[k])
      {
        var idx := (head - 1 - offset - i + CAPACITY * 2) % CAPACITY;
        SlotBack(head, count, offset + i);
        out[i] := buffer[idx];
      }
    }

    method FillSlot(idx: nat, epoch: int) returns (filled: bool)
      requires Valid() && idx < CAPACITY
      modifies buffer
      ensures filled == Fills(old(buffer[idx]), boot, epoch)
      ensures buffer[..] == old(buffer[..])[idx := Filled(old(buffer[idx]), boot, epoch)]
    {
      var e := buffer[idx];
      if e.boot != boot || e.timestamp != 0 { return false; }
      var eventMs := epoch + e.uptime;
      if eventMs < CLOCK_SET * 1000 { return false; }
      buffer[idx] := e.(timestamp := eventMs / 1000 % UINT32);
      return true;
    }

    /** Fill in the times of this boot's untimed events once the clock is set. */
    method TimeSynced(syncMs: int, uptime: nat)
      requires Valid()
      modifies this`revision, buffer
      ensures Valid() && Items() == FillAll(old(Items()), boot, syncMs - uptime)
      ensures revision == if AnyFills(old(Items()), boot, syncMs - uptime) then (old(revision) + 1) % UINT32
          else old(revision)
    {
      var epoch := syncMs - uptime;
      var updated := FillSlots(epoch);
      FilledItems(old(buffer[..]), ids[..], head, count, boot, epoch);
      if updated > 0 { revision := (revision + 1) % UINT32; }
    }

    /** Go through the slots from the newest entry back. */
    method FillSlots(epoch: int) returns (updated: nat)
      requires Valid()
      modifies buffer
      ensures buffer[..] == FilledFrom(old(buffer[..]), head, count, 0, boot, epoch)
      ensures updated > 0 <==> AnyFills(old(Items()), boot, epoch)
    {
      updated := 0;
      ghost var items := Items();
      assert !AnyFills(items[count..], boot, epoch);
      assert FilledFrom(buffer[..], head, count, count, boot, epoch) == buffer[..];
      hide AnyFills, Slot, FillAll, ItemsOf, Filled, Fills, FilledFrom;
      for i := 0 to count
        invariant updated > 0 <==> AnyFills(items[count - i..], boot, epoch)
        invariant buffer[..] == FilledFrom(old(buffer[..]), head, count, count - i, boot, epoch)
      {
        var idx := (head - 1 - i + CAPACITY * 2) % CAPACITY;
        SlotBack(head, count, i);
        FillOne(old(buffer[..]), old(ids[..]), head, count, count - i, boot, epoch);
        assert buffer[..][idx] == buffer[idx];
        var filled := FillSlot(idx, epoch);
        if filled { updated := updated + 1; }
      }
    }

    method Clear()
      requires Valid()
      modifies this, buffer, ids
      ensures Valid() && Items() == [] && next == old(next) && revision == (old(revision) + 1) % UINT32
    {
      head, count := 0, 0;
      forall i | 0 <= i < CAPACITY { buffer[i] := Entry(0, 0, 0, 0, 0); }
      forall i | 0 <= i < CAPACITY { ids[i] := 0; }
      revision := (revision + 1) % UINT32;
    }
  }

  lemma RecordedItems(entries: seq<Entry>, ids: seq<nat>, head: nat, count: nat, item: Item)
    requires |entries| == |ids| == CAPACITY && count <= CAPACITY && head < CAPACITY
    ensures ItemsOf(entries[head := item.entry], ids[head := item.id], (head + 1) % CAPACITY, if count < CAPACITY then
        count + 1 else count)
         == Newest(ItemsOf(entries, ids, head, count) + [item])
  {
    var more := if count < CAPACITY then count + 1 else count;
    var was, now := ItemsOf(entries, ids, head, count),
        ItemsOf(entries[head := item.entry], ids[head := item.id], (head + 1) % CAPACITY, more);
    forall i: nat | i < more
      ensures now[i] == Newest(was + [item])[i]
    {
      SlotKept(head, count, more, i);
      hide Slot;
      if i + 1 < more { assert now[i] == was[if count < CAPACITY then i else i + 1]; }
    }
  }

  /** Moving the head keeps the older items in their slots and puts the new one in the old head. */
  lemma SlotKept(head: nat, count: nat, more: nat, i: nat)
    requires head < CAPACITY && count <= CAPACITY && more == (if count < CAPACITY then count + 1 else count) && i < more
    ensures i + 1 < more ==>
        Slot((head + 1) % CAPACITY, more, i) == Slot(head, count, if count < CAPACITY then i else i + 1) != head
    ensures i + 1 == more ==> Slot((head + 1) % CAPACITY, more, i) == head
  {
  }

  lemma SlotBack(head: nat, count: nat, back: nat)
    requires head < CAPACITY && back < count <= CAPACITY
    ensures (head - 1 - back + CAPACITY * 2) % CAPACITY == Slot(head, count, count - 1 - back)
  {
  }

  lemma SlotsDiffer(head: nat, count: nat, i: nat, j: nat)
    requires count <= CAPACITY && i < j < count
    ensures Slot(head, count, i) != Slot(head, count, j)
  {
  }

  /** The slots after filling in the items from `from` on. */
  function FilledFrom(entries: seq<Entry>, head: nat, count: nat, from: nat, boot: nat, epoch: int): (r: seq<Entry>)
    requires |entries| == CAPACITY && from <= count <= CAPACITY
    ensures |r| == CAPACITY
    decreases count - from
  {
    if from == count then entries
    else
      var rest, k := FilledFrom(entries, head, count, from + 1, boot, epoch), Slot(head, count, from);
      rest[k := Filled(entries[k], boot, epoch)]
  }

  lemma {:induction false} FilledSlots(entries: seq<Entry>, head: nat, count: nat, from: nat, boot: nat, epoch: int,
      i: nat)
    requires |entries| == CAPACITY && from <= count <= CAPACITY && i < count
    ensures var k := Slot(head, count, i); FilledFrom(entries, head, count, from, boot, epoch)[k] == if from <= i then
        Filled(entries[k], boot, epoch) else entries[k]
    decreases count - from
  {
    hide Slot, Filled;
    if from < count {
      FilledSlots(entries, head, count, from + 1, boot, epoch, i);
      if i < from { SlotsDiffer(head, count, i, from); } else if from < i { SlotsDiffer(head, count, from, i); }
    }
  }

  /** The next slot still holds its entry, and whether it is filled decides the rest. */
  lemma FillOne(entries: seq<Entry>, ids: seq<nat>, head: nat, count: nat, from: nat, boot: nat, epoch: int)
    requires |entries| == |ids| == CAPACITY && 0 < from <= count <= CAPACITY
    ensures var rest, k := FilledFrom(entries, head, count, from, boot, epoch), Slot(head, count, from - 1);
      rest[k] == entries[k] &&
          FilledFrom(entries, head, count, from - 1, boot, epoch) == rest[k := Filled(rest[k], boot, epoch)]
    ensures var items := ItemsOf(entries, ids, head, count);
      AnyFills(items[from - 1..], boot, epoch) <==>
          AnyFills(items[from..], boot, epoch) || Fills(entries[Slot(head, count, from - 1)], boot, epoch)
  {
    FilledSlots(entries, head, count, from, boot, epoch, from - 1);
    hide Slot, Filled;
    var items := ItemsOf(entries, ids, head, count);
    assert items[from - 1..] == [items[from - 1]] + items[from..];
    assert items[from - 1].entry == entries[Slot(head, count, from - 1)];
    if AnyFills(items[from..], boot, epoch) {
      var i :| 0 <= i < |items[from..]| && Fills(items[from..][i].entry, boot, epoch);
      assert items[from - 1..][i + 1] == items[from..][i];
    }
    if Fills(items[from - 1].entry, boot, epoch) { assert items[from - 1..][0] == items[from - 1]; }
    if AnyFills(items[from - 1..], boot, epoch) {
      var i :| 0 <= i < |items[from - 1..]| && Fills(items[from - 1..][i].entry, boot, epoch);
      if i > 0 { assert items[from..][i - 1] == items[from - 1..][i]; }
    }
  }

  lemma FilledItems(entries: seq<Entry>, ids: seq<nat>, head: nat, count: nat, boot: nat, epoch: int)
    requires |entries| == |ids| == CAPACITY && count <= CAPACITY
    ensures ItemsOf(FilledFrom(entries, head, count, 0, boot, epoch), ids, head, count)
        == FillAll(ItemsOf(entries, ids, head, count), boot, epoch)
  {
    hide Slot, Filled, FilledFrom;
    forall i: nat | i < count
      ensures FilledFrom(entries, head, count, 0, boot, epoch)[Slot(head, count, i)]
          == Filled(entries[Slot(head, count, i)], boot, epoch)
    {
      FilledSlots(entries, head, count, 0, boot, epoch, i);
    }
  }
}
