/** What the command cache knows over a run. Every new command takes the next ticket; the slot a
    ticket claims is its number modulo the cache size. `acked` holds the tickets whose write the
    heat pump acknowledged. */
module HaCache {
  import opened Basics
  import opened CommandCache

  datatype History = History(slots: Slots, tickets: seq<Command>, acked: set<nat>)

  function EmptyHistory(): History {
    History(seq(CACHE_SIZE, _ => None), [], {})
  }

  /** The lookup found nothing: claim a slot and clear it. */
  function Claim(h: History, cmd: Command): History {
    h.(slots := h.slots[|h.tickets| % CACHE_SIZE := None], tickets := h.tickets + [cmd])
  }

  /** The claiming handler finishes with an acknowledged write. */
  function Acknowledge(h: History, ticket: nat, cmd: Command): History {
    h.(slots := h.slots[ticket % CACHE_SIZE := Some(cmd)], acked := h.acked + {ticket})
  }

  predicate InWindow(h: History, n: nat) {
    n < |h.tickets| <= n + CACHE_SIZE
  }

  /** What a slot holds for a ticket in the window. */
  function Remembered(h: History, n: nat): Option<Command>
    requires n < |h.tickets|
  {
    if n in h.acked then Some(h.tickets[n]) else None
  }

  ghost predicate SlotsFollow(h: History) {
    && (forall n: nat :: InWindow(h, n) ==> h.slots[n % CACHE_SIZE] == Remembered(h, n))
    && (forall i: nat :: |h.tickets| <= i < CACHE_SIZE ==> h.slots[i] == None)
  }

  /** A ticket comes at least 33 after an acknowledged one with its id: 32 others lie between. */
  ghost predicate Spaced(h: History) {
    forall m: nat, n: nat :: m in h.acked && m < n < |h.tickets| && h.tickets[m].id == h.tickets[n].id ==>
        m + CACHE_SIZE < n
  }

  ghost predicate HistoryOk(h: History) {
    (forall n :: n in h.acked ==> n < |h.tickets|) && SlotsFollow(h) && Spaced(h)
  }

  /** The ticket whose record a filled slot holds. */
  lemma SlotHasTicket(h: History, i: nat) returns (n: nat)
    requires HistoryOk(h) && i < CACHE_SIZE && h.slots[i].Some?
    ensures InWindow(h, n) && n % CACHE_SIZE == i && n in h.acked && h.slots[i] == Some(h.tickets[n])
  {
    var k := |h.tickets|;
    var back := (k - 1 - i) % CACHE_SIZE;
    n := k - 1 - back;
    assert (k - 1 - i) == CACHE_SIZE * ((k - 1 - i) / CACHE_SIZE) + back;
    assert n == i + CACHE_SIZE * ((k - 1 - i) / CACHE_SIZE);
    assert n % CACHE_SIZE == i;
    assert InWindow(h, n);
  }

  /** No two accepted records share an id. */
  lemma OneRecordPerId(h: History, i: nat, j: nat)
    requires HistoryOk(h) && i < CACHE_SIZE && j < CACHE_SIZE
    requires h.slots[i].Some? && h.slots[j].Some? && h.slots[i].value.id == h.slots[j].value.id
    ensures i == j
  {
    var m := SlotHasTicket(h, i);
    var n := SlotHasTicket(h, j);
  }

  /** The lookup decides exactly by the acknowledged tickets among the newest 32. */
  lemma LookupExact(h: History, cmd: Command)
    requires HistoryOk(h)
    ensures Find(h.slots, cmd).New? <==> forall n: nat :: InWindow(h, n) && n in h.acked ==> h.tickets[n].id != cmd.id
    ensures forall n: nat :: InWindow(h, n) && n in h.acked && h.tickets[n].id == cmd.id ==>
              Find(h.slots, cmd) == if h.tickets[n] == cmd then Duplicate(n % CACHE_SIZE) else Conflict
  {
    hide LookupFrom;
    LookupFromFinds(h.slots, cmd, 0);
    forall n: nat | InWindow(h, n) && n in h.acked && h.tickets[n].id == cmd.id
      ensures Find(h.slots, cmd) == if h.tickets[n] == cmd then Duplicate(n % CACHE_SIZE) else Conflict
    {
      FoundAt(h, cmd, n);
    }
    if forall n: nat :: InWindow(h, n) && n in h.acked ==> h.tickets[n].id != cmd.id {
      forall k: nat | k < CACHE_SIZE
        ensures !HoldsId(h.slots, k, cmd.id)
      {
        if HoldsId(h.slots, k, cmd.id) { var n := SlotHasTicket(h, k); }
      }
    }
  }

  lemma FoundAt(h: History, cmd: Command, n: nat)
    requires HistoryOk(h) && InWindow(h, n) && n in h.acked && h.tickets[n].id == cmd.id
    ensures Find(h.slots, cmd) == if h.tickets[n] == cmd then Duplicate(n % CACHE_SIZE) else Conflict
  {
    hide LookupFrom;
    var k := n % CACHE_SIZE;
    assert h.slots[k] == Some(h.tickets[n]);
    assert HoldsId(h.slots, k, cmd.id);
    forall j: nat | HoldsId(h.slots, j, cmd.id)
      ensures j == k
    {
      OneRecordPerId(h, j, k);
    }
    LookupFromFinds(h.slots, cmd, 0);
  }

  lemma EmptyOk()
    ensures HistoryOk(EmptyHistory())
  {
  }

  lemma ClaimOk(h: History, cmd: Command)
    requires HistoryOk(h) && Find(h.slots, cmd).New?
    ensures HistoryOk(Claim(h, cmd))
  {
    hide Find;
    LookupExact(h, cmd);
    var g := Claim(h, cmd);
    var k := |h.tickets|;
    forall n: nat | InWindow(g, n)
      ensures g.slots[n % CACHE_SIZE] == Remembered(g, n)
    {
      if n != k {
        assert InWindow(h, n);
        assert 0 < k - n < CACHE_SIZE;
        DifferentSlots(n, k);
      }
    }
    forall m: nat, n: nat | m in g.acked && m < n < |g.tickets| && g.tickets[m].id == g.tickets[n].id
      ensures m + CACHE_SIZE < n
    {
      assert n == k ==> (InWindow(h, m) <==> k <= m + CACHE_SIZE);
    }
  }

  lemma DifferentSlots(m: nat, n: nat)
    requires m < n < m + CACHE_SIZE
    ensures m % CACHE_SIZE != n % CACHE_SIZE
  {
  }

  lemma AcknowledgeOk(h: History, ticket: nat)
    requires HistoryOk(h) && ticket + 1 == |h.tickets|
    ensures HistoryOk(Acknowledge(h, ticket, h.tickets[ticket]))
  {
    var g := Acknowledge(h, ticket, h.tickets[ticket]);
    forall n: nat | InWindow(g, n)
      ensures g.slots[n % CACHE_SIZE] == Remembered(g, n)
    {
      assert InWindow(h, n);
      if n != ticket { DifferentSlots(n, ticket); }
    }
  }
}
