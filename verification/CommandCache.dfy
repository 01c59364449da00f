/** The Home Assistant command cache: 32 slots reused in turn, searched for a command id that was
    already accepted. Both operations run under the command mutex. */
module CommandCache {
  import opened Basics

  const CACHE_SIZE: nat := 32

  /** A control command as it is remembered: its id, the operation and its payload. */
  datatype Command = Command(id: string, operation: string, payload: string)

  /** Slot contents; an unaccepted record is an empty slot. */
  type Slots = s: seq<Option<Command>> | |s| == CACHE_SIZE witness seq(CACHE_SIZE, _ => None)

  datatype Lookup = New | Duplicate(slot: nat) | Conflict

  /** The first accepted record with the id decides. */
  function LookupFrom(slots: Slots, cmd: Command, i: nat): Lookup
    requires i <= CACHE_SIZE
    decreases CACHE_SIZE - i
  {
    if i == CACHE_SIZE then New
    else if slots[i].Some? && slots[i].value.id == cmd.id then
        (if slots[i].value == cmd then Duplicate(i) else Conflict)
    else LookupFrom(slots, cmd, i + 1)
  }

  function Find(slots: Slots, cmd: Command): Lookup {
    LookupFrom(slots, cmd, 0)
  }

  predicate HoldsId(slots: Slots, i: nat, id: string) {
    i < CACHE_SIZE && slots[i].Some? && slots[i].value.id == id
  }

  /** Slot `k` is the only one from `i` on that holds the id. */
  predicate OnlyHolder(slots: Slots, i: nat, k: nat, id: string) {
    HoldsId(slots, k, id) && forall j :: i <= j < CACHE_SIZE && HoldsId(slots, j, id) ==> j == k
  }

  lemma {:induction false} LookupFromFinds(slots: Slots, cmd: Command, i: nat)
    requires i <= CACHE_SIZE
    ensures LookupFrom(slots, cmd, i).New? <==> forall k :: i <= k < CACHE_SIZE ==> !HoldsId(slots, k, cmd.id)
    ensures forall k :: i <= k && OnlyHolder(slots, i, k, cmd.id) ==>
              LookupFrom(slots, cmd, i) == if slots[k].value == cmd then Duplicate(k) else Conflict
    decreases CACHE_SIZE - i
  {
    if i < CACHE_SIZE {
      LookupFromFinds(slots, cmd, i + 1);
      if HoldsId(slots, i, cmd.id) {
      } else {
        forall k | i <= k && OnlyHolder(slots, i, k, cmd.id)
          ensures LookupFrom(slots, cmd, i) == if slots[k].value == cmd then Duplicate(k) else Conflict
        {
          assert i + 1 <= k;
        }
      }
    }
  }

  class Cache {
    var slots: Slots
    var next: nat

    constructor ()
      ensures next == 0 && forall i :: 0 <= i < CACHE_SIZE ==> slots[i] == None
    {
      slots, next := seq(CACHE_SIZE, _ => None), 0;
    }

    /** Look the command up; a new one claims the next slot and clears it. */
    method Begin(cmd: Command) returns (found: Lookup, slot: nat)
      modifies this
      ensures found == Find(old(slots), cmd)
      ensures found.New? ==>
          slot == old(next) % CACHE_SIZE && next == old(next) + 1 && slots == old(slots)[slot := None]
      ensures !found.New? ==> next == old(next) && slots == old(slots)
    {
      slot := 0;
      for i := 0 to CACHE_SIZE
        invariant slots == old(slots) && next == old(next)
        invariant Find(slots, cmd) == LookupFrom(slots, cmd, i)
      {
        if slots[i].None? || slots[i].value.id != cmd.id { continue; }
        if slots[i].value.operation == cmd.operation && slots[i].value.payload == cmd.payload {
          return Duplicate(i), i;
        }
        return Conflict, slot;
      }
      slot := next % CACHE_SIZE;
      next := next + 1;
      slots := slots[slot := None];
      return New, slot;
    }

    /** Remember an accepted command in the slot it claimed. */
    method Finish(slot: nat, accepted: bool, cmd: Command)
      requires slot < CACHE_SIZE
      modifies this
      ensures next == old(next)
      ensures slots == if accepted then old(slots)[slot := Some(cmd)] else old(slots)
    {
      if accepted { slots := slots[slot := Some(cmd)]; }
    }
  }
}
