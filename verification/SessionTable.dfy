/** The table of web sessions and its copy in flash. A token is known by its hash, which is taken to
    be injective; a malformed token, or one that could not be hashed, is None. */
module SessionTable {
  import opened Basics

  const MAX_SESSIONS: nat := 4
  const LIFETIME: int := 30 * 24 * 60 * 60

  datatype Session = Session(hash: nat, created: int, lastUsed: int)

  /** What flash keeps of a session. */
  datatype Stored = Stored(hash: nat, created: int)

  type Slots = s: seq<Option<Session>> | |s| == MAX_SESSIONS witness seq(MAX_SESSIONS, _ => None)

  function Pair(s: Session): Stored {
    Stored(s.hash, s.created)
  }

  /** The blob a save writes: the active sessions in slot order. */
  function StoredOf(slots: seq<Option<Session>>): (r: seq<Stored>)
    ensures |r| <= |slots|
    ensures forall p :: p in r <==> exists i :: 0 <= i < |slots| && slots[i].Some? && Pair(slots[i].value) == p
  {
    if slots == [] then []
    else
      var n := |slots| - 1;
      var r := StoredOf(slots[..n]);
      assert forall i :: 0 <= i < n ==> slots[i] == slots[..n][i];
      if slots[n].Some? then r + [Pair(slots[n].value)] else r
  }

  /** The table after a restart; when a session was last used is not kept. A blob with too many
      sessions is ignored. */
  function Loaded(stored: seq<Stored>): Slots {
    seq(MAX_SESSIONS, i requires 0 <= i < MAX_SESSIONS =>
        if i < |stored| <= MAX_SESSIONS then Some(Session(stored[i].hash, stored[i].created, stored[i].created))
            else None)
  }

  predicate Holds(slots: seq<Option<Session>>, i: nat, hash: nat) {
    i < |slots| && slots[i].Some? && slots[i].value.hash == hash
  }

  /** The last slot with the hash. */
  function FindLast(slots: seq<Option<Session>>, hash: nat, n: nat): (r: Option<nat>)
    requires n <= |slots|
    ensures r.Some? ==> r.value < n && Holds(slots, r.value, hash)
    ensures r.None? ==> forall i :: 0 <= i < n ==> !Holds(slots, i, hash)
  {
    if n == 0 then None else if Holds(slots, n - 1, hash) then Some(n - 1) else FindLast(slots, hash, n - 1)
  }

  function Find(slots: Slots, hash: Option<nat>): (r: Option<nat>)
    ensures r.Some? ==> hash.Some? && Holds(slots, r.value, hash.value)
    ensures r.None? && hash.Some? ==> forall i: nat :: !Holds(slots, i, hash.value)
  {
    if hash.None? then None else FindLast(slots, hash.value, MAX_SESSIONS)
  }

  /** A slot for a new session: the first empty one, or with none empty the least recently used. */
  predicate IsRoom(slots: Slots, k: nat) {
    && k < MAX_SESSIONS
    && if slots[k].None? then forall i :: 0 <= i < k ==> slots[i].Some?
       else
         && (forall i :: 0 <= i < MAX_SESSIONS ==> slots[i].Some? && slots[k].value.lastUsed <= slots[i].value.lastUsed)
         && (forall i :: 0 <= i < k ==> slots[k].value.lastUsed < slots[i].value.lastUsed)
  }

  /** The first empty slot from `i` on. */
  function FirstEmpty(slots: Slots, i: nat): (k: nat)
    requires i <= MAX_SESSIONS
    ensures i <= k <= MAX_SESSIONS && (forall j :: i <= j < k ==> slots[j].Some?)
    ensures k < MAX_SESSIONS ==> slots[k].None?
    decreases MAX_SESSIONS - i
  {
    if i == MAX_SESSIONS || slots[i].None? then i else FirstEmpty(slots, i + 1)
  }

  /** The first of the least recently used among the first `n` slots. */
  function LeastUsed(slots: Slots, n: nat): (k: nat)
    requires 0 < n <= MAX_SESSIONS && forall i :: 0 <= i < n ==> slots[i].Some?
    ensures k < n && (forall i :: 0 <= i < n ==> slots[k].value.lastUsed <= slots[i].value.lastUsed)
    ensures forall i :: 0 <= i < k ==> slots[k].value.lastUsed < slots[i].value.lastUsed
  {
    if n == 1 then 0
    else
      var k := LeastUsed(slots, n - 1);
      if slots[n - 1].value.lastUsed < slots[k].value.lastUsed then n - 1 else k
  }

  function Room(slots: Slots): (k: nat)
    ensures IsRoom(slots, k)
  {
    var k := FirstEmpty(slots, 0);
    if k < MAX_SESSIONS then k else LeastUsed(slots, MAX_SESSIONS)
  }

  lemma RoomUnique(slots: Slots, j: nat, k: nat)
    requires IsRoom(slots, j) && IsRoom(slots, k)
    ensures j == k
  {
  }

  predicate Expired(s: Session, now: int) {
    now - s.created > LIFETIME
  }

  // ------------------------------------------------ the component

  class Sessions {
    const slots: array<Option<Session>>
    var flash: seq<Stored>

    ghost predicate Valid()
      reads this
    {
      slots.Length == MAX_SESSIONS
    }

    ghost function Table(): Slots
      requires Valid()
      reads this, slots
    {
      slots[..]
    }

    /** Start up with the sessions saved before. */
    constructor (saved: seq<Stored>)
      ensures Valid() && Table() == Loaded(saved) && flash == saved && fresh(slots)
    {
      slots := new Option<Session>[MAX_SESSIONS](_ => None);
      flash := saved;
      new;
      if |saved| > MAX_SESSIONS { return; }
      for i := 0 to |saved|
        invariant Valid() && flash == saved && fresh(slots)
        invariant forall k :: 0 <= k < MAX_SESSIONS ==> slots[k] == if k < i then Loaded(saved)[k] else None
      {
        slots[i] := Some(Session(saved[i].hash, saved[i].created, saved[i].created));
      }
    }

    /** Write the active sessions to flash; a failed write keeps the old blob. */
    method Save(ok: bool)
      requires Valid()
      modifies this`flash
      ensures Valid() && flash == if ok then StoredOf(Table()) else old(flash)
    {
      var blob: seq<Stored> := [];
      for i := 0 to MAX_SESSIONS
        invariant blob == StoredOf(slots[..i])
      {
        assert slots[..i + 1][..i] == slots[..i];
        if slots[i].None? { continue; }
        blob := blob + [Pair(slots[i].value)];
      }
      assert slots[..MAX_SESSIONS] == slots[..];
      if ok { flash := blob; }
    }

    method FindSession(hash: Option<nat>) returns (found: Option<nat>)
      requires Valid()
      ensures found == Find(Table(), hash)
    {
      found := None;
      if hash.None? { return; }
      for i := 0 to MAX_SESSIONS
        invariant found == FindLast(slots[..], hash.value, i)
      {
        if slots[i].Some? && slots[i].value.hash == hash.value { found := Some(i); }
      }
    }

    /** Find room, evicting a session if there is none. */
    method FindFree() returns (k: nat)
      requires Valid()
      modifies slots
      ensures IsRoom(old(Table()), k) && Table() == old(Table())[k := None]
    {
      var oldest: Option<nat> := None;
      var oldestTime := 0;
      for i := 0 to MAX_SESSIONS
        invariant Table() == old(Table()) && forall j :: 0 <= j < i ==> slots[j].Some?
        invariant oldest.None? <==> i == 0
        invariant oldest.Some? ==>
                    && oldest.value < i && slots[oldest.value].value.lastUsed == oldestTime
                    && (forall j :: 0 <= j < i ==> oldestTime <= slots[j].value.lastUsed)
                    && (forall j :: 0 <= j < oldest.value ==> oldestTime < slots[j].value.lastUsed)
      {
        if slots[i].None? {
          assert Table()[i := None] == Table();
          return i;
        }
        if oldest.None? || slots[i].value.lastUsed < oldestTime {
          oldest, oldestTime := Some(i), slots[i].value.lastUsed;
        }
      }
      k := oldest.value;
      slots[k] := None;
    }

    /** After the password matched: open a session for a new token. */
    method Login(hash: nat, now: int, saveOk: bool)
      requires Valid()
      modifies this, slots
      ensures Valid() && Table() == old(Table())[Room(old(Table())) := Some(Session(hash, now, now))]
      ensures flash == if saveOk then StoredOf(Table()) else old(flash)
    {
      var k := FindFree();
      RoomUnique(old(Table()), k, Room(old(Table())));
      slots[k] := Some(Session(hash, now, now));
      assert Table() == old(Table())[k := Some(Session(hash, now, now))];
      Save(saveOk);
    }

    method Validate(hash: Option<nat>, now: int, saveOk: bool) returns (valid: bool)
      requires Valid()
      modifies this, slots
      ensures Valid()
      ensures var k := Find(old(Table()), hash);
        if k.None? then !valid && Table() == old(Table()) && flash == old(flash)
        else if Expired(old(Table())[k.value].value, now) then
          !valid && Table() == old(Table())[k.value := None] && flash == if saveOk then StoredOf(Table())
              else old(flash)
        else
          valid && Table() == old(Table())[k.value := Some(old(Table())[k.value].value.(lastUsed := now))] &&
              flash == old(flash)
    {
      var k := FindSession(hash);
      if k.None? { return false; }
      if now - slots[k.value].value.created > LIFETIME {
        slots[k.value] := None;
        Save(saveOk);
        return false;
      }
      slots[k.value] := Some(slots[k.value].value.(lastUsed := now));
      return true;
    }

    method Logout(hash: Option<nat>, saveOk: bool)
      requires Valid()
      modifies this, slots
      ensures Valid()
      ensures var k := Find(old(Table()), hash);
        if k.None? then Table() == old(Table()) && flash == old(flash)
        else Table() == old(Table())[k.value := None] && flash == if saveOk then StoredOf(Table()) else old(flash)
    {
      var k := FindSession(hash);
      if k.Some? {
        slots[k.value] := None;
        Save(saveOk);
      }
    }

    /** Also called when the credentials change. */
    method LogoutAll(saveOk: bool)
      requires Valid()
      modifies this, slots
      ensures Valid() && (forall i :: 0 <= i < MAX_SESSIONS ==> Table()[i] == None)
      ensures flash == if saveOk then [] else old(flash)
    {
      for i := 0 to MAX_SESSIONS
        invariant flash == old(flash) && Valid() && forall j :: 0 <= j < i ==> slots[j] == None
      {
        slots[i] := None;
      }
      Save(saveOk);
      EmptyStored(slots[..]);
    }
  }

  lemma {:induction false} EmptyStored(slots: seq<Option<Session>>)
    requires forall i :: 0 <= i < |slots| ==> slots[i] == None
    ensures StoredOf(slots) == []
  {
    if slots != [] { EmptyStored(slots[..|slots| - 1]); }
  }

  /** Loading what was saved brings back exactly the saved pairs. */
  lemma {:induction false} LoadThenSave(stored: seq<Stored>)
    requires |stored| <= MAX_SESSIONS
    ensures StoredOf(Loaded(stored)) == stored
  {
    LoadedPrefix(stored, MAX_SESSIONS);
    assert Loaded(stored)[..MAX_SESSIONS] == Loaded(stored);
  }

  lemma {:induction false} LoadedPrefix(stored: seq<Stored>, n: nat)
    requires |stored| <= MAX_SESSIONS && n <= MAX_SESSIONS
    ensures StoredOf(Loaded(stored)[..n]) == stored[..if n < |stored| then n else |stored|]
  {
    if n > 0 {
      LoadedPrefix(stored, n - 1);
      assert Loaded(stored)[..n][..n - 1] == Loaded(stored)[..n - 1];
    }
  }
}
