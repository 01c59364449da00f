/** Which session tokens validate, over every run of logins, checks, logouts and restarts. */
module SessionRuns {
  import opened Basics
  import opened SessionTable

  /** The table and flash, with what has been issued (and when) and removed so far. `settled` says
      that the last save succeeded. */
  datatype State = State(slots: Slots, flash: seq<Stored>, settled: bool, issued: map<nat, int>, removed: set<nat>)

  datatype Event =
    | Login(token: nat, now: int, saveOk: bool)
    | Check(hash: Option<nat>, now: int, saveOk: bool)
    | Logout(hash: Option<nat>, saveOk: bool)
    | LogoutAll(saveOk: bool)
    | Restart

  function Init(): State {
    State(seq(MAX_SESSIONS, _ => None), [], true, map[], {})
  }

  /** A login's token is new. */
  predicate Enabled(s: State, e: Event) {
    e.Login? ==> e.token !in s.issued
  }

  function Save(s: State, saveOk: bool): State {
    s.(flash := if saveOk then StoredOf(s.slots) else s.flash, settled := saveOk)
  }

  function HashAt(slots: Slots, k: nat): set<nat>
    requires k < MAX_SESSIONS
  {
    if slots[k].Some? then {slots[k].value.hash} else {}
  }

  function Active(slots: Slots): (r: set<nat>)
    ensures forall h :: h in r <==> exists i: nat :: Holds(slots, i, h)
  {
    var r := HashAt(slots, 0) + HashAt(slots, 1) + HashAt(slots, 2) + HashAt(slots, 3);
    assert forall h :: Holds(slots, 0, h) || Holds(slots, 1, h) || Holds(slots, 2, h) || Holds(slots, 3, h) <==> h in r;
    r
  }

  function Drop(s: State, k: nat): State
    requires k < MAX_SESSIONS
  {
    s.(slots := s.slots[k := None], removed := s.removed + HashAt(s.slots, k))
  }

  function Put(s: State, k: nat, hash: nat, now: int): State
    requires k < MAX_SESSIONS
  {
    s.(slots := s.slots[k := Some(Session(hash, now, now))], issued := s.issued[hash := now])
  }

  function Step(s: State, e: Event): State
    requires Enabled(s, e)
  {
    match e
    case Login(hash, now, saveOk) =>
      var k := Room(s.slots);
      Save(Put(Drop(s, k), k, hash, now), saveOk)
    case Check(hash, now, saveOk) =>
      var k := Find(s.slots, hash);
      if k.None? then s
      else if Expired(s.slots[k.value].value, now) then Save(Drop(s, k.value), saveOk)
      else s.(slots := s.slots[k.value := Some(s.slots[k.value].value.(lastUsed := now))])
    case Logout(hash, saveOk) =>
      var k := Find(s.slots, hash);
      if k.None? then s else Save(Drop(s, k.value), saveOk)
    case LogoutAll(saveOk) =>
      Save(s.(slots := seq(MAX_SESSIONS, _ => None), removed := s.removed + Active(s.slots)), saveOk)
    case Restart => s.(slots := Loaded(s.flash))
  }

  /** The answer of a check. */
  predicate Accepts(s: State, hash: Option<nat>, now: int) {
    var k := Find(s.slots, hash);
    k.Some? && !Expired(s.slots[k.value].value, now)
  }

  predicate CanRun(s: State, es: seq<Event>)
    decreases |es|
  {
    es == [] || (Enabled(s, es[0]) && CanRun(Step(s, es[0]), es[1..]))
  }

  function Run(s: State, es: seq<Event>): State
    requires CanRun(s, es)
    decreases |es|
  {
    if es == [] then s else Run(Step(s, es[0]), es[1..])
  }

  /** No restart comes while the last save has failed. */
  predicate RestartsSettled(s: State, es: seq<Event>)
    requires CanRun(s, es)
    decreases |es|
  {
    es == [] || ((es[0].Restart? ==> s.settled) && RestartsSettled(Step(s, es[0]), es[1..]))
  }

  // ------------------------------------------------ invariants

  ghost predicate SlotsOk(s: State) {
    && (forall i: nat :: i < MAX_SESSIONS && s.slots[i].Some? ==>
        s.slots[i].value.hash in s.issued && s.slots[i].value.created == s.issued[s.slots[i].value.hash])
    && (forall i: nat, j: nat :: i < j < MAX_SESSIONS && s.slots[i].Some? && s.slots[j].Some? ==>
        s.slots[i].value.hash != s.slots[j].value.hash)
  }

  ghost predicate FlashOk(s: State) {
    && |s.flash| <= MAX_SESSIONS
    && (forall i: nat :: i < |s.flash| ==>
        s.flash[i].hash in s.issued && s.flash[i].created == s.issued[s.flash[i].hash])
    && (forall i: nat, j: nat :: i < j < |s.flash| ==> s.flash[i].hash != s.flash[j].hash)
  }

  ghost predicate Exact(s: State) {
    && s.removed <= s.issued.Keys && Active(s.slots) == s.issued.Keys - s.removed
    && (s.settled ==> s.flash == StoredOf(s.slots))
  }

  ghost predicate Inv(s: State) {
    SlotsOk(s) && FlashOk(s)
  }

  lemma {:induction false} StoredDistinct(slots: seq<Option<Session>>)
    requires forall i: nat, j: nat :: i < j < |slots| && slots[i].Some? && slots[j].Some? ==>
        slots[i].value.hash != slots[j].value.hash
    ensures forall i: nat, j: nat :: i < j < |StoredOf(slots)| ==> StoredOf(slots)[i].hash != StoredOf(slots)[j].hash
  {
    if slots != [] {
      var n := |slots| - 1;
      StoredDistinct(slots[..n]);
      var r := StoredOf(slots[..n]);
      forall i: nat | i < |r| && slots[n].Some?
        ensures r[i].hash != slots[n].value.hash
      {
        assert r[i] in r;
        var k :| 0 <= k < n && slots[..n][k].Some? && Pair(slots[..n][k].value) == r[i];
        assert slots[k] == slots[..n][k];
      }
    }
  }

  /** A save keeps the flash copy well formed. */
  lemma SaveOk(s: State, saveOk: bool)
    requires SlotsOk(s) && FlashOk(s)
    ensures Inv(Save(s, saveOk))
  {
    if saveOk {
      StoredDistinct(s.slots);
      var r := StoredOf(s.slots);
      forall i: nat | i < |r|
        ensures r[i].hash in s.issued && r[i].created == s.issued[r[i].hash]
      {
        assert r[i] in r;
        var k :| 0 <= k < MAX_SESSIONS && s.slots[k].Some? && Pair(s.slots[k].value) == r[i];
      }
      hide StoredOf;
    }
  }

  lemma DropOk(s: State, k: nat)
    requires Inv(s) && k < MAX_SESSIONS
    ensures Inv(Drop(s, k))
  {
  }

  lemma PutOk(s: State, k: nat, hash: nat, now: int)
    requires Inv(s) && k < MAX_SESSIONS && s.slots[k].None? && hash !in s.issued
    ensures Inv(Put(s, k, hash, now))
  {
  }

  lemma StepInv(s: State, e: Event)
    requires Inv(s) && Enabled(s, e)
    ensures Inv(Step(s, e))
  {
    hide StoredOf, Active, Room;
    match e
    case Login(hash, now, saveOk) =>
      var k := Room(s.slots);
      DropOk(s, k);
      PutOk(Drop(s, k), k, hash, now);
      SaveOk(Put(Drop(s, k), k, hash, now), saveOk);
    case Check(hash, now, saveOk) =>
      var k := Find(s.slots, hash);
      if k.Some? {
        DropOk(s, k.value);
        SaveOk(Drop(s, k.value), saveOk);
      }
    case Logout(hash, saveOk) =>
      var k := Find(s.slots, hash);
      if k.Some? {
        DropOk(s, k.value);
        SaveOk(Drop(s, k.value), saveOk);
      }
    case LogoutAll(saveOk) =>
      SaveOk(s.(slots := seq(MAX_SESSIONS, _ => None), removed := s.removed + Active(s.slots)), saveOk);
    case Restart =>
  }

  lemma DropActive(s: State, k: nat)
    requires SlotsOk(s) && k < MAX_SESSIONS
    ensures Active(Drop(s, k).slots) == Active(s.slots) - HashAt(s.slots, k)
  {
    var t := Drop(s, k);
    hide Active, SlotsOk;
    forall h
      ensures h in Active(t.slots) <==> h in Active(s.slots) - HashAt(s.slots, k)
    {
      if h in Active(t.slots) {
        var i: nat :| Holds(t.slots, i, h);
        assert Holds(s.slots, i, h);
        if s.slots[k].Some? { DistinctSlots(s, i, k); }
      }
      if h in Active(s.slots) {
        var i: nat :| Holds(s.slots, i, h);
        assert i != k ==> Holds(t.slots, i, h);
      }
    }
  }

  lemma DistinctSlots(s: State, i: nat, k: nat)
    requires SlotsOk(s) && i < MAX_SESSIONS && k < MAX_SESSIONS && s.slots[i].Some? && s.slots[k].Some? && i != k
    ensures s.slots[i].value.hash != s.slots[k].value.hash
  {
  }

  lemma PutActive(s: State, k: nat, hash: nat, now: int)
    requires k < MAX_SESSIONS && s.slots[k].None?
    ensures Active(Put(s, k, hash, now).slots) == Active(s.slots) + {hash}
  {
    var t := Put(s, k, hash, now);
    hide Active;
    assert Holds(t.slots, k, hash);
    forall h
      ensures h in Active(t.slots) <==> h in Active(s.slots) + {hash}
    {
      if h in Active(t.slots) {
        var i: nat :| Holds(t.slots, i, h);
        assert i != k ==> Holds(s.slots, i, h);
      }
      if h in Active(s.slots) {
        var i: nat :| Holds(s.slots, i, h);
        assert Holds(t.slots, i, h);
      }
    }
  }

  /** Using a session changes neither what is active nor what a save would write. */
  lemma {:induction false} TouchKeepsStored(slots: seq<Option<Session>>, k: nat, now: int)
    requires k < |slots| && slots[k].Some?
    ensures StoredOf(slots[k := Some(slots[k].value.(lastUsed := now))]) == StoredOf(slots)
  {
    var n, t := |slots| - 1, slots[k := Some(slots[k].value.(lastUsed := now))];
    if k < n {
      TouchKeepsStored(slots[..n], k, now);
      assert t[..n] == slots[..n][k := Some(slots[k].value.(lastUsed := now))];
    } else {
      assert t[..n] == slots[..n];
    }
  }

  /** What is active can be read off what a save would write. */
  lemma ActiveFromStored(a: Slots, b: Slots)
    requires StoredOf(a) == StoredOf(b)
    ensures Active(a) <= Active(b)
  {
    hide Active, StoredOf;
    forall h | h in Active(a)
      ensures h in Active(b)
    {
      var i: nat :| Holds(a, i, h);
      var p := Pair(a[i].value);
      assert p in StoredOf(a);
      var j :| 0 <= j < |b| && b[j].Some? && Pair(b[j].value) == p;
      assert Holds(b, j, h);
    }
  }

  /** Exactly what was issued and not removed is active. */
  ghost predicate Accounted(s: State) {
    s.removed <= s.issued.Keys && Active(s.slots) == s.issued.Keys - s.removed
  }

  lemma DropAccounted(s: State, k: nat)
    requires SlotsOk(s) && Accounted(s) && k < MAX_SESSIONS
    ensures Accounted(Drop(s, k))
  {
    DropActive(s, k);
    HashAtActive(s.slots, k);
    hide Active, HashAt, SlotsOk;
  }

  lemma PutAccounted(s: State, k: nat, hash: nat, now: int)
    requires Accounted(s) && k < MAX_SESSIONS && s.slots[k].None? && hash !in s.issued
    ensures Accounted(Put(s, k, hash, now))
  {
    PutActive(s, k, hash, now);
    hide Active;
    assert Put(s, k, hash, now).issued.Keys == s.issued.Keys + {hash};
  }

  lemma SavedExact(s: State, saveOk: bool)
    requires Accounted(s)
    ensures Exact(Save(s, saveOk))
  {
    hide Active, StoredOf;
  }

  lemma RemoveExact(s: State, k: nat, saveOk: bool)
    requires Inv(s) && Exact(s) && k < MAX_SESSIONS
    ensures Exact(Save(Drop(s, k), saveOk))
  {
    DropAccounted(s, k);
    hide Active, StoredOf, HashAt;
    SavedExact(Drop(s, k), saveOk);
  }

  lemma HashAtActive(slots: Slots, k: nat)
    requires k < MAX_SESSIONS
    ensures HashAt(slots, k) <= Active(slots)
  {
    hide Active;
    assert slots[k].Some? ==> Holds(slots, k, slots[k].value.hash);
  }

  lemma LoginExact(s: State, hash: nat, now: int, saveOk: bool)
    requires Inv(s) && Exact(s) && hash !in s.issued
    ensures var k := Room(s.slots); Exact(Save(Put(Drop(s, k), k, hash, now), saveOk))
  {
    var k := Room(s.slots);
    assert Accounted(s);
    hide Active, StoredOf, Room, Exact, Accounted;
    DropAccounted(s, k);
    PutAccounted(Drop(s, k), k, hash, now);
    SavedExact(Put(Drop(s, k), k, hash, now), saveOk);
  }

  lemma TouchExact(s: State, k: nat, now: int)
    requires Exact(s) && k < MAX_SESSIONS && s.slots[k].Some?
    ensures Exact(s.(slots := s.slots[k := Some(s.slots[k].value.(lastUsed := now))]))
  {
    var slots: Slots := s.slots[k := Some(s.slots[k].value.(lastUsed := now))];
    TouchKeepsStored(s.slots, k, now);
    ActiveFromStored(s.slots, slots);
    ActiveFromStored(slots, s.slots);
    hide Active, StoredOf;
  }

  lemma RestartExact(s: State)
    requires Inv(s) && Exact(s) && s.settled
    ensures Exact(Step(s, Restart))
    ensures StoredOf(Loaded(s.flash)) == StoredOf(s.slots)
  {
    LoadThenSave(s.flash);
    ActiveFromStored(s.slots, Loaded(s.flash));
    ActiveFromStored(Loaded(s.flash), s.slots);
    hide Active, StoredOf;
  }

  lemma LogoutAllExact(s: State, saveOk: bool)
    requires Inv(s) && Exact(s) && Enabled(s, LogoutAll(saveOk))
    ensures Exact(Step(s, LogoutAll(saveOk)))
  {
    var none: Slots := seq(MAX_SESSIONS, _ => None);
    assert forall h, i: nat :: !Holds(none, i, h);
    assert Active(none) == {};
    hide Active, StoredOf;
  }

  lemma StepExact(s: State, e: Event)
    requires Inv(s) && Exact(s) && Enabled(s, e) && (e.Restart? ==> s.settled)
    ensures Exact(Step(s, e))
  {
    hide Inv, Exact, StoredOf, Active, Room;
    match e
    case Login(hash, now, saveOk) => LoginExact(s, hash, now, saveOk);
    case Check(hash, now, saveOk) =>
      var k := Find(s.slots, hash);
      if k.Some? {
        RemoveExact(s, k.value, saveOk);
        TouchExact(s, k.value, now);
      }
    case Logout(hash, saveOk) =>
      var k := Find(s.slots, hash);
      if k.Some? { RemoveExact(s, k.value, saveOk); }
    case LogoutAll(saveOk) => LogoutAllExact(s, saveOk);
    case Restart => RestartExact(s);
  }

  lemma InitOk()
    ensures Inv(Init()) && Exact(Init())
  {
    assert forall h, i: nat :: !Holds(Init().slots, i, h);
    assert Active(Init().slots) == {};
    EmptyStored(Init().slots);
  }

  lemma {:induction false} RunInv(s: State, es: seq<Event>)
    requires Inv(s) && CanRun(s, es)
    ensures Inv(Run(s, es))
    ensures Exact(s) && RestartsSettled(s, es) ==> Exact(Run(s, es))
    decreases |es|
  {
    hide Inv, Exact, Step, Enabled;
    if es != [] {
      StepInv(s, es[0]);
      if Exact(s) && RestartsSettled(s, es) { StepExact(s, es[0]); }
      RunInv(Step(s, es[0]), es[1..]);
    }
  }

  // ------------------------------------------------ what a check accepts

  /** Whatever saves fail, a token is accepted only if a login issued it at most 30 days ago by the
      device clock. */
  lemma AcceptedWasIssued(es: seq<Event>, hash: nat, now: int)
    requires CanRun(Init(), es) && Accepts(Run(Init(), es), Some(hash), now)
    ensures var s := Run(Init(), es); hash in s.issued && now - s.issued[hash] <= LIFETIME
  {
    InitOk();
    RunInv(Init(), es);
    hide Run, CanRun, FlashOk;
  }

  /** If no restart follows a failed save, a token is accepted exactly when a login issued it at most
      30 days ago and no logout, credential change, eviction or expiry has removed it since. */
  lemma AcceptedExactly(es: seq<Event>, hash: nat, now: int)
    requires CanRun(Init(), es) && RestartsSettled(Init(), es)
    ensures var s := Run(Init(), es);
      Accepts(s, Some(hash), now) <==> hash in s.issued && hash !in s.removed && now - s.issued[hash] <= LIFETIME
  {
    InitOk();
    RunInv(Init(), es);
    var s := Run(Init(), es);
    hide Run, CanRun, RestartsSettled, FlashOk, Active, StoredOf;
    var k := Find(s.slots, Some(hash));
    assert hash in Active(s.slots) <==> k.Some?;
  }

  /** A restart after a successful save keeps exactly the active tokens and their creation times. */
  lemma RestartKeepsSessions(es: seq<Event>)
    requires CanRun(Init(), es) && RestartsSettled(Init(), es) && Run(Init(), es).settled
    ensures StoredOf(Step(Run(Init(), es), Restart).slots) == StoredOf(Run(Init(), es).slots)
  {
    InitOk();
    RunInv(Init(), es);
    hide Run, CanRun, RestartsSettled, Inv, Exact, StoredOf;
    RestartExact(Run(Init(), es));
  }

  /** In general a restart accepts exactly the tokens flash holds, removed or not. */
  lemma RestartAcceptsFlash(es: seq<Event>, hash: nat, now: int)
    requires CanRun(Init(), es)
    ensures var s := Run(Init(), es);
      Accepts(Step(s, Restart), Some(hash), now) <==>
          exists p :: p in s.flash && p.hash == hash && now - p.created <= LIFETIME
  {
    InitOk();
    RunInv(Init(), es);
    var s := Run(Init(), es);
    hide Run, CanRun, SlotsOk;
    var t := Loaded(s.flash);
    if p :| p in s.flash && p.hash == hash && now - p.created <= LIFETIME {
      var i: nat :| i < |s.flash| && s.flash[i] == p;
      assert Holds(t, i, hash);
      var k := Find(t, Some(hash));
      assert s.flash[k.value].hash == s.flash[i].hash;
    }
    if Accepts(Step(s, Restart), Some(hash), now) {
      var k := Find(t, Some(hash));
      assert s.flash[k.value] in s.flash;
    }
  }

  /** A session is evicted only when all slots are in use, and then a least recently used one. */
  lemma EvictsLeastRecent(s: State, hash: nat, now: int, saveOk: bool, h: nat)
    requires Inv(s) && Enabled(s, Login(hash, now, saveOk))
    requires h in Active(s.slots) && h !in Active(Step(s, Login(hash, now, saveOk)).slots)
    ensures forall i :: 0 <= i < MAX_SESSIONS ==> s.slots[i].Some?
    ensures exists k: nat :: Holds(s.slots, k, h) && forall i :: 0 <= i < MAX_SESSIONS ==>
        s.slots[k].value.lastUsed <= s.slots[i].value.lastUsed
  {
    var k := Room(s.slots);
    DropActive(s, k);
    PutActive(Drop(s, k), k, hash, now);
    hide Active, StoredOf, Room;
    assert h in HashAt(s.slots, k);
    assert Holds(s.slots, k, h);
  }

  // ------------------------------------------------ when a session was last used

  /** When each token was last used: a login or an accepted check uses it; of uses before a restart
      only the login is known. */
  function NoteUse(s: State, e: Event, used: map<nat, int>): map<nat, int>
    requires Enabled(s, e)
  {
    match e
    case Login(hash, now, _) => used[hash := now]
    case Check(hash, now, _) => if hash.Some? && Accepts(s, hash, now) then used[hash.value := now] else used
    case Restart => s.issued
    case _ => used
  }

  function Uses(s: State, es: seq<Event>, used: map<nat, int>): map<nat, int>
    requires CanRun(s, es)
    decreases |es|
  {
    if es == [] then used else Uses(Step(s, es[0]), es[1..], NoteUse(s, es[0], used))
  }

  ghost predicate UsesOk(s: State, used: map<nat, int>) {
    forall i: nat :: i < MAX_SESSIONS && s.slots[i].Some? ==>
        s.slots[i].value.hash in used && used[s.slots[i].value.hash] == s.slots[i].value.lastUsed
  }

  lemma StepUses(s: State, e: Event, used: map<nat, int>)
    requires Inv(s) && Enabled(s, e) && UsesOk(s, used)
    ensures UsesOk(Step(s, e), NoteUse(s, e, used))
  {
    hide StoredOf, Active, Room;
    if e.Check? && Find(s.slots, e.hash).Some? {
      var k := Find(s.slots, e.hash).value;
      forall i: nat | i < MAX_SESSIONS && i != k && s.slots[i].Some?
        ensures s.slots[i].value.hash != s.slots[k].value.hash
      {
        DistinctSlots(s, i, k);
      }
    }
  }

  lemma {:induction false} RunUses(s: State, es: seq<Event>, used: map<nat, int>)
    requires Inv(s) && CanRun(s, es) && UsesOk(s, used)
    ensures UsesOk(Run(s, es), Uses(s, es, used))
    decreases |es|
  {
    hide Inv, UsesOk, Step, Enabled, NoteUse;
    if es != [] {
      StepInv(s, es[0]);
      StepUses(s, es[0], used);
      RunUses(Step(s, es[0]), es[1..], NoteUse(s, es[0], used));
    }
  }

  /** In every run, the session a login evicts was last used no later than any other. */
  lemma EvictsLongestUnused(es: seq<Event>, hash: nat, now: int, saveOk: bool, h: nat, other: nat)
    requires CanRun(Init(), es) && Enabled(Run(Init(), es), Login(hash, now, saveOk))
    requires var s := Run(Init(), es);
      h in Active(s.slots) && other in Active(s.slots) && h !in Active(Step(s, Login(hash, now, saveOk)).slots)
    ensures var used := Uses(Init(), es, map[]);
      h in used && other in used && used[h] <= used[other]
  {
    InitOk();
    RunInv(Init(), es);
    RunUses(Init(), es, map[]);
    var s := Run(Init(), es);
    hide Run, CanRun, Uses, Inv, Step, Active;
    EvictsLeastRecent(s, hash, now, saveOk, h);
    var i: nat :| Holds(s.slots, i, other);
  }

  /** When the save of a logout fails, a restart brings the session back. */
  lemma FailedSaveUndoesLogout(hash: nat, now: int)
    ensures var es := [Login(hash, now, true), Logout(Some(hash), false), Restart];
      CanRun(Init(), es) && hash in Run(Init(), es).removed && Accepts(Run(Init(), es), Some(hash), now)
  {
    var s0, s1, s2, s3 := Init(), AfterLogin(hash, now), AfterLogout(hash, now), AfterRestart(hash, now);
    FirstLogin(hash, now);
    ThenLogout(hash, now);
    ThenRestart(hash, now);
    hide Step, Enabled;
    var a, b, c := Login(hash, now, true), Logout(Some(hash), false), Restart;
    assert [c][1..] == [] && CanRun(s2, [c]) && Run(s2, [c]) == s3;
    assert [b, c][1..] == [c] && CanRun(s1, [b, c]) && Run(s1, [b, c]) == s3;
    assert [a, b, c][1..] == [b, c] && CanRun(s0, [a, b, c]) && Run(s0, [a, b, c]) == s3;
    assert Holds(s3.slots, 0, hash);
  }

  function AfterLogin(hash: nat, now: int): State {
    State([Some(Session(hash, now, now)), None, None, None], [Stored(hash, now)], true, map[hash := now], {})
  }

  function AfterLogout(hash: nat, now: int): State {
    State([None, None, None, None], [Stored(hash, now)], false, map[hash := now], {hash})
  }

  function AfterRestart(hash: nat, now: int): State {
    AfterLogout(hash, now).(slots := [Some(Session(hash, now, now)), None, None, None])
  }

  lemma FirstLogin(hash: nat, now: int)
    ensures Enabled(Init(), Login(hash, now, true)) && Step(Init(), Login(hash, now, true)) == AfterLogin(hash, now)
  {
    RoomUnique(Init().slots, 0, Room(Init().slots));
    assert Loaded([Stored(hash, now)]) == AfterLogin(hash, now).slots;
    LoadThenSave([Stored(hash, now)]);
    hide StoredOf, Room;
    var after := Put(Drop(Init(), 0), 0, hash, now);
    assert after.slots == AfterLogin(hash, now).slots;
    assert after.removed == {} && after.issued == map[hash := now];
  }

  lemma ThenLogout(hash: nat, now: int)
    ensures Enabled(AfterLogin(hash, now), Logout(Some(hash), false))
    ensures Step(AfterLogin(hash, now), Logout(Some(hash), false)) == AfterLogout(hash, now)
  {
    hide StoredOf;
    assert Holds(AfterLogin(hash, now).slots, 0, hash);
    assert Find(AfterLogin(hash, now).slots, Some(hash)) == Some(0);
  }

  lemma ThenRestart(hash: nat, now: int)
    ensures Enabled(AfterLogout(hash, now), Restart) && Step(AfterLogout(hash, now), Restart) == AfterRestart(hash, now)
  {
  }
}
