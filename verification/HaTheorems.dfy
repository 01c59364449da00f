/** What holds over every interleaving of control requests with token issue and revoke. */
module HaTheorems {
  import opened Basics
  import opened CommandCache
  import opened HaCache
  import opened HaProtocol
  import opened HaInvariants

  /** The state after a run from start-up. */
  ghost predicate Reachable(s: State) {
    exists stored, es :: CanRun(Init(stored), es) && Run(Init(stored), es) == s
  }

  lemma ReachableInv(s: State)
    requires Reachable(s)
    ensures Inv(s)
  {
    hide Inv, Init;
    var stored, es :| CanRun(Init(stored), es) && Run(Init(stored), es) == s;
    InitInv(stored);
    RunKeepsInv(Init(stored), es);
  }

  lemma RememberingNewest(s: State, ticket: nat)
    requires Inv(s) && Remembering(s, ticket)
    ensures ticket + 1 == |s.history.tickets|
  {
    hide FlashOk, CredentialOk, HistoryOk, LocksOk, WritesOk;
    assert RequestOk(s, s.requests[s.commandLock.value]);
  }

  /** After an acknowledged write, its id is not written again until 32 other new commands have
      begun in between. */
  lemma AcknowledgedNotRepeated(s: State, i: nat, j: nat)
    requires Reachable(s) && i < j < |s.writes|
    requires s.writes[i].ok && s.writes[i].cmd.id == s.writes[j].cmd.id
    ensures s.writes[j].ticket - s.writes[i].ticket - 1 >= CACHE_SIZE
  {
    ReachableInv(s);
    hide Reachable, FlashOk, CredentialOk, SlotsFollow, LocksOk, RequestsOk;
    var v, w := s.writes[i], s.writes[j];
    assert v in s.writes && w in s.writes;
    assert WriteOk(s, v) && WriteOk(s, w);
    if Remembering(s, v.ticket) { RememberingNewest(s, v.ticket); }
  }

  /** An acknowledged command with the id is among the 32 newest. */
  predicate Remembers(h: History, n: nat, id: string) {
    InWindow(h, n) && n in h.acked && h.tickets[n].id == id
  }

  lemma NewMeansNone(h: History, cmd: Command)
    requires HistoryOk(h)
    ensures Find(h.slots, cmd).New? <==> forall n: nat :: !Remembers(h, n, cmd.id)
  {
    hide Find, HistoryOk;
    LookupExact(h, cmd);
    if n: nat :| Remembers(h, n, cmd.id) {
      assert InWindow(h, n) && n in h.acked && h.tickets[n].id == cmd.id;
    } else {
      forall n: nat | InWindow(h, n) && n in h.acked ensures h.tickets[n].id != cmd.id {
        assert !Remembers(h, n, cmd.id);
      }
    }
  }

  /** While an acknowledged command is among the 32 newest, its id is answered without a write: a
      repeat is accepted, a different command refused. Any other id goes on to claim a slot. */
  lemma LookUpDecides(s: State, r: nat)
    requires Reachable(s) && Enabled(s, LookUp(r))
    ensures forall n: nat :: Remembers(s.history, n, s.requests[r].cmd.id) ==>
              At(Step(s, LookUp(r)), r) ==
              if s.history.tickets[n] == s.requests[r].cmd then Repeating else Done(Conflicting)
    ensures At(Step(s, LookUp(r)), r).Claimed? <==>
              forall n: nat :: !Remembers(s.history, n, s.requests[r].cmd.id)
  {
    ReachableInv(s);
    hide Find, Reachable, HistoryOk, RequestsOk, FlashOk, CredentialOk, LocksOk, WritesOk, Claim;
    var h, cmd := s.history, s.requests[r].cmd;
    LookupExact(h, cmd);
    NewMeansNone(h, cmd);
    assert At(Step(s, LookUp(r)), r).Claimed? <==> Find(h.slots, cmd).New?;
    hide Step;
  }

  lemma CacheIdsDistinct(s: State, i: nat, j: nat)
    requires Reachable(s) && i < j < CACHE_SIZE && s.history.slots[i].Some? && s.history.slots[j].Some?
    ensures s.history.slots[i].value.id != s.history.slots[j].value.id
  {
    ReachableInv(s);
    if s.history.slots[i].value.id == s.history.slots[j].value.id {
      OneRecordPerId(s.history, i, j);
      assert false;
    }
  }

  /** A command is answered as accepted only if the heat pump acknowledged that very command. */
  lemma AcceptedWasPerformed(s: State, r: nat)
    requires Reachable(s) && r in s.requests && At(s, r) == Done(Accepted)
    ensures Performed(s.writes, s.requests[r].cmd)
  {
    ReachableInv(s);
    assert RequestOk(s, s.requests[r]);
  }

  predicate AllAnswered(s: State) {
    forall r :: r in s.requests ==> At(s, r).Done?
  }

  /** A handler that has answered holds neither mutex, whatever the answer, and with every handler
      and caller finished both mutexes are free. */
  lemma OutcomesReleaseLocks(s: State)
    requires Reachable(s)
    ensures forall r :: r in s.requests && At(s, r).Done? ==> s.commandLock != Some(r) && s.tokenLock != Handler(r)
    ensures AllAnswered(s) ==> s.commandLock.None?
    ensures AllAnswered(s) && (forall a :: a in s.admins ==> s.admins[a].pc.Finished?) ==> s.tokenLock.Nobody?
  {
    ReachableInv(s);
    hide Reachable, HistoryOk, RequestsOk, FlashOk, CredentialOk, WritesOk;
  }

  /** A write happens only under the generation captured when its bearer token validated. The
      bearer is then still the stored token exactly when fewer than 2^32 token changes came between. */
  lemma WritesUnderCapturedGeneration(s: State, w: Write)
    requires Reachable(s) && w in s.writes
    ensures w.token.Some? && w.genThen == w.gen
    ensures w.at <= w.when && (w.when - w.at) % GEN_RANGE == 0
    ensures w.token == Some(w.bearer) <==> w.when - w.at < GEN_RANGE
  {
    ReachableInv(s);
    hide Reachable, HistoryOk, RequestsOk, FlashOk, LocksOk;
    assert WriteOk(s, w);
    SameResidue(w.when - 1, w.at - 1);
  }

  lemma SameResidue(m: nat, n: nat)
    requires n <= m && m % GEN_RANGE == n % GEN_RANGE
    ensures (m - n) % GEN_RANGE == 0
  {
  }

  /** Outside an issue or revoke call in progress, flash holds the token in memory, so a restart
      neither loses an issued token nor brings a revoked one back. */
  lemma FlashHoldsToken(s: State)
    requires Reachable(s) && forall a :: a in s.admins ==> !s.admins[a].pc.Persisted?
    ensures s.credential.flash == s.credential.token
  {
    ReachableInv(s);
  }

  /** How far a process is from its end. */
  function Left(pc: Pc): nat {
    match pc
    case Arrived => 9
    case Validated(_, _) => 8
    case Looking(_, _) => 7
    case Claimed(_, _, _) => 6
    case Locked(_, _, _) => 5
    case Writing(_, _, _) => 4
    case Wrote(_, _) => 3
    case Closing(_, _) => 2
    case Repeating => 1
    case Done(_) => 0
  }

  function AdminLeft(pc: AdminPc): nat {
    match pc
    case Waiting => 3
    case Holding => 2
    case Persisted(_) => 1
    case Finished(_, _) => 0
  }

  /** Each step brings its own process nearer to its end and moves no other. */
  lemma StepAdvances(s: State, e: Event)
    requires Enabled(s, e) && !e.Arrive? && !e.Call?
    ensures IsHandlerEvent(e) ==> e.r in s.requests && Left(At(Step(s, e), e.r)) < Left(At(s, e.r))
    ensures !IsHandlerEvent(e) ==> e.a in s.admins && AdminLeft(Step(s, e).admins[e.a].pc) < AdminLeft(s.admins[e.a].pc)
    ensures forall r :: r in s.requests && !(IsHandlerEvent(e) && e.r == r) ==> Step(s, e).requests[r] == s.requests[r]
    ensures forall a :: a in s.admins && (IsHandlerEvent(e) || e.a != a) ==> Step(s, e).admins[a] == s.admins[a]
  {
    hide Find, Claim, Acknowledge, Publication;
  }

  /** The next event of a handler that waits for no mutex. */
  function NextOf(s: State, r: nat): Event
    requires r in s.requests && !At(s, r).Done?
  {
    match At(s, r)
    case Arrived => Validate(r, true)
    case Validated(_, _) => Parse(r, true)
    case Looking(_, _) => LookUp(r)
    case Repeating => EndRepeat(r)
    case Claimed(_, _, _) => CheckSupport(r, true)
    case Locked(_, _, _) => CheckGeneration(r)
    case Writing(_, _, _) => Bus(r, true, true)
    case Wrote(_, _) => EndWrite(r)
    case Closing(_, _) => Finish(r)
  }

  lemma HandlerMoves(s: State, r: nat)
    requires LocksOk(s) && r in s.requests && !At(s, r).Done?
    requires s.commandLock == Some(r) || s.commandLock.None?
    requires s.tokenLock == Handler(r) || s.tokenLock.Nobody?
    ensures Enabled(s, NextOf(s, r))
  {
  }

  /** A number no stored token has had. */
  lemma {:induction false} NewToken(past: seq<Option<nat>>) returns (t: nat)
    ensures forall k: nat :: t <= k ==> Some(k) !in past
  {
    if past == [] {
      t := 0;
    } else {
      t := NewToken(past[1..]);
      if past[0].Some? && past[0].value >= t { t := past[0].value + 1; }
    }
  }

  lemma CallerMoves(s: State, a: nat) returns (e: Event)
    requires a in s.admins && AdminHolds(s.admins[a].pc)
    ensures Enabled(s, e) && !e.Arrive? && !e.Call?
  {
    var t := NewToken(s.credential.past);
    e := if s.admins[a].pc.Holding? then Persist(a, true, t) else Publish(a);
  }

  /** No deadlock: while a handler or caller is unfinished, one of them can take its next step. */
  lemma SomeoneCanMove(s: State)
    requires Reachable(s)
    requires (exists r :: r in s.requests && !At(s, r).Done?) ||
        (exists a :: a in s.admins && !s.admins[a].pc.Finished?)
    ensures exists e :: Enabled(s, e) && !e.Arrive? && !e.Call?
  {
    ReachableInv(s);
    hide Reachable, HistoryOk, RequestsOk, FlashOk, CredentialOk, WritesOk, NextOf;
    if s.tokenLock.Handler? {
      HandlerMoves(s, s.tokenLock.request);
    } else if s.tokenLock.Caller? {
      var e := CallerMoves(s, s.tokenLock.admin);
    } else if s.commandLock.Some? {
      HandlerMoves(s, s.commandLock.value);
    } else if r :| r in s.requests && !At(s, r).Done? {
      HandlerMoves(s, r);
    } else {
      var a :| a in s.admins && !s.admins[a].pc.Finished?;
      assert Enabled(s, Take(a));
    }
  }
}
