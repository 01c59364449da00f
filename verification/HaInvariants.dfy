/** What every step of the control protocol keeps. */
module HaInvariants {
  import opened Basics
  import opened CommandCache
  import opened HaCache
  import opened HaProtocol

  predicate HoldsCommand(pc: Pc) {
    pc.Looking? || pc.Repeating? || pc.Claimed? || pc.Locked? || pc.Writing? || pc.Wrote? || pc.Closing?
  }

  predicate HoldsToken(pc: Pc) {
    pc.Locked? || pc.Writing? || pc.Wrote?
  }

  predicate AdminHolds(pc: AdminPc) {
    pc.Holding? || pc.Persisted?
  }

  /** A mutex is held by exactly the process whose position says so. */
  ghost predicate LocksOk(s: State) {
    && (forall r :: r in s.requests ==> (HoldsCommand(At(s, r)) <==> s.commandLock == Some(r)))
    && (forall r :: r in s.requests ==> (HoldsToken(At(s, r)) <==> s.tokenLock == Handler(r)))
    && (forall a :: a in s.admins ==> (AdminHolds(s.admins[a].pc) <==> s.tokenLock == Caller(a)))
    && (s.commandLock.Some? ==> s.commandLock.value in s.requests)
    && (s.tokenLock.Handler? ==> s.tokenLock.request in s.requests)
    && (s.tokenLock.Caller? ==> s.tokenLock.admin in s.admins)
  }

  /** The event is a step of a control handler, not of a token call. */
  predicate IsHandlerEvent(e: Event) {
    !e.Call? && !e.Take? && !e.Persist? && !e.Publish?
  }

  lemma HandlerKeepsLocks(s: State, t: State, r: nat)
    requires LocksOk(s) && r in t.requests && t.requests == s.requests[r := t.requests[r]] && t.admins == s.admins
    requires HoldsCommand(At(t, r)) <==> t.commandLock == Some(r)
    requires HoldsToken(At(t, r)) <==> t.tokenLock == Handler(r)
    requires t.commandLock == s.commandLock || (s.commandLock in {None, Some(r)} && t.commandLock in {None, Some(r)})
    requires t.tokenLock == s.tokenLock || (s.tokenLock in {Nobody, Handler(r)} && t.tokenLock in {Nobody, Handler(r)})
    ensures LocksOk(t)
  {
  }

  lemma HandlerStepLocks(s: State, e: Event)
    requires LocksOk(s) && Enabled(s, e) && IsHandlerEvent(e)
    ensures LocksOk(Step(s, e))
  {
    hide Claim, Acknowledge, Find;
    var t := Step(s, e);
    assert RequestLocks(s, e.r);
    hide LocksOk;
    HandlerKeepsLocks(s, t, e.r);
  }

  /** The mutexes a request holds, read off its position. */
  predicate RequestLocks(s: State, r: nat) {
    if r in s.requests then
      (HoldsCommand(At(s, r)) <==> s.commandLock == Some(r)) && (HoldsToken(At(s, r)) <==> s.tokenLock == Handler(r))
    else s.commandLock != Some(r) && s.tokenLock != Handler(r)
  }

  lemma AdminStepLocks(s: State, e: Event)
    requires LocksOk(s) && Enabled(s, e) && !IsHandlerEvent(e)
    ensures LocksOk(Step(s, e))
  {
    hide Publication;
  }

  lemma StepLocks(s: State, e: Event)
    requires LocksOk(s) && Enabled(s, e)
    ensures LocksOk(Step(s, e))
  {
    hide LocksOk, Step;
    if IsHandlerEvent(e) { HandlerStepLocks(s, e); } else { AdminStepLocks(s, e); }
  }

  /** Each credential value is stored once, except that revoking may repeat. */
  ghost predicate CredentialOk(c: Credential) {
    && |c.past| > 0 && c.token == c.past[|c.past| - 1]
    && c.gen == (|c.past| - 1) % GEN_RANGE
    && (forall i: nat, j: nat :: i < j < |c.past| && c.past[i] == c.past[j] ==> c.past[i] == None)
  }

  /** Flash runs ahead of memory only inside an issue or revoke call that has written it. */
  ghost predicate FlashOk(s: State) {
    if s.tokenLock.Caller? && s.tokenLock.admin in s.admins && s.admins[s.tokenLock.admin].pc.Persisted? then
      var target := s.admins[s.tokenLock.admin].pc.target;
      s.credential.flash == target && (target.Some? ==> target !in s.credential.past)
    else
      s.credential.flash == s.credential.token
  }

  lemma PublicationOk(c: Credential, target: Option<nat>)
    requires CredentialOk(c) && (target.Some? ==> target !in c.past)
    ensures CredentialOk(Publication(c, target))
  {
    GenerationSteps(|c.past| - 1);
  }

  lemma GenerationSteps(n: nat)
    ensures (n % GEN_RANGE + 1) % GEN_RANGE == (n + 1) % GEN_RANGE
  {
  }

  lemma StepCredential(s: State, e: Event)
    requires LocksOk(s) && CredentialOk(s.credential) && FlashOk(s) && Enabled(s, e)
    ensures CredentialOk(Step(s, e).credential) && FlashOk(Step(s, e))
    ensures s.credential.past <= Step(s, e).credential.past
    ensures !e.Publish? ==> Step(s, e).credential.(flash := s.credential.flash) == s.credential
  {
    hide Claim, Acknowledge, Find;
    StepLocks(s, e);
    match e
    case Publish(a) =>
      assert s.tokenLock == Caller(a);
      PublicationOk(s.credential, s.admins[a].pc.target);
    case Persist(a, ok, t) =>
      assert s.tokenLock == Caller(a);
    case _ =>
  }

  /** The bearer was the stored token at its validation, and `gen` is the generation of that moment. */
  ghost predicate Captured(c: Credential, bearer: nat, gen: nat, at: nat) {
    0 < at <= |c.past| && gen == (at - 1) % GEN_RANGE && c.past[at - 1] == Some(bearer)
  }

  predicate Tracks(pc: Pc) {
    pc.Validated? || pc.Looking? || pc.Claimed? || pc.Locked? || pc.Writing?
  }

  predicate HasTicket(pc: Pc) {
    pc.Claimed? || pc.Locked? || pc.Writing? || pc.Wrote? || pc.Closing?
  }

  /** Some write of the command was acknowledged. */
  ghost predicate Performed(writes: seq<Write>, cmd: Command) {
    exists w :: w in writes && w.ok && w.cmd == cmd
  }

  ghost predicate AckedWrite(writes: seq<Write>, ticket: nat) {
    exists w :: w in writes && w.ok && w.ticket == ticket
  }

  /** The newest ticket belongs to this request and is neither finished nor, before the bus call, written. */
  ghost predicate TicketOk(s: State, q: Request)
    requires HasTicket(q.pc)
  {
    var t := q.pc.ticket;
    && t + 1 == |s.history.tickets| && s.history.tickets[t] == q.cmd && t !in s.history.acked
    && (q.pc.Claimed? || q.pc.Locked? || q.pc.Writing? ==> forall w :: w in s.writes ==> w.ticket < t)
    && (Succeeded(q.pc) <==> AckedWrite(s.writes, t))
  }

  predicate Succeeded(pc: Pc) {
    (pc.Wrote? && pc.ok) || (pc.Closing? && pc.outcome.Accepted?)
  }

  ghost predicate RequestOk(s: State, q: Request) {
    && (Tracks(q.pc) ==> Captured(s.credential, q.bearer, q.pc.gen, q.pc.at))
    && (HasTicket(q.pc) ==> TicketOk(s, q))
    && (q.pc.Writing? ==> s.credential.token.Some? && s.credential.gen == q.pc.gen)
    && (q.pc.Repeating? || q.pc == Done(Accepted) ==> Performed(s.writes, q.cmd))
  }

  ghost predicate RequestsOk(s: State) {
    forall r :: r in s.requests ==> RequestOk(s, s.requests[r])
  }

  /** A recorded write: its ticket is its command's, and the generation was the captured one. */
  ghost predicate WriteOk(s: State, w: Write) {
    && w.ticket < |s.history.tickets| && s.history.tickets[w.ticket] == w.cmd
    && Captured(s.credential, w.bearer, w.gen, w.at)
    && w.at <= w.when <= |s.credential.past|
    && w.token.Some? && w.token == s.credential.past[w.when - 1]
    && w.gen == w.genThen == (w.when - 1) % GEN_RANGE
  }

  /** The handler that still has to remember an acknowledged write. */
  predicate Remembering(s: State, ticket: nat) {
    && s.commandLock.Some? && s.commandLock.value in s.requests
    && var pc := At(s, s.commandLock.value); Succeeded(pc) && HasTicket(pc) && pc.ticket == ticket
  }

  ghost predicate WritesOk(s: State) {
    && (forall w :: w in s.writes ==> WriteOk(s, w))
    && (forall i: nat, j: nat :: i < j < |s.writes| ==> s.writes[i].ticket < s.writes[j].ticket)
    && (forall w :: w in s.writes && w.ok ==> w.ticket in s.history.acked || Remembering(s, w.ticket))
    && (forall n :: n in s.history.acked ==> AckedWrite(s.writes, n))
  }

  ghost predicate Inv(s: State) {
    LocksOk(s) && CredentialOk(s.credential) && FlashOk(s) && HistoryOk(s.history) && RequestsOk(s) && WritesOk(s)
  }

  lemma StepHistory(s: State, e: Event)
    requires Inv(s) && Enabled(s, e)
    ensures HistoryOk(Step(s, e).history)
  {
    hide HistoryOk, Claim, Acknowledge, Find, WritesOk, CredentialOk, FlashOk, LocksOk, Captured;
    match e
    case LookUp(r) =>
      if Find(s.history.slots, s.requests[r].cmd).New? { ClaimOk(s.history, s.requests[r].cmd); }
    case Finish(r) =>
      assert RequestOk(s, s.requests[r]);
      if At(s, r).outcome.Accepted? { AcknowledgeOk(s.history, At(s, r).ticket); }
    case _ =>
  }

  /** A request keeps its facts while the histories grow and what it owns stays. */
  lemma KeepRequest(s: State, t: State, q: Request)
    requires RequestOk(s, q) && s.credential.past <= t.credential.past && s.writes <= t.writes
    requires HasTicket(q.pc) ==> t.history == s.history && t.writes == s.writes
    requires q.pc.Writing? ==> t.credential.token == s.credential.token && t.credential.gen == s.credential.gen
    ensures RequestOk(t, q)
  {
  }

  /** Only the holder of the command mutex changes the cache or writes; only an issue or revoke
      call that holds the token mutex changes the credential. */
  lemma StepOwns(s: State, e: Event)
    requires LocksOk(s) && Enabled(s, e)
    ensures s.writes <= Step(s, e).writes && s.history.tickets <= Step(s, e).history.tickets
    ensures Step(s, e).history == s.history || e.LookUp? || e.Finish?
    ensures Step(s, e).writes == s.writes || e.Bus?
    ensures e.LookUp? || e.Finish? || e.Bus? ==> s.commandLock == Some(e.r)
    ensures e.Publish? ==> s.tokenLock == Caller(e.a)
  {
    hide Find, Publication;
  }

  lemma StepMovesOne(s: State, e: Event)
    requires Enabled(s, e)
    ensures forall r :: r in Step(s, e).requests && (!IsHandlerEvent(e) || r != e.r) ==>
        r in s.requests && Step(s, e).requests[r] == s.requests[r]
    ensures forall r :: r in s.requests ==> r in Step(s, e).requests
  {
    hide Find, Publication, Claim, Acknowledge;
  }

  lemma OtherRequests(s: State, e: Event, r: nat)
    requires Inv(s) && Enabled(s, e) && r in s.requests && (!IsHandlerEvent(e) || r != e.r)
    ensures RequestOk(Step(s, e), s.requests[r])
  {
    StepCredential(s, e);
    StepOwns(s, e);
    assert RequestOk(s, s.requests[r]);
    hide Step, RequestOk, RequestsOk, HistoryOk, CredentialOk, WritesOk, FlashOk;
    KeepRequest(s, Step(s, e), s.requests[r]);
  }

  /** Validation captures the generation together with the token it compares. */
  lemma ValidateRequest(s: State, r: nat, hashed: bool)
    requires CredentialOk(s.credential) && Enabled(s, Validate(r, hashed))
    ensures RequestOk(DoValidate(s, r, hashed), DoValidate(s, r, hashed).requests[r])
  {
    hide TicketOk, Performed;
  }

  lemma ParseRequest(s: State, r: nat, ok: bool)
    requires Enabled(s, Parse(r, ok)) && RequestOk(s, s.requests[r])
    ensures RequestOk(DoParse(s, r, ok), DoParse(s, r, ok).requests[r])
  {
    hide TicketOk, Performed;
  }

  /** The moving request's facts, before it has a ticket. */
  lemma EarlyRequest(s: State, e: Event)
    requires Inv(s) && Enabled(s, e) && (e.Arrive? || e.Validate? || e.Parse? || e.EndRepeat?)
    ensures RequestOk(Step(s, e), Step(s, e).requests[e.r])
  {
    if e.r in s.requests { assert RequestOk(s, s.requests[e.r]); }
    hide HistoryOk, RequestsOk, WritesOk, LocksOk, FlashOk, TicketOk, Performed, Captured;
    if e.Validate? {
      ValidateRequest(s, e.r, e.hashed);
      hide RequestOk;
    } else if e.Parse? {
      ParseRequest(s, e.r, e.wellFormed);
      hide RequestOk;
    } else {
      hide CredentialOk;
    }
  }

  lemma ClaimedRequest(s: State, e: Event)
    requires Inv(s) && Enabled(s, e) && (e.CheckSupport? || e.CheckGeneration?)
    ensures RequestOk(Step(s, e), Step(s, e).requests[e.r])
  {
    assert RequestOk(s, s.requests[e.r]);
    hide HistoryOk, RequestsOk, WritesOk, LocksOk, FlashOk, CredentialOk, Captured, Performed;
  }

  /** A repeat is answered from a record, and a record stands for an acknowledged write. */
  lemma DuplicatePerformed(s: State, cmd: Command)
    requires HistoryOk(s.history) && WritesOk(s) && Find(s.history.slots, cmd).Duplicate?
    ensures Performed(s.writes, cmd)
  {
    LookupExact(s.history, cmd);
    hide Find, SlotsFollow, Spaced;
    var n: nat :| InWindow(s.history, n) && n in s.history.acked && s.history.tickets[n].id == cmd.id;
    assert AckedWrite(s.writes, n);
  }

  /** A new claim's ticket is newer than every recorded write. */
  lemma FreshTicket(s: State, q: Request)
    requires HistoryOk(s.history) && WritesOk(s) && q.pc.Claimed? && q.pc.ticket == |s.history.tickets|
    ensures TicketOk(s.(history := Claim(s.history, q.cmd)), q)
  {
    hide SlotsFollow, Spaced, Captured;
    forall w | w in s.writes
      ensures w.ticket < |s.history.tickets|
    {
      assert WriteOk(s, w);
    }
  }

  lemma LookUpRequest(s: State, r: nat)
    requires Inv(s) && Enabled(s, LookUp(r))
    ensures RequestOk(Step(s, LookUp(r)), Step(s, LookUp(r)).requests[r])
  {
    var cmd, t := s.requests[r].cmd, Step(s, LookUp(r));
    assert RequestOk(s, s.requests[r]);
    if Find(s.history.slots, cmd).Duplicate? { DuplicatePerformed(s, cmd); }
    if Find(s.history.slots, cmd).New? {
      FreshTicket(s, t.requests[r]);
      KeepTicket(s.(history := Claim(s.history, cmd)), t, t.requests[r]);
    }
    hide Find, LocksOk, FlashOk, RequestsOk, CredentialOk, HistoryOk, WritesOk, Performed, Captured, TicketOk, Claim;
  }

  lemma KeepTicket(s: State, t: State, q: Request)
    requires HasTicket(q.pc) && TicketOk(s, q) && t.history == s.history && t.writes == s.writes
    ensures TicketOk(t, q)
  {
  }

  lemma BusRequest(s: State, e: Event)
    requires Inv(s) && Enabled(s, e) && e.Bus?
    ensures RequestOk(Step(s, e), Step(s, e).requests[e.r])
  {
    assert RequestOk(s, s.requests[e.r]);
    hide HistoryOk, LocksOk, FlashOk, RequestsOk, WritesOk, CredentialOk, Captured, Performed;
    var t := Step(s, e);
    if e.ok { assert t.writes[|t.writes| - 1] in t.writes; }
  }

  lemma EndWriteRequest(s: State, e: Event)
    requires Inv(s) && Enabled(s, e) && e.EndWrite?
    ensures RequestOk(Step(s, e), Step(s, e).requests[e.r])
  {
    assert RequestOk(s, s.requests[e.r]);
    hide HistoryOk, LocksOk, FlashOk, RequestsOk, WritesOk, CredentialOk, Captured, Performed, AckedWrite;
  }

  lemma FinishRequest(s: State, e: Event)
    requires Inv(s) && Enabled(s, e) && e.Finish?
    ensures RequestOk(Step(s, e), Step(s, e).requests[e.r])
  {
    var q := s.requests[e.r];
    assert RequestOk(s, q);
    assert WritesOk(s);
    hide HistoryOk, LocksOk, FlashOk, RequestsOk, CredentialOk, Captured, Acknowledge;
    if q.pc.outcome.Accepted? {
      var w :| w in s.writes && w.ok && w.ticket == q.pc.ticket;
      assert WriteOk(s, w);
    }
  }

  lemma StepRequests(s: State, e: Event)
    requires Inv(s) && Enabled(s, e)
    ensures RequestsOk(Step(s, e))
  {
    var t := Step(s, e);
    StepMovesOne(s, e);
    if IsHandlerEvent(e) {
      if e.LookUp? { LookUpRequest(s, e.r); }
      else if e.CheckSupport? || e.CheckGeneration? { ClaimedRequest(s, e); }
      else if e.Bus? { BusRequest(s, e); }
      else if e.EndWrite? { EndWriteRequest(s, e); }
      else if e.Finish? { FinishRequest(s, e); }
      else { EarlyRequest(s, e); }
    }
    hide Step, RequestOk, Inv;
    forall r | r in t.requests
      ensures RequestOk(t, t.requests[r])
    {
      if !IsHandlerEvent(e) || r != e.r { OtherRequests(s, e, r); }
    }
  }

  /** Recorded writes keep their facts while the histories grow. */
  lemma KeepWrites(s: State, t: State)
    requires WritesOk(s) && t.writes == s.writes && t.history.acked == s.history.acked
    requires s.credential.past <= t.credential.past && s.history.tickets <= t.history.tickets
    requires forall n :: Remembering(s, n) ==> Remembering(t, n)
    ensures WritesOk(t)
  {
  }

  lemma KeepRemembering(s: State, e: Event, n: nat)
    requires Inv(s) && Enabled(s, e) && !e.Finish? && Remembering(s, n)
    ensures Remembering(Step(s, e), n)
  {
    hide Find, Claim, FlashOk, HistoryOk, RequestsOk, WritesOk, CredentialOk, Publication;
  }

  /** A new write record meets what is recorded of every write. */
  lemma BusRecordOk(s: State, e: Event)
    requires Inv(s) && Enabled(s, e) && e.Bus? && e.sent
    ensures var t := Step(s, e);
            && |t.writes| == |s.writes| + 1 && t.writes[..|s.writes|] == s.writes
            && WriteOk(t, t.writes[|s.writes|]) && t.writes[|s.writes|].ticket == At(s, e.r).ticket
            && t.writes[|s.writes|].ok == e.ok
  {
    assert RequestOk(s, s.requests[e.r]);
    hide HistoryOk, FlashOk, RequestsOk, LocksOk, WritesOk, AckedWrite, Performed;
  }

  lemma BusWrites(s: State, e: Event)
    requires Inv(s) && Enabled(s, e) && e.Bus?
    ensures WritesOk(Step(s, e))
  {
    hide HistoryOk, FlashOk, CredentialOk, Captured;
    var q, t := s.requests[e.r], Step(s, e);
    assert RequestOk(s, q);
    assert s.commandLock == Some(e.r);
    hide RequestsOk, LocksOk;
    if e.sent { BusRecordOk(s, e); }
    forall n | n in s.history.acked
      ensures AckedWrite(t.writes, n)
    {
      var w :| w in s.writes && w.ok && w.ticket == n;
      assert w in t.writes;
    }
  }

  lemma FinishWrites(s: State, e: Event)
    requires Inv(s) && Enabled(s, e) && e.Finish?
    ensures WritesOk(Step(s, e))
  {
    assert RequestOk(s, s.requests[e.r]);
    assert s.commandLock == Some(e.r);
    hide HistoryOk, FlashOk, RequestsOk, LocksOk, CredentialOk, Captured;
  }

  lemma StepWrites(s: State, e: Event)
    requires Inv(s) && Enabled(s, e)
    ensures WritesOk(Step(s, e))
  {
    var t := Step(s, e);
    if e.Bus? {
      BusWrites(s, e);
    } else if e.Finish? {
      FinishWrites(s, e);
    } else {
      StepOwns(s, e);
      StepCredential(s, e);
      forall n | Remembering(s, n)
        ensures Remembering(t, n)
      {
        KeepRemembering(s, e, n);
      }
      assert t.history.acked == s.history.acked;
      hide Step, Remembering, WriteOk, LocksOk, HistoryOk, RequestsOk, FlashOk, CredentialOk, WritesOk;
      KeepWrites(s, t);
    }
  }

  lemma StepKeepsInv(s: State, e: Event)
    requires Inv(s) && Enabled(s, e)
    ensures Inv(Step(s, e))
  {
    StepLocks(s, e);
    StepCredential(s, e);
    StepHistory(s, e);
    StepRequests(s, e);
    StepWrites(s, e);
    hide Step, LocksOk, CredentialOk, FlashOk, HistoryOk, RequestsOk, WritesOk;
  }

  lemma InitInv(stored: Option<nat>)
    ensures Inv(Init(stored))
  {
  }

  /** The invariant holds in every state a run from start-up reaches. */
  lemma {:induction false} RunKeepsInv(s: State, es: seq<Event>)
    requires Inv(s) && CanRun(s, es)
    ensures Inv(Run(s, es))
    decreases |es|
  {
    hide Inv, Step, Enabled;
    if es != [] {
      StepKeepsInv(s, es[0]);
      RunKeepsInv(Step(s, es[0]), es[1..]);
    }
  }
}
