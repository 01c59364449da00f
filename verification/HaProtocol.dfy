/** The Home Assistant control handlers and the token issue and revoke calls, interleaved step by
    step. The command mutex guards the cache; the token mutex guards a control write against token
    changes. Tokens are numbers, the hash is injective, and an issued token is new. */
module HaProtocol {
  import opened Basics
  import opened CommandCache
  import opened HaCache

  const GEN_RANGE: nat := 0x1_0000_0000

  datatype Outcome = Unauthorized | Unprocessable | Accepted | Conflicting | Unavailable | Rotated | NotAccepted

  /** Where a control handler stands. `gen` is the generation captured when the bearer token
      validated; `at` counts the token values stored up to that moment. */
  datatype Pc =
    | Arrived
    | Validated(gen: nat, at: nat)
    | Looking(gen: nat, at: nat)
    | Repeating
    | Claimed(gen: nat, at: nat, ticket: nat)
    | Locked(gen: nat, at: nat, ticket: nat)
    | Writing(gen: nat, at: nat, ticket: nat)
    | Wrote(ticket: nat, ok: bool)
    | Closing(ticket: nat, outcome: Outcome)
    | Done(outcome: Outcome)

  datatype Request = Request(cmd: Command, bearer: nat, pc: Pc)

  /** An issue or revoke call. `target` is the token state to publish: None revokes. `given` is the
      token the caller gets. */
  datatype AdminPc = Waiting | Holding | Persisted(target: Option<nat>) | Finished(ok: bool, given: Option<nat>)
  datatype Admin = Admin(revoke: bool, pc: AdminPc)

  /** The stored credential; `past` lists every value it has had, the newest last. */
  datatype Credential = Credential(token: Option<nat>, gen: nat, flash: Option<nat>, past: seq<Option<nat>>)

  datatype Owner = Nobody | Handler(request: nat) | Caller(admin: nat)

  /** One call that reached the heat pump's bus, with the credential at that moment. */
  datatype Write = Write(ticket: nat, cmd: Command, bearer: nat, gen: nat, at: nat,
      token: Option<nat>, genThen: nat, when: nat, ok: bool)

  datatype State = State(
    commandLock: Option<nat>, tokenLock: Owner, history: History, credential: Credential,
    requests: map<nat, Request>, admins: map<nat, Admin>, writes: seq<Write>)

  datatype Event =
    | Arrive(r: nat, cmd: Command, bearer: nat)
    | Validate(r: nat, hashed: bool)
    | Parse(r: nat, wellFormed: bool)
    | LookUp(r: nat)
    | EndRepeat(r: nat)
    | CheckSupport(r: nat, supported: bool)
    | CheckGeneration(r: nat)
    | Bus(r: nat, sent: bool, ok: bool)
    | EndWrite(r: nat)
    | Finish(r: nat)
    | Call(a: nat, revoke: bool)
    | Take(a: nat)
    | Persist(a: nat, ok: bool, newToken: nat)
    | Publish(a: nat)

  function Init(stored: Option<nat>): State {
    State(None, Nobody, EmptyHistory(), Credential(stored, 0, stored, [stored]), map[], map[], [])
  }

  function At(s: State, r: nat): Pc
    requires r in s.requests
  {
    s.requests[r].pc
  }

  function Move(s: State, r: nat, pc: Pc): State
    requires r in s.requests
  {
    s.(requests := s.requests[r := s.requests[r].(pc := pc)])
  }

  function MoveAdmin(s: State, a: nat, pc: AdminPc): State
    requires a in s.admins
  {
    s.(admins := s.admins[a := s.admins[a].(pc := pc)])
  }

  /** The process an event belongs to is ready for it, and a mutex it takes is free. */
  predicate Enabled(s: State, e: Event) {
    match e
    case Arrive(r, _, _) => r !in s.requests
    case Validate(r, _) => r in s.requests && At(s, r).Arrived?
    case Parse(r, ok) => r in s.requests && At(s, r).Validated? && (ok ==> s.commandLock.None?)
    case LookUp(r) => r in s.requests && At(s, r).Looking?
    case EndRepeat(r) => r in s.requests && At(s, r).Repeating?
    case CheckSupport(r, ok) => r in s.requests && At(s, r).Claimed? && (ok ==> s.tokenLock.Nobody?)
    case CheckGeneration(r) => r in s.requests && At(s, r).Locked?
    case Bus(r, sent, ok) => r in s.requests && At(s, r).Writing? && (ok ==> sent)
    case EndWrite(r) => r in s.requests && At(s, r).Wrote?
    case Finish(r) => r in s.requests && At(s, r).Closing?
    case Call(a, _) => a !in s.admins
    case Take(a) => a in s.admins && s.admins[a].pc.Waiting? && s.tokenLock.Nobody?
    case Persist(a, _, t) => a in s.admins && s.admins[a].pc.Holding? && Some(t) !in s.credential.past
    case Publish(a) => a in s.admins && s.admins[a].pc.Persisted?
  }

  function StartRequest(s: State, r: nat, cmd: Command, bearer: nat): State {
    s.(requests := s.requests[r := Request(cmd, bearer, Arrived)])
  }

  /** Compare the bearer with the stored token and capture the generation, in one critical section. */
  function DoValidate(s: State, r: nat, hashed: bool): State
    requires r in s.requests
  {
    var c := s.credential;
    if hashed && c.token == Some(s.requests[r].bearer) then Move(s, r, Validated(c.gen, |c.past|))
        else Move(s, r, Done(Unauthorized))
  }

  /** A well-formed body goes on to take the command mutex. */
  function DoParse(s: State, r: nat, wellFormed: bool): State
    requires r in s.requests && At(s, r).Validated?
  {
    var pc := At(s, r);
    if wellFormed then Move(s, r, Looking(pc.gen, pc.at)).(commandLock := Some(r)) else Move(s, r, Done(Unprocessable))
  }

  function DoLookUp(s: State, r: nat): State
    requires r in s.requests && At(s, r).Looking?
  {
    var cmd, pc := s.requests[r].cmd, At(s, r);
    match Find(s.history.slots, cmd)
    case Duplicate(_) => Move(s, r, Repeating)
    case Conflict => Move(s, r, Done(Conflicting)).(commandLock := None)
    case New => Move(s, r, Claimed(pc.gen, pc.at, |s.history.tickets|)).(history := Claim(s.history, cmd))
  }

  /** A supported control goes on to take the token mutex. */
  function DoCheckSupport(s: State, r: nat, supported: bool): State
    requires r in s.requests && At(s, r).Claimed?
  {
    var pc := At(s, r);
    if supported then Move(s, r, Locked(pc.gen, pc.at, pc.ticket)).(tokenLock := Handler(r))
    else Move(s, r, Closing(pc.ticket, Unavailable))
  }

  function DoCheckGeneration(s: State, r: nat): State
    requires r in s.requests && At(s, r).Locked?
  {
    var pc := At(s, r);
    if s.credential.token.Some? && s.credential.gen == pc.gen then Move(s, r, Writing(pc.gen, pc.at, pc.ticket))
    else Move(s, r, Closing(pc.ticket, Rotated)).(tokenLock := Nobody)
  }

  /** The control call; one that has no register to write reports failure without a transfer. */
  function DoBus(s: State, r: nat, sent: bool, ok: bool): State
    requires r in s.requests && At(s, r).Writing?
  {
    var q, pc, c := s.requests[r], At(s, r), s.credential;
    var w := Write(pc.ticket, q.cmd, q.bearer, pc.gen, pc.at, c.token, c.gen, |c.past|, ok);
    Move(s, r, Wrote(pc.ticket, ok)).(writes := if sent then s.writes + [w] else s.writes)
  }

  function DoEndWrite(s: State, r: nat): State
    requires r in s.requests && At(s, r).Wrote?
  {
    var pc := At(s, r);
    Move(s, r, Closing(pc.ticket, if pc.ok then Accepted else NotAccepted)).(tokenLock := Nobody)
  }

  function DoFinish(s: State, r: nat): State
    requires r in s.requests && At(s, r).Closing?
  {
    var pc := At(s, r);
    var h := if pc.outcome.Accepted? then Acknowledge(s.history, pc.ticket, s.requests[r].cmd) else s.history;
    Move(s, r, Done(pc.outcome)).(commandLock := None, history := h)
  }

  /** Issue and revoke write flash first; a failure gives up and changes nothing. */
  function DoPersist(s: State, a: nat, ok: bool, newToken: nat): State
    requires a in s.admins
  {
    var target := if s.admins[a].revoke then None else Some(newToken);
    if ok then MoveAdmin(s, a, Persisted(target)).(credential := s.credential.(flash := target))
    else MoveAdmin(s, a, Finished(false, None)).(tokenLock := Nobody)
  }

  function Publication(c: Credential, target: Option<nat>): Credential {
    c.(token := target, gen := (c.gen + 1) % GEN_RANGE, past := c.past + [target])
  }

  function DoPublish(s: State, a: nat): State
    requires a in s.admins && s.admins[a].pc.Persisted?
  {
    var target := s.admins[a].pc.target;
    MoveAdmin(s, a, Finished(true, target)).(credential := Publication(s.credential, target), tokenLock := Nobody)
  }

  function Step(s: State, e: Event): State
    requires Enabled(s, e)
  {
    match e
    case Arrive(r, cmd, bearer) => StartRequest(s, r, cmd, bearer)
    case Validate(r, hashed) => DoValidate(s, r, hashed)
    case Parse(r, ok) => DoParse(s, r, ok)
    case LookUp(r) => DoLookUp(s, r)
    case EndRepeat(r) => Move(s, r, Done(Accepted)).(commandLock := None)
    case CheckSupport(r, ok) => DoCheckSupport(s, r, ok)
    case CheckGeneration(r) => DoCheckGeneration(s, r)
    case Bus(r, sent, ok) => DoBus(s, r, sent, ok)
    case EndWrite(r) => DoEndWrite(s, r)
    case Finish(r) => DoFinish(s, r)
    case Call(a, revoke) => s.(admins := s.admins[a := Admin(revoke, Waiting)])
    case Take(a) => MoveAdmin(s, a, Holding).(tokenLock := Caller(a))
    case Persist(a, ok, t) => DoPersist(s, a, ok, t)
    case Publish(a) => DoPublish(s, a)
  }

  /** A run: every event is enabled when it happens. */
  predicate CanRun(s: State, es: seq<Event>)
    decreases |es|
  {
    es == [] || (Enabled(s, es[0]) && CanRun(Step(s, es[0]), es[1..]))
  }

  function Run(s: State, es: seq<Event>): State
    requires CanRun(s, es)
    decreases |es|
  {
    if es == [] then s else Run(Step(s, es[0]), es[1..])
  }
}
