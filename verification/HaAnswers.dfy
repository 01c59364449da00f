/** Which answer a control request gets, read off what it met on its way: the credential, the body,
    the acknowledged commands of the newest 32, the heat pump's support and its acknowledgement. */
module HaAnswers {
  import opened Basics
  import opened CommandCache
  import opened HaCache
  import opened HaProtocol
  import opened HaInvariants
  import opened HaTheorems

  /** This very command was acknowledged and is among the 32 newest. */
  ghost predicate RemembersSame(h: History, cmd: Command) {
    exists n: nat :: Remembers(h, n, cmd.id) && h.tickets[n] == cmd
  }

  /** A different command with the id was acknowledged and is among the 32 newest. */
  ghost predicate RemembersOther(h: History, cmd: Command) {
    exists n: nat :: Remembers(h, n, cmd.id) && h.tickets[n] != cmd
  }

  /** The answer that what a step of a request meets calls for, if it calls for one. */
  ghost function Verdict(s: State, e: Event): Option<Outcome>
    requires Enabled(s, e)
  {
    match e
    case Validate(r, hashed) =>
      if !hashed || s.credential.token != Some(s.requests[r].bearer) then Some(Unauthorized) else None
    case Parse(_, wellFormed) => if wellFormed then None else Some(Unprocessable)
    case LookUp(r) =>
      if RemembersSame(s.history, s.requests[r].cmd) then Some(Accepted)
      else if RemembersOther(s.history, s.requests[r].cmd) then Some(Conflicting)
      else None
    case CheckSupport(_, supported) => if supported then None else Some(Unavailable)
    case CheckGeneration(r) =>
      if s.credential.token.None? || s.credential.gen != At(s, r).gen then Some(Rotated) else None
    case Bus(_, _, ok) => Some(if ok then Accepted else NotAccepted)
    case _ => None
  }

  /** The verdict a request has met after one more event. */
  ghost function Met(s: State, e: Event, r: nat, before: Option<Outcome>): Option<Outcome>
    requires Enabled(s, e)
  {
    if IsHandlerEvent(e) && e.r == r && Verdict(s, e).Some? then Verdict(s, e) else before
  }

  /** The last verdict a request has met over a run, `before` if it met none. */
  ghost function Cause(s: State, es: seq<Event>, r: nat, before: Option<Outcome>): Option<Outcome>
    requires CanRun(s, es)
    decreases |es|
  {
    if es == [] then before else Cause(Step(s, es[0]), es[1..], r, Met(s, es[0], r, before))
  }

  /** The answer a request is bound for. */
  function Bound(pc: Pc): Option<Outcome> {
    match pc
    case Repeating => Some(Accepted)
    case Wrote(_, ok) => Some(if ok then Accepted else NotAccepted)
    case Closing(_, outcome) => Some(outcome)
    case Done(outcome) => Some(outcome)
    case _ => None
  }

  function BoundFor(s: State, r: nat): Option<Outcome> {
    if r in s.requests then Bound(At(s, r)) else None
  }

  lemma LookUpBinds(s: State, r: nat)
    requires HistoryOk(s.history) && Enabled(s, LookUp(r))
    ensures Bound(At(Step(s, LookUp(r)), r)) == Verdict(s, LookUp(r))
  {
    hide Find, HistoryOk, Claim;
    LookupExact(s.history, s.requests[r].cmd);
    if n: nat :| Remembers(s.history, n, s.requests[r].cmd.id) {
      assert InWindow(s.history, n) && n in s.history.acked;
    }
  }

  /** A step of the request itself. */
  lemma OwnStepBinds(s: State, e: Event)
    requires HistoryOk(s.history) && Enabled(s, e) && IsHandlerEvent(e)
    ensures BoundFor(Step(s, e), e.r) == if Verdict(s, e).Some? then Verdict(s, e) else BoundFor(s, e.r)
    ensures Verdict(s, e).Some? ==> BoundFor(s, e.r).None?
  {
    hide Find, HistoryOk, Claim, Acknowledge, RemembersSame, RemembersOther;
    if e.LookUp? { LookUpBinds(s, e.r); }
  }

  /** A request is bound for an answer from the step whose verdict it is, and meets no other after. */
  lemma StepBinds(s: State, e: Event, r: nat)
    requires Inv(s) && Enabled(s, e)
    ensures Met(s, e, r, BoundFor(s, r)) == BoundFor(Step(s, e), r)
    ensures IsHandlerEvent(e) && e.r == r && Verdict(s, e).Some? ==> BoundFor(s, r).None?
  {
    hide Step, Enabled, HistoryOk, RequestsOk, FlashOk, CredentialOk, LocksOk, WritesOk, Verdict;
    if IsHandlerEvent(e) && e.r == r { OwnStepBinds(s, e); } else { StepMovesOne(s, e); }
  }

  lemma {:induction false} RunBinds(s: State, es: seq<Event>, r: nat)
    requires Inv(s) && CanRun(s, es)
    ensures Cause(s, es, r, BoundFor(s, r)) == BoundFor(Run(s, es), r)
    decreases |es|
  {
    hide Inv, Step, Enabled, Met, BoundFor;
    if es != [] {
      StepKeepsInv(s, es[0]);
      StepBinds(s, es[0], r);
      RunBinds(Step(s, es[0]), es[1..], r);
    }
  }

  /** In every run, a request is answered with an outcome exactly if that is the verdict it met; a
      request that met none has not been answered. */
  lemma AnswersAreVerdicts(stored: Option<nat>, es: seq<Event>, r: nat)
    requires CanRun(Init(stored), es) && r in Run(Init(stored), es).requests
    ensures var pc := At(Run(Init(stored), es), r);
            forall o :: pc == Done(o) ==> Cause(Init(stored), es, r, None) == Some(o)
    ensures var pc := At(Run(Init(stored), es), r);
            Cause(Init(stored), es, r, None).Some? <==>
            pc.Done? || pc.Repeating? || pc.Wrote? || pc.Closing?
  {
    InitInv(stored);
    assert BoundFor(Init(stored), r) == None;
    RunBinds(Init(stored), es, r);
    hide Inv, Init, Step, Enabled;
  }

  predicate Repeats(s: State, r: nat) {
    r in s.requests && (At(s, r).Repeating? || At(s, r) == Done(Accepted))
  }

  lemma RepeatStays(s: State, e: Event, r: nat)
    requires Enabled(s, e) && Repeats(s, r)
    ensures Repeats(Step(s, e), r)
    ensures IsHandlerEvent(e) && e.r == r ==>
              e.EndRepeat? && At(Step(s, e), r) == Done(Accepted) && Step(s, e).writes == s.writes &&
              Step(s, e).history == s.history && Step(s, e).credential == s.credential
  {
    hide Find, Claim, Acknowledge, Publication;
  }

  lemma {:induction false} RepeatEnds(s: State, es: seq<Event>, r: nat)
    requires CanRun(s, es) && Repeats(s, r)
    ensures Repeats(Run(s, es), r)
    ensures forall e :: e in es && IsHandlerEvent(e) && e.r == r ==> e == EndRepeat(r)
    decreases |es|
  {
    hide Step, Enabled, Repeats;
    if es != [] {
      RepeatStays(s, es[0], r);
      RepeatEnds(Step(s, es[0]), es[1..], r);
      assert forall e :: e in es ==> e == es[0] || e in es[1..];
    }
  }

  /** A repeat of a remembered command: however the run goes on, the only step the request still
      takes is to be answered as accepted. It writes nothing and leaves the cache alone. */
  lemma RepeatIsAccepted(s: State, r: nat, n: nat, es: seq<Event>)
    requires Reachable(s) && Enabled(s, LookUp(r))
    requires Remembers(s.history, n, s.requests[r].cmd.id) && s.history.tickets[n] == s.requests[r].cmd
    requires CanRun(Step(s, LookUp(r)), es)
    ensures var t := Step(s, LookUp(r));
            t.writes == s.writes && t.history == s.history && t.credential == s.credential && Enabled(t, EndRepeat(r))
    ensures r in Run(Step(s, LookUp(r)), es).requests
    ensures var pc := At(Run(Step(s, LookUp(r)), es), r); pc.Repeating? || pc == Done(Accepted)
    ensures forall e :: e in es && IsHandlerEvent(e) && e.r == r ==> e == EndRepeat(r)
  {
    hide Find, Reachable, Run, Claim;
    LookUpDecides(s, r);
    var t := Step(s, LookUp(r));
    assert At(t, r).Repeating?;
    RepeatEnds(t, es, r);
  }

  /** The commands a run sent over the bus and whether each was acknowledged, in order. */
  function Transfers(s: State, es: seq<Event>): seq<(Command, bool)>
    requires CanRun(s, es)
    decreases |es|
  {
    if es == [] then []
    else
      (if es[0].Bus? && es[0].sent then [(s.requests[es[0].r].cmd, es[0].ok)] else []) +
      Transfers(Step(s, es[0]), es[1..])
  }

  function Logged(writes: seq<Write>): seq<(Command, bool)> {
    seq(|writes|, i requires 0 <= i < |writes| => (writes[i].cmd, writes[i].ok))
  }

  lemma StepLogs(s: State, e: Event)
    requires Enabled(s, e)
    ensures Logged(Step(s, e).writes) ==
            Logged(s.writes) + if e.Bus? && e.sent then [(s.requests[e.r].cmd, e.ok)] else []
  {
    hide Find, Claim, Acknowledge, Publication;
  }

  /** The recorded writes are exactly the transfers of the run, failed ones included. */
  lemma {:induction false} WritesAreTransfers(s: State, es: seq<Event>)
    requires CanRun(s, es)
    ensures Logged(Run(s, es).writes) == Logged(s.writes) + Transfers(s, es)
    decreases |es|
  {
    hide Step, Enabled, Logged;
    if es != [] {
      StepLogs(s, es[0]);
      WritesAreTransfers(Step(s, es[0]), es[1..]);
    }
  }

  lemma StepKeepsSent(s: State, e: Event, r: nat)
    requires Enabled(s, e) && r in Step(s, e).requests
    ensures r !in s.requests ==> e == Arrive(r, Step(s, e).requests[r].cmd, Step(s, e).requests[r].bearer)
    ensures r in s.requests ==>
              Step(s, e).requests[r].cmd == s.requests[r].cmd && Step(s, e).requests[r].bearer == s.requests[r].bearer
  {
    hide Find, Claim, Acknowledge, Publication;
  }

  /** A request is carried through with the command and the bearer token it arrived with. */
  lemma {:induction false} RequestAsSent(s: State, es: seq<Event>, r: nat)
    requires CanRun(s, es) && r in Run(s, es).requests
    ensures var q := Run(s, es).requests[r];
            if r in s.requests then q.cmd == s.requests[r].cmd && q.bearer == s.requests[r].bearer
            else Arrive(r, q.cmd, q.bearer) in es
    decreases |es|
  {
    hide Step, Enabled;
    if es != [] {
      RequestAsSent(Step(s, es[0]), es[1..], r);
      if r in Step(s, es[0]).requests {
        StepKeepsSent(s, es[0], r);
      } else {
        StepMovesOne(s, es[0]);
      }
    }
  }
}
