/** What issuing and revoking a token leave behind, and which token is stored after any run. */
module HaTokens {
  import opened Basics
  import opened CommandCache
  import opened HaCache
  import opened HaProtocol
  import opened HaInvariants
  import opened HaTheorems

  /** A call that has written flash wrote a token exactly if it is an issue. */
  ghost predicate TargetsOk(s: State) {
    forall a :: a in s.admins && s.admins[a].pc.Persisted? ==> (s.admins[a].pc.target.None? <==> s.admins[a].revoke)
  }

  lemma StepTargets(s: State, e: Event)
    requires TargetsOk(s) && Enabled(s, e)
    ensures TargetsOk(Step(s, e))
  {
    hide Find, Claim, Acknowledge, Publication;
    if IsHandlerEvent(e) {
      assert Step(s, e).admins == s.admins;
    }
  }

  lemma {:induction false} RunTargets(s: State, es: seq<Event>)
    requires TargetsOk(s) && CanRun(s, es)
    ensures TargetsOk(Run(s, es))
    decreases |es|
  {
    hide Step, Enabled, TargetsOk;
    if es != [] {
      StepTargets(s, es[0]);
      RunTargets(Step(s, es[0]), es[1..]);
    }
  }

  lemma ReachableTargets(s: State)
    requires Reachable(s)
    ensures TargetsOk(s)
  {
    var stored, es :| CanRun(Init(stored), es) && Run(Init(stored), es) == s;
    RunTargets(Init(stored), es);
  }

  /** A revoke that succeeds leaves no token, in memory or in flash. An issue that succeeds stores,
      in both, exactly the token it hands out, and that token was never stored before. */
  lemma SuccessStores(s: State, a: nat)
    requires Reachable(s) && Enabled(s, Publish(a))
    ensures var t, given := Step(s, Publish(a)), Step(s, Publish(a)).admins[a].pc;
            && given.Finished? && given.ok
            && t.credential.token == given.given && t.credential.flash == given.given
            && (s.admins[a].revoke <==> given.given == None)
            && (given.given.Some? ==> given.given !in s.credential.past)
  {
    ReachableInv(s);
    ReachableTargets(s);
    assert s.tokenLock == Caller(a);
    hide Reachable, HistoryOk, RequestsOk, CredentialOk, LocksOk, WritesOk;
  }

  /** A call that fails hands out nothing and changes neither memory nor flash. */
  lemma FailureKeeps(s: State, a: nat, newToken: nat)
    requires Reachable(s) && Enabled(s, Persist(a, false, newToken))
    ensures var t := Step(s, Persist(a, false, newToken));
            t.admins[a].pc == Finished(false, None) && t.credential == s.credential && t.tokenLock.Nobody?
  {
  }

  /** A run's token calls told from its events alone: the token the last successful call handed out,
      none for a revoke, what each call wrote to flash, and which calls are revokes. */
  datatype Calls = Calls(given: Option<nat>, wrote: map<nat, Option<nat>>, revokes: map<nat, bool>)

  function Tell(c: Calls, e: Event): Calls {
    match e
    case Call(a, revoke) => c.(revokes := c.revokes[a := revoke])
    case Persist(a, ok, t) =>
      if ok && a in c.revokes then c.(wrote := c.wrote[a := if c.revokes[a] then None else Some(t)]) else c
    case Publish(a) => if a in c.wrote then c.(given := c.wrote[a]) else c
    case _ => c
  }

  function TellAll(c: Calls, es: seq<Event>): Calls
    decreases |es|
  {
    if es == [] then c else TellAll(Tell(c, es[0]), es[1..])
  }

  ghost predicate Follows(s: State, c: Calls) {
    && s.credential.token == c.given
    && (forall a :: a in s.admins ==> a in c.revokes && c.revokes[a] == s.admins[a].revoke)
    && (forall a :: a in s.admins && s.admins[a].pc.Persisted? ==> a in c.wrote && c.wrote[a] == s.admins[a].pc.target)
  }

  lemma HandlerKeepsTokens(s: State, e: Event)
    requires Enabled(s, e) && IsHandlerEvent(e)
    ensures Step(s, e).admins == s.admins && Step(s, e).credential == s.credential
  {
    hide Find, Claim, Acknowledge;
  }

  lemma StepFollows(s: State, c: Calls, e: Event)
    requires Enabled(s, e) && Follows(s, c)
    ensures Follows(Step(s, e), Tell(c, e))
  {
    hide Find, Claim, Acknowledge;
    if IsHandlerEvent(e) {
      HandlerKeepsTokens(s, e);
      hide Step, Enabled;
    }
  }

  lemma {:induction false} RunFollows(s: State, c: Calls, es: seq<Event>)
    requires CanRun(s, es) && Follows(s, c)
    ensures Follows(Run(s, es), TellAll(c, es))
    decreases |es|
  {
    hide Step, Enabled, Tell, Follows;
    if es != [] {
      StepFollows(s, c, es[0]);
      RunFollows(Step(s, es[0]), Tell(c, es[0]), es[1..]);
    }
  }

  /** After any run from start-up the stored token is the one the last successful issue call handed
      out, or none if a revoke came after it. */
  lemma StoredIsLastGiven(stored: Option<nat>, es: seq<Event>)
    requires CanRun(Init(stored), es)
    ensures Run(Init(stored), es).credential.token == TellAll(Calls(stored, map[], map[]), es).given
  {
    hide Run, CanRun, TellAll;
    RunFollows(Init(stored), Calls(stored, map[], map[]), es);
  }

  /** The run finishes no issue call. */
  predicate NoIssueEnds(s: State, es: seq<Event>)
    requires CanRun(s, es)
    decreases |es|
  {
    es == [] ||
    ((es[0].Publish? ==> s.admins[es[0].a].revoke) && NoIssueEnds(Step(s, es[0]), es[1..]))
  }

  lemma StepStaysRevoked(s: State, e: Event)
    requires Inv(s) && TargetsOk(s) && Enabled(s, e) && s.credential.token.None?
    requires e.Publish? ==> s.admins[e.a].revoke
    ensures Step(s, e).credential.token.None?
    ensures e.Validate? ==> Refused(Step(s, e), e.r)
    ensures Step(s, e).writes == s.writes
  {
    assert e.Bus? ==> s.credential.token.Some?;
    hide Inv, Find, Claim, Acknowledge;
  }

  predicate Refused(s: State, r: nat) {
    r in s.requests && At(s, r) == Done(Unauthorized)
  }

  /** Once no token is stored, and until an issue call finishes, every token presented is
      refused and nothing is written to the heat pump, not even for a request validated before. */
  lemma RevokedUntilIssued(s: State, es: seq<Event>, k: nat)
    requires Reachable(s) && s.credential.token.None? && CanRun(s, es) && NoIssueEnds(s, es)
    ensures Run(s, es).credential.token.None? && Run(s, es).writes == s.writes
    ensures k < |es| && es[k].Validate? ==> Refused(Run(s, es), es[k].r)
  {
    ReachableInv(s);
    ReachableTargets(s);
    StaysRevoked(s, es, k);
  }

  lemma {:induction false} DoneStays(s: State, es: seq<Event>, r: nat)
    requires CanRun(s, es) && r in s.requests && At(s, r).Done?
    ensures r in Run(s, es).requests && At(Run(s, es), r) == At(s, r)
    decreases |es|
  {
    if es != [] {
      StepMovesOne(s, es[0]);
      assert !(IsHandlerEvent(es[0]) && es[0].r == r);
      hide Step, Enabled;
      DoneStays(Step(s, es[0]), es[1..], r);
    }
  }

  lemma {:induction false} StaysRevoked(s: State, es: seq<Event>, k: nat)
    requires Inv(s) && TargetsOk(s) && s.credential.token.None? && CanRun(s, es) && NoIssueEnds(s, es)
    ensures Run(s, es).credential.token.None? && Run(s, es).writes == s.writes
    ensures k < |es| && es[k].Validate? ==> Refused(Run(s, es), es[k].r)
    decreases |es|
  {
    hide Step, Enabled, Inv, TargetsOk;
    if es != [] {
      var t := Step(s, es[0]);
      StepKeepsInv(s, es[0]);
      StepTargets(s, es[0]);
      StepStaysRevoked(s, es[0]);
      StaysRevoked(t, es[1..], if k == 0 then 0 else k - 1);
      if k == 0 && es[0].Validate? { DoneStays(t, es[1..], es[0].r); }
    }
  }
}
