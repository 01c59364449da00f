/** The generation counter has 32 bits. A handler held up between validating its token and writing
    while exactly 2^32 token changes happen writes with a token that is no longer stored. */
module HaWrap {
  import opened Basics
  import opened CommandCache
  import opened HaProtocol
  import opened HaCache
  import HaTheorems

  ghost predicate Leads(s: State, t: State) {
    exists es :: CanRun(s, es) && Run(s, es) == t
  }

  lemma {:induction false} RunOneMore(s: State, es: seq<Event>, e: Event)
    requires CanRun(s, es) && Enabled(Run(s, es), e)
    ensures CanRun(s, es + [e]) && Run(s, es + [e]) == Step(Run(s, es), e)
    decreases |es|
  {
    hide Enabled, Step;
    if es == [] {
      assert [e][1..] == [];
    } else {
      RunOneMore(Step(s, es[0]), es[1..], e);
      assert (es + [e])[1..] == es[1..] + [e];
    }
  }

  lemma ThenStep(s: State, t: State, e: Event)
    requires Leads(s, t) && Enabled(t, e)
    ensures Leads(s, Step(t, e))
  {
    hide Enabled, Step, Run, CanRun;
    var es :| CanRun(s, es) && Run(s, es) == t;
    RunOneMore(s, es, e);
  }

  /** Handler 0 has validated token 0, and tokens 1 to `k` were issued since. */
  function Delayed(cmd: Command, k: nat): State {
    State(None, Nobody, EmptyHistory(), Issued(k), map[0 := Request(cmd, 0, Validated(0, 1))], Finishers(k), [])
  }

  function Issued(k: nat): Credential {
    Credential(Some(k), k % GEN_RANGE, Some(k), seq(k + 1, i => Some(i)))
  }

  function Finishers(k: nat): map<nat, Admin> {
    if k == 0 then map[] else Finishers(k - 1)[k - 1 := Admin(false, Finished(true, Some(k)))]
  }

  lemma Begun(cmd: Command)
    ensures Leads(Init(Some(0)), Delayed(cmd, 0))
  {
    var s := Init(Some(0));
    assert CanRun(s, []) && Run(s, []) == s;
    ThenStep(s, s, Arrive(0, cmd, 0));
    var t := Step(s, Arrive(0, cmd, 0));
    ThenStep(s, t, Validate(0, true));
    assert [Some(0)] == seq(1, i => Some(i));
    assert Step(t, Validate(0, true)) == Delayed(cmd, 0);
  }

  lemma {:induction false} CallsBelow(k: nat)
    ensures forall a :: a in Finishers(k) ==> a < k
  {
    if k > 0 { CallsBelow(k - 1); }
  }

  /** The four steps of one issue call. */
  lemma IssueSteps(start: State, s: State, a: nat, token: nat)
    requires Leads(start, s) && a !in s.admins && s.tokenLock.Nobody? && Some(token) !in s.credential.past
    ensures Leads(start, s.(admins := s.admins[a := Admin(false, Finished(true, Some(token)))],
        credential := Publication(s.credential.(flash := Some(token)), Some(token))))
  {
    hide Leads, Publication, EmptyHistory;
    ThenStep(start, s, Call(a, false));
    var s1 := s.(admins := s.admins[a := Admin(false, Waiting)]);
    assert s1 == Step(s, Call(a, false));
    ThenStep(start, s1, Take(a));
    var s2 := s.(admins := s.admins[a := Admin(false, Holding)], tokenLock := Caller(a));
    assert s2 == Step(s1, Take(a));
    ThenStep(start, s2, Persist(a, true, token));
    var s3 := Step(s2, Persist(a, true, token));
    ThenStep(start, s3, Publish(a));
    assert Step(s3, Publish(a)).admins == s.admins[a := Admin(false, Finished(true, Some(token)))];
  }

  lemma OneIssue(cmd: Command, k: nat)
    requires Leads(Init(Some(0)), Delayed(cmd, k))
    ensures Leads(Init(Some(0)), Delayed(cmd, k + 1))
  {
    hide Leads, Init, EmptyHistory;
    CallsBelow(k);
    IssueSteps(Init(Some(0)), Delayed(cmd, k), k, k + 1);
    assert Publication(Issued(k).(flash := Some(k + 1)), Some(k + 1)) == Issued(k + 1);
  }

  lemma {:induction false} ManyIssues(cmd: Command, k: nat)
    ensures Leads(Init(Some(0)), Delayed(cmd, k))
  {
    hide Leads, Delayed, Init;
    if k == 0 { Begun(cmd); } else {
      ManyIssues(cmd, k - 1);
      OneIssue(cmd, k - 1);
    }
  }

  /** The handler runs on to its write; the generation matches although the token does not. */
  lemma RunOn(cmd: Command, k: nat) returns (s: State)
    requires Leads(Init(Some(0)), Delayed(cmd, k)) && k % GEN_RANGE == 0
    ensures Leads(Init(Some(0)), s) && s.writes == [Write(0, cmd, 0, 0, 1, Some(k), 0, k + 1, true)]
  {
    hide Leads, Run, CanRun, Init;
    s := Delayed(cmd, k);
    ThenStep(Init(Some(0)), s, Parse(0, true));
    s := Step(s, Parse(0, true));
    LookupFromFinds(s.history.slots, cmd, 0);
    assert Find(s.history.slots, cmd).New? by { hide LookupFrom; }
    ThenStep(Init(Some(0)), s, LookUp(0));
    s := Step(s, LookUp(0));
    hide Find;
    ThenStep(Init(Some(0)), s, CheckSupport(0, true));
    s := Step(s, CheckSupport(0, true));
    ThenStep(Init(Some(0)), s, CheckGeneration(0));
    s := Step(s, CheckGeneration(0));
    ThenStep(Init(Some(0)), s, Bus(0, true, true));
    s := Step(s, Bus(0, true, true));
  }

  /** A reachable write whose bearer was replaced: the same-token promise fails after 2^32 changes. */
  lemma StaleTokenCanWrite(cmd: Command) returns (s: State)
    ensures HaTheorems.Reachable(s) && |s.writes| == 1
    ensures s.writes[0].token != Some(s.writes[0].bearer)
  {
    hide Delayed;
    ManyIssues(cmd, GEN_RANGE);
    s := RunOn(cmd, GEN_RANGE);
  }
}
