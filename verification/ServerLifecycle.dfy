/** The life of the web servers: the UI on port 443 or 80, the notice on port 80 in HTTPS mode, and
    the Home Assistant server on 8443. Every call runs under one lock; what the platform answers is
    an input. */
module ServerLifecycle {
  import opened Basics

  /** The servers and flags. A handle is the serial number of the start that made it. */
  datatype Servers = Servers(
    started: bool, shutDown: bool, httpsMode: bool, httpsDisabled: bool, httpsActive: bool, hasMutex: bool,
    http: Option<nat>, ssl: Option<nat>, integration: Option<nat>, made: nat)

  /** What happens to be the case during one call. */
  datatype Env = Env(foundation: bool, hasCerts: bool, mutexMade: bool, certLoads: bool, sslStarts: bool,
      httpStarts: bool, hasIdentity: bool, integrationStarts: bool)

  function Off(): Servers {
    Servers(false, false, false, false, false, false, None, None, None, 0)
  }

  predicate IsRunning(s: Servers) {
    s.started && if s.httpsMode then s.ssl.Some? else s.http.Some?
  }

  predicate IsHealthy(s: Servers, hasIdentity: bool) {
    IsRunning(s) && (s.httpsMode ==> s.http.Some?) && (s.integration.Some? || !hasIdentity)
  }

  predicate AnyUp(s: Servers) {
    s.http.Some? || s.ssl.Some? || s.integration.Some?
  }

  /** The server that carries the web UI and API. */
  function Ui(s: Servers): Option<nat> {
    if s.httpsMode then s.ssl else s.http
  }

  function Stopped(s: Servers): Servers {
    s.(started := false, integration := None, ssl := None, http := None, httpsActive := if s.ssl.Some? then false
        else s.httpsActive)
  }

  /** Start the HTTPS server if there is a certificate; a pair that will not load turns HTTPS off. */
  function WithSsl(s: Servers, env: Env): Servers {
    if !s.httpsMode then s
    else if !env.certLoads then s.(ssl := None, httpsMode := false, httpsDisabled := true)
    else if !env.sslStarts then s.(ssl := None, httpsMode := false)
    else s.(ssl := Some(s.made), made := s.made + 1, httpsActive := true)
  }

  function WithHttp(s: Servers, env: Env): Servers {
    if env.httpStarts then s.(http := Some(s.made), made := s.made + 1) else s.(http := None)
  }

  function WithIntegration(s: Servers, env: Env): Servers {
    if !env.hasIdentity then s
    else if env.integrationStarts then s.(integration := Some(s.made), made := s.made + 1)
    else s.(integration := None)
  }

  /** Only an installed certificate turns HTTPS on, and not once it is disabled. */
  function Ready(s: Servers, env: Env): Servers {
    s.(httpsMode := env.hasCerts && !s.httpsDisabled, hasMutex := s.hasMutex || env.mutexMade)
  }

  /** The start proper, from all servers down; false leaves what had come up. */
  function StartedAll(s: Servers, env: Env): (Servers, bool) {
    if !env.foundation then (s, false)
    else if !Ready(s, env).hasMutex then (Ready(s, env), false)
    else
      var t := WithHttp(WithSsl(Ready(s, env), env), env);
      if t.http.None? && !t.httpsMode then (t, false) else (WithIntegration(t, env), true)
  }

  function StartResult(s: Servers, env: Env): (Servers, bool) {
    if s.shutDown then (s, false)
    else if s.started then (s, true)
    else
      var (t, ok) := StartedAll(if AnyUp(s) then Stopped(s) else s, env);
      if ok then (t.(started := true), true) else (if AnyUp(t) then Stopped(t) else t, false)
  }

  function EnsureResult(s: Servers, env: Env): (Servers, bool) {
    if s.shutDown then (s, false)
    else if IsHealthy(s, env.hasIdentity) then (s, true)
    else if !IsRunning(s) then StartResult(if s.started then Stopped(s) else s, env)
    else
      var t := if s.httpsMode && s.http.None? then WithHttp(s, env) else s;
      (if t.integration.None? && env.hasIdentity then WithIntegration(t, env) else t, true)
  }

  function DisabledHttps(s: Servers): Servers {
    var t := s.(httpsDisabled := true);
    if t.ssl.Some? then Stopped(t) else t
  }

  function ShutDownAll(s: Servers): Servers {
    Stopped(s.(shutDown := true))
  }

  // ------------------------------------------------ the component

  class WebServer {
    var started: bool
    var shutDown: bool
    var httpsMode: bool
    var httpsDisabled: bool
    var httpsActive: bool
    var hasMutex: bool
    var http: Option<nat>
    var ssl: Option<nat>
    var integration: Option<nat>
    var made: nat

    ghost function State(): Servers
      reads this
    {
      Servers(started, shutDown, httpsMode, httpsDisabled, httpsActive, hasMutex, http, ssl, integration, made)
    }

    constructor ()
      ensures State() == Off()
    {
      started, shutDown, httpsMode, httpsDisabled, httpsActive, hasMutex := false, false, false, false, false, false;
      http, ssl, integration, made := None, None, None, 0;
    }

    method Running() returns (r: bool)
      ensures r == IsRunning(State())
    {
      r := started && (if httpsMode then ssl != None else http != None);
    }

    method Healthy(hasIdentity: bool) returns (r: bool)
      ensures r == IsHealthy(State(), hasIdentity)
    {
      r := Running();
      if !r { return false; }
      if httpsMode && http == None { return false; }
      return integration != None || !hasIdentity;
    }

    method Stop()
      modifies this
      ensures State() == Stopped(old(State()))
    {
      started := false;
      integration := None;
      if ssl != None {
        ssl := None;
        httpsActive := false;
      }
      if http != None { http := None; }
    }

    method StartHttp(env: Env) returns (ok: bool)
      modifies this
      ensures State() == WithHttp(old(State()), env) && ok == State().http.Some?
    {
      ok := env.httpStarts;
      if ok { http, made := Some(made), made + 1; } else { http := None; }
    }

    method StartIntegration(env: Env) returns (ok: bool)
      modifies this
      ensures State() == WithIntegration(old(State()), env) && ok == (env.hasIdentity && env.integrationStarts)
    {
      if !env.hasIdentity { return false; }
      ok := env.integrationStarts;
      if ok { integration, made := Some(made), made + 1; } else { integration := None; }
    }

    method Prepare(env: Env)
      modifies this
      ensures State() == Ready(old(State()), env)
    {
      httpsMode := env.hasCerts;
      if httpsMode && httpsDisabled { httpsMode := false; }
      if !hasMutex { hasMutex := env.mutexMade; }
    }

    /** A certificate pair that will not load turns HTTPS off for good; a failed start only this time. */
    method StartSsl(env: Env)
      modifies this
      ensures State() == WithSsl(old(State()), env)
    {
      if !httpsMode { return; }
      var up := false;
      if !env.certLoads {
        httpsDisabled := true;
      } else if env.sslStarts {
        ssl, made := Some(made), made + 1;
        up := true;
      }
      if up {
        httpsActive := true;
      } else {
        ssl := None;
        httpsMode := false;
      }
    }

    method StartLocked(env: Env) returns (ok: bool)
      modifies this
      ensures (State(), ok) == StartedAll(old(State()), env)
    {
      if !env.foundation { return false; }
      Prepare(env);
      if !hasMutex { return false; }
      StartSsl(env);
      hide Ready, WithSsl, WithHttp, WithIntegration;
      var httpUp := StartHttp(env);
      if !httpUp && !httpsMode { return false; }
      var _ := StartIntegration(env);
      return true;
    }

    method Start(env: Env) returns (ok: bool)
      modifies this
      ensures (State(), ok) == StartResult(old(State()), env)
    {
      hide StartedAll, Stopped;
      if shutDown { return false; }
      if started { return true; }
      if http != None || ssl != None || integration != None { Stop(); }
      ok := StartLocked(env);
      if !ok {
        if http != None || ssl != None || integration != None { Stop(); }
        return false;
      }
      started := true;
    }

    method EnsureRunning(env: Env) returns (ok: bool)
      modifies this
      ensures (State(), ok) == EnsureResult(old(State()), env)
    {
      if shutDown { return false; }
      var healthy := Healthy(env.hasIdentity);
      if healthy { return true; }
      var running := Running();
      if !running {
        if started { Stop(); }
        ok := Start(env);
        return;
      }
      if httpsMode && http == None { var _ := StartHttp(env); }
      if integration == None && env.hasIdentity { var _ := StartIntegration(env); }
      return true;
    }

    method DisableHttps()
      modifies this
      ensures State() == DisabledHttps(old(State()))
    {
      if !httpsDisabled { httpsDisabled := true; }
      if ssl != None { Stop(); }
    }

    method ShutDown()
      modifies this
      ensures State() == ShutDownAll(old(State()))
    {
      shutDown := true;
      Stop();
    }
  }

  // ------------------------------------------------ every sequence of calls

  datatype Call = Start(env: Env) | Stop | EnsureRunning(env: Env) | DisableHttps | ShutDown

  function Do(s: Servers, c: Call): (Servers, bool) {
    match c
    case Start(env) => StartResult(s, env)
    case Stop => (Stopped(s), false)
    case EnsureRunning(env) => EnsureResult(s, env)
    case DisableHttps => (DisabledHttps(s), false)
    case ShutDown => (ShutDownAll(s), false)
  }

  function Run(s: Servers, calls: seq<Call>): Servers {
    if calls == [] then s else Do(Run(s, calls[..|calls| - 1]), calls[|calls| - 1]).0
  }

  predicate Sound(s: Servers) {
    && (s.ssl.Some? <==> s.httpsActive)
    && (s.ssl.Some? ==> s.httpsMode && !s.httpsDisabled)
    && (s.started ==> IsRunning(s))
    && (AnyUp(s) ==> s.started)
    && (s.shutDown ==> !AnyUp(s))
  }

  lemma StoppedSound(s: Servers)
    requires s.ssl.Some? <==> s.httpsActive
    ensures Sound(Stopped(s)) && !AnyUp(Stopped(s))
  {
  }

  /** The start proper, from nothing up: 443 is up exactly in HTTPS mode, and success serves the UI. */
  lemma StartedAllSound(s: Servers, env: Env)
    requires !AnyUp(s) && !s.httpsActive
    ensures var (t, ok) := StartedAll(s, env);
      && (t.ssl.Some? <==> t.httpsActive) && (t.ssl.Some? ==> t.httpsMode && !t.httpsDisabled)
      && (ok ==> Ui(t).Some?) && t.shutDown == s.shutDown && t.started == s.started
  {
    SslSound(Ready(s, env), env);
    var t := WithSsl(Ready(s, env), env);
    hide WithSsl, AnyUp;
    assert t.httpsMode ==> t.ssl.Some?;
  }

  lemma SslSound(s: Servers, env: Env)
    requires s.ssl.None? && s.http.None? && !s.httpsActive && (s.httpsMode ==> !s.httpsDisabled)
    ensures var t := WithSsl(s, env);
      && (t.ssl.Some? <==> t.httpsActive) && (t.ssl.Some? <==> t.httpsMode) && (t.ssl.Some? ==> !t.httpsDisabled)
      && t.shutDown == s.shutDown && t.started == s.started && t.http == s.http
  {
  }

  lemma StartSound(s: Servers, env: Env)
    requires Sound(s)
    ensures Sound(StartResult(s, env).0)
  {
    if !s.shutDown && !s.started {
      var t := StartedAll(s, env);
      StartedAllSound(s, env);
      StoppedSound(t.0);
      hide StartedAll, Stopped;
    }
  }

  lemma EnsureSound(s: Servers, env: Env)
    requires Sound(s)
    ensures Sound(EnsureResult(s, env).0)
  {
    StartSound(s, env);
    hide StartResult;
  }

  lemma DoSound(s: Servers, c: Call)
    requires Sound(s)
    ensures Sound(Do(s, c).0)
  {
    match c
    case Start(env) =>
      StartSound(s, env);
      hide StartResult, Sound;
    case Stop => StoppedSound(s);
    case EnsureRunning(env) =>
      EnsureSound(s, env);
      hide EnsureResult, Sound;
    case DisableHttps => StoppedSound(s.(httpsDisabled := true));
    case ShutDown => StoppedSound(s);
  }

  /** In every reachable state: 443 is up exactly when HTTPS is reported active, and then HTTPS mode
      is on and not disabled; a started component serves the UI; nothing is up after shutdown. */
  lemma {:induction false} AlwaysSound(calls: seq<Call>)
    ensures Sound(Run(Off(), calls))
  {
    hide Do, Sound;
    if calls == [] {
      OffSound();
    } else {
      AlwaysSound(calls[..|calls| - 1]);
      DoSound(Run(Off(), calls[..|calls| - 1]), calls[|calls| - 1]);
    }
  }

  lemma OffSound()
    ensures Sound(Off())
  {
  }

  /** A start or repair that reports success leaves the UI served. */
  lemma SuccessMeansRunning(calls: seq<Call>, c: Call)
    requires Do(Run(Off(), calls), c).1
    ensures IsRunning(Do(Run(Off(), calls), c).0)
  {
    AlwaysSound(calls);
    hide Run;
  }

  /** A repair never replaces or stops a UI server that is running. */
  lemma EnsureKeepsUi(s: Servers, env: Env)
    requires IsRunning(s) && !s.shutDown
    ensures EnsureResult(s, env).1 && IsRunning(EnsureResult(s, env).0) && Ui(EnsureResult(s, env).0) == Ui(s)
  {
  }

  lemma StartLatches(s: Servers, env: Env)
    ensures s.shutDown ==> StartResult(s, env).0.shutDown
    ensures s.httpsDisabled ==> StartResult(s, env).0.httpsDisabled
  {
    hide AnyUp;
  }

  lemma DoLatches(s: Servers, c: Call)
    ensures s.shutDown ==> Do(s, c).0.shutDown
    ensures s.httpsDisabled ==> Do(s, c).0.httpsDisabled
  {
    if c.Start? { StartLatches(s, c.env); }
    if c.EnsureRunning? { StartLatches(if s.started then Stopped(s) else s, c.env); }
    hide StartResult, IsRunning, IsHealthy;
  }

  /** Both latches stay set over any further calls. */
  lemma {:induction false} LatchesHold(s: Servers, calls: seq<Call>)
    ensures s.shutDown ==> Run(s, calls).shutDown
    ensures s.httpsDisabled ==> Run(s, calls).httpsDisabled
  {
    hide Do;
    if calls != [] {
      LatchesHold(s, calls[..|calls| - 1]);
      DoLatches(Run(s, calls[..|calls| - 1]), calls[|calls| - 1]);
    }
  }

  lemma {:induction false} RunTwice(s: Servers, a: seq<Call>, b: seq<Call>)
    ensures Run(s, a + b) == Run(Run(s, a), b)
    decreases |b|
  {
    hide Do;
    if b == [] {
      assert a + b == a;
    } else {
      assert (a + b)[..|a + b| - 1] == a + b[..|b| - 1];
      RunTwice(s, a, b[..|b| - 1]);
    }
  }

  /** After a shutdown nothing runs again, whatever is called. */
  lemma NothingAfterShutdown(before: seq<Call>, after: seq<Call>)
    ensures !AnyUp(Run(Off(), before + [ShutDown] + after))
  {
    var first := before + [ShutDown];
    assert first[..|first| - 1] == before;
    AlwaysSound(first + after);
    RunTwice(Off(), first, after);
    LatchesHold(Run(Off(), first), after);
  }

  /** Once HTTPS is disabled, by a call or by a certificate that will not load, 443 never returns. */
  lemma HttpsStaysDisabled(before: seq<Call>, after: seq<Call>)
    requires Run(Off(), before).httpsDisabled
    ensures Run(Off(), before + after).ssl.None? && !Run(Off(), before + after).httpsActive
  {
    AlwaysSound(before + after);
    RunTwice(Off(), before, after);
    LatchesHold(Run(Off(), before), after);
  }

  /** From any reachable state that is not shut down, a repair with working platform calls restores
      full health. */
  lemma RepairSucceeds(calls: seq<Call>, env: Env)
    requires !Run(Off(), calls).shutDown && env.foundation && env.mutexMade && env.httpStarts && env.integrationStarts
    ensures var (t, ok) := EnsureResult(Run(Off(), calls), env); ok && IsHealthy(t, env.hasIdentity)
  {
    AlwaysSound(calls);
    hide Run;
  }

  // ------------------------------------------------ what a start or a repair brings up

  /** HTTPS comes up: a certificate is installed and loads, HTTPS is not disabled and 443 starts. */
  predicate HttpsWorks(s: Servers, env: Env) {
    env.hasCerts && !s.httpsDisabled && env.certLoads && env.sslStarts
  }

  /** A start from any reachable state that is down succeeds exactly if the basics are there and some
      server can carry the UI. It then brings up exactly the servers whose platform calls work, the UI
      on 443 if HTTPS works and on 80 otherwise; a failed one leaves nothing up. */
  lemma StartBringsUp(calls: seq<Call>, env: Env)
    requires var s := Run(Off(), calls); !s.started && !s.shutDown
    ensures var s := Run(Off(), calls);
      var (t, ok) := StartResult(s, env);
      && (ok <==> env.foundation && (s.hasMutex || env.mutexMade) && (HttpsWorks(s, env) || env.httpStarts))
      && (ok ==> t.started && (t.ssl.Some? <==> HttpsWorks(s, env)) && t.httpsMode == t.httpsActive == t.ssl.Some?)
      && (ok ==> (t.http.Some? <==> env.httpStarts))
      && (ok ==> (t.integration.Some? <==> env.hasIdentity && env.integrationStarts))
      && (!ok ==> !t.started && !AnyUp(t))
      && (s.httpsDisabled ==> t.httpsDisabled)
      && (!s.httpsDisabled && env.foundation && (s.hasMutex || env.mutexMade) ==>
          (t.httpsDisabled <==> env.hasCerts && !env.certLoads))
  {
    AlwaysSound(calls);
    hide Run;
  }

  /** A repair while the UI is running leaves what is up as it is and brings up what is missing and
      can be started: the notice on port 80 in HTTPS mode and the Home Assistant server. */
  lemma RepairBringsUp(calls: seq<Call>, env: Env)
    requires IsRunning(Run(Off(), calls))
    ensures var s := Run(Off(), calls);
      var (t, ok) := EnsureResult(s, env);
      && ok && t.started && t.ssl == s.ssl && t.httpsMode == s.httpsMode
      && (s.http.Some? ==> t.http == s.http) && (s.integration.Some? ==> t.integration == s.integration)
      && (s.http.None? ==> (t.http.Some? <==> env.httpStarts))
      && (s.integration.None? ==> (t.integration.Some? <==> env.hasIdentity && env.integrationStarts))
  {
    AlwaysSound(calls);
    hide Run;
  }

  /** Disabling HTTPS leaves a UI on port 80 running as it is; a UI on 443 is stopped, and the next
      repair brings it up on port 80, whatever the certificate. */
  lemma DisablingFallsBack(calls: seq<Call>, env: Env)
    requires IsRunning(Run(Off(), calls)) && env.foundation && env.httpStarts && env.mutexMade
    ensures var s := Run(Off(), calls);
      var t := EnsureResult(DisabledHttps(s), env).0;
      && t.http.Some? && t.ssl.None? && IsRunning(t) && (!s.httpsMode ==> t.http == s.http)
  {
    AlwaysSound(calls);
    hide Run;
  }
}
