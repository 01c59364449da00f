/** The external-sensor settings and who shares them: polling worker, periodic saver, user edits. The
    settings mutex makes each access one step; the save mutex is held across the flash write. */
module SensorSettings {
  import opened Basics

  const SLOT_COUNT: nat := 2

  datatype Source = HeatPump | ModbusTcp | BacnetIp

  /** What the device behind a sensor was found to be. */
  datatype Identity = Identity(device: Option<nat>, deviceName: string, objectName: string, rom: Option<seq<nat>>)

  datatype Endpoint = Endpoint(source: Source, host: string, port: nat, bacnetType: nat, bacnetInstance: nat)

  datatype Sensor = Sensor(endpoint: Endpoint, unitId: nat, address: nat, registerType: nat, valueType: nat,
      scale: int, noReading: nat, identity: Identity)

  type Sensors = s: seq<Sensor> | |s| == SLOT_COUNT
      witness seq(SLOT_COUNT, _ => Sensor(Endpoint(HeatPump, "", 0, 0, 0), 0, 0, 0, 0, 0, 0, Unknown()))

  /** Flow, fluid and the share of glycol are carried along unread. */
  datatype Settings = Settings(flow: nat, fluid: nat, glycol: nat, sensors: Sensors)

  type Flags = s: seq<bool> | |s| == SLOT_COUNT witness seq(SLOT_COUNT, _ => false)

  function Unknown(): Identity {
    Identity(None, "", "", None)
  }

  predicate SameSource(a: Sensor, b: Sensor) {
    && a.endpoint == b.endpoint && a.unitId == b.unitId && a.address == b.address && a.registerType == b.registerType
    && a.valueType == b.valueType && a.identity.device == b.identity.device
  }

  predicate SameIdentity(a: Sensor, b: Sensor) {
    a.identity.device == b.identity.device && a.identity.objectName == b.identity.objectName &&
        a.identity.rom == b.identity.rom
  }

  /** A BACnet sensor moved to another endpoint drops the identity it had at the old one. */
  function DropStale(s: Sensor, cur: Sensor): Sensor {
    if s.endpoint.source.BacnetIp? && s.endpoint != cur.endpoint && SameIdentity(s, cur) then s.(identity := Unknown())
        else s
  }

  /** The sensor to save: an unedited one keeps what was learned about it. */
  function MergedSensor(in_: Sensor, cur: Sensor, edited: bool): Sensor {
    var s := DropStale(in_, cur);
    if edited || !SameSource(s, cur) then
      if s.endpoint.source.BacnetIp? then s else s.(identity := Unknown())
    else s.(identity := cur.identity)
  }

  /** The change makes earlier readings meaningless. */
  predicate NeedsReset(s: Sensor, cur: Sensor) {
    !SameSource(s, cur) || s.scale != cur.scale || s.noReading != cur.noReading || !SameIdentity(s, cur)
  }

  function Merged(in_: Settings, cur: Settings, edited: Flags): Settings {
    in_.(sensors := seq(SLOT_COUNT,
        i requires 0 <= i < SLOT_COUNT => MergedSensor(in_.sensors[i], cur.sensors[i], edited[i])))
  }

  predicate AnyReset(next: Settings, cur: Settings) {
    exists i :: 0 <= i < SLOT_COUNT && NeedsReset(next.sensors[i], cur.sensors[i])
  }

  method Merge(in_: Settings, cur: Settings, edited: Flags) returns (next: Settings, changed: bool)
    ensures next == Merged(in_, cur, edited) && changed == AnyReset(next, cur)
  {
    next, changed := in_, false;
    for i := 0 to SLOT_COUNT
      invariant next.(sensors := in_.sensors) == in_
      invariant forall k :: 0 <= k < SLOT_COUNT ==>
          next.sensors[k] == if k < i then MergedSensor(in_.sensors[k], cur.sensors[k], edited[k]) else in_.sensors[k]
      invariant changed <==> exists k :: 0 <= k < i && NeedsReset(next.sensors[k], cur.sensors[k])
    {
      var s, c := next.sensors[i], cur.sensors[i];
      if s.endpoint.source.BacnetIp? {
        if s.endpoint != c.endpoint && SameIdentity(s, c) { s := s.(identity := Unknown()); }
      }
      if edited[i] || !SameSource(s, c) {
        if !s.endpoint.source.BacnetIp? { s := s.(identity := Unknown()); }
      } else {
        s := s.(identity := c.identity);
      }
      next := next.(sensors := next.sensors[i := s]);
      if NeedsReset(s, c) { changed := true; }
    }
  }

  // ------------------------------------------------ the shared state

  /** The holder of the save mutex and how far it has come. */
  datatype Holder =
    | Free
    | ServiceBegun
    | ServiceSaving(wasPending: bool, copy: Settings)
    | ServiceFailed
    | ServiceEnding
    | ApplyBegun(in_: Settings, edited: Flags)
    | ApplySaving(next: Settings, changed: bool)
    | ApplySaved(next: Settings, changed: bool)
    | ApplyEnding

  /** The polling worker: the configuration it polls with, and an id it is about to record. Ids are
      learned over Modbus only. */
  datatype Worker = Idle | Polling(slot: nat, cfg: Sensor) | Learned(slot: nat, cfg: Sensor, rom: seq<nat>)

  /** `flash` is what a restart would load. */
  datatype State = State(ram: Settings, flash: Settings, pending: bool, holder: Holder, worker: Worker)

  datatype Event =
    | BeginService | ServiceRead | ServiceSave(ok: bool) | ServiceRetry | EndService
    | BeginApply(in_: Settings, edited: Flags) | ApplyMerge | ApplySave(ok: bool) | ApplyPublish | EndApply
    | Poll(slot: nat) | ReadRom(rom: seq<nat>) | PollWithoutRom | StoreRom
    | Restart

  predicate Enabled(s: State, e: Event) {
    match e
    case BeginService => s.holder.Free?
    case ServiceRead => s.holder.ServiceBegun?
    case ServiceSave(_) => s.holder.ServiceSaving?
    case ServiceRetry => s.holder.ServiceFailed?
    case EndService => s.holder.ServiceEnding?
    case BeginApply(_, _) => s.holder.Free?
    case ApplyMerge => s.holder.ApplyBegun?
    case ApplySave(_) => s.holder.ApplySaving?
    case ApplyPublish => s.holder.ApplySaved?
    case EndApply => s.holder.ApplyEnding?
    case Poll(slot) => s.worker.Idle? && slot < SLOT_COUNT
    case ReadRom(_) => s.worker.Polling? && s.worker.slot < SLOT_COUNT && s.worker.cfg.endpoint.source.ModbusTcp?
    case PollWithoutRom => s.worker.Polling?
    case StoreRom => s.worker.Learned? && s.worker.slot < SLOT_COUNT
    case Restart => true
  }

  function WithRom(settings: Settings, slot: nat, rom: seq<nat>): Settings
    requires slot < SLOT_COUNT
  {
    var s := settings.sensors[slot];
    settings.(sensors := settings.sensors[slot := s.(identity := s.identity.(rom := Some(rom)))])
  }

  function Step(s: State, e: Event): State
    requires Enabled(s, e)
  {
    match e
    case BeginService => s.(holder := ServiceBegun)
    case ServiceRead => s.(holder := ServiceSaving(s.pending, s.ram), pending := false)
    case ServiceSave(ok) =>
      if !s.holder.wasPending then s.(holder := ServiceEnding)
      else if ok then s.(holder := ServiceEnding, flash := s.holder.copy)
      else s.(holder := ServiceFailed)
    case ServiceRetry => s.(holder := ServiceEnding, pending := true)
    case EndService => s.(holder := Free)
    case BeginApply(in_, edited) => s.(holder := ApplyBegun(in_, edited))
    case ApplyMerge =>
      var next := Merged(s.holder.in_, s.ram, s.holder.edited);
      s.(holder := ApplySaving(next, AnyReset(next, s.ram)))
    case ApplySave(ok) => if ok then s.(holder := ApplySaved(s.holder.next, s.holder.changed), flash := s.holder.next)
        else s.(holder := Free)
    case ApplyPublish => s.(holder := ApplyEnding, ram := s.holder.next)
    case EndApply => s.(holder := Free)
    case Poll(slot) => s.(worker := Polling(slot, s.ram.sensors[slot]))
    case ReadRom(rom) =>
      var cur := s.ram.sensors[s.worker.slot];
      if SameSource(cur, s.worker.cfg) && cur.identity.rom.None? then
          s.(worker := Learned(s.worker.slot, s.worker.cfg, rom)) else s.(worker := Idle)
    case PollWithoutRom => s.(worker := Idle)
    case StoreRom =>
      if SameSource(s.ram.sensors[s.worker.slot], s.worker.cfg) then
          s.(ram := WithRom(s.ram, s.worker.slot, s.worker.rom), pending := true, worker := Idle)
      else s.(worker := Idle)
    case Restart => Boot(s.flash)
  }

  function Boot(flash: Settings): State {
    State(flash, flash, false, Free, Idle)
  }

  predicate CanRun(s: State, es: seq<Event>)
    decreases |es|
  {
    es == [] || (Enabled(s, es[0]) && CanRun(Step(s, es[0]), es[1..]))
  }

  function Run(s: State, es: seq<Event>): State
    requires CanRun(s, es)
    decreases |es|
  {
    if es == [] then s else Run(Step(s, es[0]), es[1..])
  }

  // ------------------------------------------------ flash keeps up with memory

  /** What each position of the save mutex's holder knows about flash. */
  predicate Consistent(s: State) {
    match s.holder
    case ServiceSaving(was, copy) => (!was ==> s.flash == copy) && (s.ram == copy || s.pending)
    case ServiceFailed => true
    case ApplySaved(next, _) => s.flash == next
    case _ => s.flash == s.ram || s.pending
  }

  lemma StepConsistent(s: State, e: Event)
    requires Consistent(s) && Enabled(s, e)
    ensures Consistent(Step(s, e))
  {
    hide Merged, AnyReset, SameSource, WithRom;
  }

  lemma {:induction false} RunConsistent(s: State, es: seq<Event>)
    requires Consistent(s) && CanRun(s, es)
    ensures Consistent(Run(s, es))
    decreases |es|
  {
    hide Consistent, Step, Enabled;
    if es != [] {
      StepConsistent(s, es[0]);
      RunConsistent(Step(s, es[0]), es[1..]);
    }
  }

  /** Whenever the save mutex is free, flash holds the settings in memory or a save is pending. */
  lemma FlashKeepsUp(flash: Settings, es: seq<Event>)
    requires CanRun(Boot(flash), es) && Run(Boot(flash), es).holder.Free?
    ensures var s := Run(Boot(flash), es); s.flash == s.ram || s.pending
  {
    hide Run, CanRun;
    RunConsistent(Boot(flash), es);
  }

  /** A service call that meets no failure and no new id leaves flash equal to memory, none pending. */
  lemma ServiceSettles(s: State)
    requires Consistent(s) && s.holder.Free?
    ensures var es := [BeginService, ServiceRead, ServiceSave(true), EndService];
      CanRun(s, es) && Run(s, es) == s.(flash := s.ram, pending := false)
  {
    var s1 := Step(s, BeginService);
    var s2 := Step(s1, ServiceRead);
    var s3 := Step(s2, ServiceSave(true));
    assert Step(s3, EndService) == s.(flash := s.ram, pending := false);
    RunFour(s, BeginService, ServiceRead, ServiceSave(true), EndService);
  }

  lemma RunFour(s: State, a: Event, b: Event, c: Event, d: Event)
    requires Enabled(s, a) && Enabled(Step(s, a), b) && Enabled(Step(Step(s, a), b), c) &&
        Enabled(Step(Step(Step(s, a), b), c), d)
    ensures CanRun(s, [a, b, c, d]) && Run(s, [a, b, c, d]) == Step(Step(Step(Step(s, a), b), c), d)
  {
    hide Step, Enabled;
    var s1 := Step(s, a);
    var s2 := Step(s1, b);
    var s3 := Step(s2, c);
    RunCons(s3, d, []);
    RunCons(s2, c, [d]);
    RunCons(s1, b, [c, d]);
    RunCons(s, a, [b, c, d]);
    assert [d] + [] == [d] && [c] + [d] == [c, d] && [b] + [c, d] == [b, c, d] && [a] + [b, c, d] == [a, b, c, d];
    assert Run(Step(s3, d), []) == Step(s3, d);
    hide Run, CanRun;
  }

  lemma RunCons(s: State, e: Event, es: seq<Event>)
    requires Enabled(s, e) && CanRun(Step(s, e), es)
    ensures CanRun(s, [e] + es) && Run(s, [e] + es) == Run(Step(s, e), es)
  {
    hide Step, Enabled;
    assert ([e] + es)[1..] == es;
  }

  // ------------------------------------------------ what an edit keeps

  /** Saving the current settings unedited changes nothing and resets nothing. */
  lemma UneditedKeepsAll(cur: Settings, edited: Flags)
    requires forall i :: 0 <= i < SLOT_COUNT ==> !edited[i]
    ensures Merged(cur, cur, edited) == cur && !AnyReset(cur, cur)
  {
    assert Merged(cur, cur, edited).sensors == cur.sensors;
  }

  /** The identity a merged sensor ends with: the learned one exactly when it was not edited and still
      reads the same source; else, over BACnet, the one given unless it is left over from another
      endpoint; else none. The rest of the sensor is what the caller gave. */
  lemma MergeKeepsLearned(in_: Sensor, cur: Sensor, edited: bool)
    ensures var m := MergedSensor(in_, cur, edited);
      var leftOver := in_.endpoint.source.BacnetIp? && in_.endpoint != cur.endpoint && SameIdentity(in_, cur);
      && m.(identity := in_.identity) == in_
      && m.identity ==
           if !edited && SameSource(in_, cur) then cur.identity
           else if in_.endpoint.source.BacnetIp? && !leftOver then in_.identity
           else Unknown()
  {
  }

  /** An edit resets the readings exactly if it changes a sensor in anything but its device's name. */
  lemma ResetIffDiffers(next: Settings, cur: Settings)
    ensures !AnyReset(next, cur) <==>
            forall i :: 0 <= i < SLOT_COUNT ==>
                Renamed(next.sensors[i], cur.sensors[i].identity.deviceName) == cur.sensors[i]
  {
  }

  function Renamed(s: Sensor, name: string): Sensor {
    s.(identity := s.identity.(deviceName := name))
  }

  /** An edit that nothing disturbs ends with the merged settings in memory and in flash, or, if its
      save fails, with both as they were. */
  lemma EditOutcome(s: State, in_: Settings, edited: Flags, ok: bool)
    requires s.holder.Free?
    ensures var t, next := Completed(Step(s, BeginApply(in_, edited)), ok), Merged(in_, s.ram, edited);
      t == if ok then s.(ram := next, flash := next) else s
  {
    hide Merged, AnyReset;
    var s1 := Step(s, BeginApply(in_, edited));
    var s2 := Step(s1, ApplyMerge);
    var s3 := Step(s2, ApplySave(ok));
    assert Completed(s1, ok) == Completed(s2, ok) == Completed(s3, ok);
    if ok {
      var s4 := Step(s3, ApplyPublish);
      assert Completed(s3, ok) == Completed(s4, ok) == Completed(Step(s4, EndApply), ok);
    }
  }

  /** When an edit is published, memory and flash are both what was saved. */
  lemma PublishedIsSaved(flash: Settings, es: seq<Event>)
    requires CanRun(Boot(flash), es) && Run(Boot(flash), es).holder.ApplySaved?
    ensures var s := Run(Boot(flash), es);
      Step(s, ApplyPublish).ram == Step(s, ApplyPublish).flash == s.holder.next
  {
    hide Run, CanRun;
    RunConsistent(Boot(flash), es);
  }

  // ------------------------------------------------ what becomes of a learned id

  /** The holder's settings to publish, once it has merged. */
  function MergedAlready(h: Holder): Option<Settings> {
    match h
    case ApplySaving(next, _) => Some(next)
    case ApplySaved(next, _) => Some(next)
    case _ => None
  }

  /** Settings merged but not published hold an id only if memory has the same for the same source. */
  predicate NextKnowsNoMore(s: State) {
    var next := MergedAlready(s.holder);
    next.Some? ==> forall i :: 0 <= i < SLOT_COUNT ==> NoNewRom(next.value.sensors[i], s.ram.sensors[i])
  }

  predicate NoNewRom(next: Sensor, ram: Sensor) {
    !next.endpoint.source.BacnetIp? && next.identity.rom.Some? ==>
        SameSource(next, ram) && next.identity.rom == ram.identity.rom
  }

  /** An id about to be recorded is for a sensor that has none. */
  predicate LearnedIsNew(s: State) {
    s.worker.Learned? ==>
      && s.worker.slot < SLOT_COUNT && s.worker.cfg.endpoint.source.ModbusTcp?
      && (SameSource(s.ram.sensors[s.worker.slot], s.worker.cfg) ==> s.ram.sensors[s.worker.slot].identity.rom.None?)
  }

  lemma MergeAddsNoRom(in_: Settings, cur: Settings, edited: Flags, i: nat)
    requires i < SLOT_COUNT
    ensures NoNewRom(Merged(in_, cur, edited).sensors[i], cur.sensors[i])
  {
  }

  lemma StepLearned(s: State, e: Event)
    requires NextKnowsNoMore(s) && LearnedIsNew(s) && Enabled(s, e)
    ensures NextKnowsNoMore(Step(s, e)) && LearnedIsNew(Step(s, e))
  {
    hide Merged, AnyReset;
    match e
    case ApplyMerge =>
      forall i: nat | i < SLOT_COUNT
        ensures NoNewRom(Step(s, e).holder.next.sensors[i], s.ram.sensors[i])
      {
        MergeAddsNoRom(s.holder.in_, s.ram, s.holder.edited, i);
      }
    case ApplyPublish =>
      if s.worker.Learned? { assert NoNewRom(s.holder.next.sensors[s.worker.slot], s.ram.sensors[s.worker.slot]); }
    case StoreRom =>
      StoreLearned(s);
    case _ =>
  }

  lemma StoreLearned(s: State)
    requires NextKnowsNoMore(s) && LearnedIsNew(s) && Enabled(s, StoreRom)
    ensures NextKnowsNoMore(Step(s, StoreRom))
  {
    var t, next := Step(s, StoreRom), MergedAlready(s.holder);
    if next.Some? {
      forall i: nat | i < SLOT_COUNT
        ensures NoNewRom(next.value.sensors[i], t.ram.sensors[i])
      {
        assert NoNewRom(next.value.sensors[i], s.ram.sensors[i]);
      }
    }
  }

  lemma {:induction false} RunLearned(s: State, es: seq<Event>)
    requires NextKnowsNoMore(s) && LearnedIsNew(s) && CanRun(s, es)
    ensures NextKnowsNoMore(Run(s, es)) && LearnedIsNew(Run(s, es))
    decreases |es|
  {
    hide NextKnowsNoMore, LearnedIsNew, Step, Enabled;
    if es != [] {
      StepLearned(s, es[0]);
      RunLearned(Step(s, es[0]), es[1..]);
    }
  }

  /** The holder's next step, its save succeeding or not. */
  function HolderStep(h: Holder, ok: bool): Event
    requires !h.Free?
  {
    match h
    case ServiceBegun => ServiceRead
    case ServiceSaving(_, _) => ServiceSave(ok)
    case ServiceFailed => ServiceRetry
    case ServiceEnding => EndService
    case ApplyBegun(_, _) => ApplyMerge
    case ApplySaving(_, _) => ApplySave(ok)
    case ApplySaved(_, _) => ApplyPublish
    case ApplyEnding => EndApply
  }

  function StepsLeft(h: Holder): nat {
    match h
    case Free => 0
    case ServiceEnding => 1
    case ApplyEnding => 1
    case ServiceFailed => 2
    case ApplySaved(_, _) => 2
    case ServiceSaving(_, _) => 3
    case ApplySaving(_, _) => 3
    case ServiceBegun => 4
    case ApplyBegun(_, _) => 4
  }

  /** The holder's call runs to its end. */
  function Completed(s: State, ok: bool): State
    decreases StepsLeft(s.holder)
  {
    if s.holder.Free? then s else Completed(Step(s, HolderStep(s.holder, ok)), ok)
  }

  function RomAt(settings: Settings, slot: nat): Option<seq<nat>>
    requires slot < SLOT_COUNT
  {
    settings.sensors[slot].identity.rom
  }

  /** What memory holds when the current holder's call has ended. */
  lemma CompletedMemory(s: State, ok: bool)
    ensures Completed(s, ok).ram ==
      match s.holder
      case ApplyBegun(in_, edited) => if ok then Merged(in_, s.ram, edited) else s.ram
      case ApplySaving(next, _) => if ok then next else s.ram
      case ApplySaved(next, _) => next
      case _ => s.ram
    decreases StepsLeft(s.holder)
  {
    hide Merged, AnyReset, SameSource, WithRom;
    if !s.holder.Free? { CompletedMemory(Step(s, HolderStep(s.holder, ok)), ok); }
  }

  /** The id a sensor that an edit moves to BACnet ends with: the one given, unless it is left over from
      the endpoint the sensor had. */
  function GivenRom(in_: Sensor, cur: Sensor): Option<seq<nat>> {
    if in_.endpoint != cur.endpoint && SameIdentity(in_, cur) then None else in_.identity.rom
  }

  /** An id stored in a reachable state outlives the current holder's call exactly when that call is no
      edit, or its save fails, or it had not merged yet and leaves the sensor unedited on the same
      source. An edit that moves the sensor to BACnet ends with the id its caller gave. */
  lemma StoredIdSurvives(flash: Settings, es: seq<Event>, ok: bool)
    requires CanRun(Boot(flash), es) && Enabled(Run(Boot(flash), es), StoreRom)
    requires var s := Run(Boot(flash), es); SameSource(s.ram.sensors[s.worker.slot], s.worker.cfg)
    ensures var s := Run(Boot(flash), es);
      var t, slot, rom := Step(s, StoreRom), s.worker.slot, s.worker.rom;
      var end := RomAt(Completed(t, ok).ram, slot);
      && RomAt(t.ram, slot) == Some(rom)
      && match s.holder
         case ApplySaved(next, _) => end == if OnBacnet(next, slot) then RomAt(next, slot) else None
         case ApplySaving(next, _) =>
           end == if !ok then Some(rom) else if OnBacnet(next, slot) then RomAt(next, slot) else None
         case ApplyBegun(in_, edited) =>
           end ==
             if !ok then Some(rom)
             else if OnBacnet(in_, slot) then GivenRom(in_.sensors[slot], t.ram.sensors[slot])
             else if !edited[slot] && SameSource(in_.sensors[slot], s.ram.sensors[slot]) then Some(rom)
             else None
         case _ => end == Some(rom)
  {
    hide Run, CanRun;
    var s := Run(Boot(flash), es);
    RunLearned(Boot(flash), es);
    var t, slot := Step(s, StoreRom), s.worker.slot;
    CompletedMemory(t, ok);
    hide Completed;
    assert s.holder == t.holder;
    var next := MergedAlready(s.holder);
    if next.Some? { assert NoNewRom(next.value.sensors[slot], s.ram.sensors[slot]); }
    if s.holder.ApplyBegun? {
      MergeKeepsLearned(s.holder.in_.sensors[slot], t.ram.sensors[slot], s.holder.edited[slot]);
    }
  }

  predicate OnBacnet(settings: Settings, slot: nat)
    requires slot < SLOT_COUNT
  {
    settings.sensors[slot].endpoint.source.BacnetIp?
  }

  /** A run that loses an id: the worker learns it while an edit that touches no sensor is being saved.
      Memory had the id and ends without it; the save it asked for is still pending. */
  lemma LearnedIdCanBeLost(cfg: Settings, rom: seq<nat>)
    requires cfg.sensors[0].endpoint.source.ModbusTcp? && cfg.sensors[0].identity.rom.None?
    ensures var learn := [Poll(0), ReadRom(rom), BeginApply(cfg, [false, false]), ApplyMerge];
      var lose := [StoreRom, ApplySave(true), ApplyPublish, EndApply];
      && CanRun(Boot(cfg), learn) && CanRun(Run(Boot(cfg), learn), lose)
      && RomAt(Step(Run(Boot(cfg), learn), StoreRom).ram, 0) == Some(rom)
      && Run(Run(Boot(cfg), learn), lose) == State(cfg, cfg, true, Free, Idle)
  {
    var edited: Flags := [false, false];
    UneditedKeepsAll(cfg, edited);
    var s0 := Boot(cfg);
    var s1 := Step(s0, Poll(0));
    var s2 := Step(s1, ReadRom(rom));
    var s3 := Step(s2, BeginApply(cfg, edited));
    var s4 := Step(s3, ApplyMerge);
    assert s4 == State(cfg, cfg, false, ApplySaving(cfg, false), Learned(0, cfg.sensors[0], rom));
    RunFour(s0, Poll(0), ReadRom(rom), BeginApply(cfg, edited), ApplyMerge);
    hide Merged, AnyReset, Run, CanRun;
    EditOverwritesLearned(s4);
  }

  lemma EditOverwritesLearned(s: State)
    requires s.holder.ApplySaving? && Enabled(s, StoreRom) && SameSource(s.ram.sensors[s.worker.slot], s.worker.cfg)
    ensures var es := [StoreRom, ApplySave(true), ApplyPublish, EndApply];
      CanRun(s, es) && Run(s, es) == State(s.holder.next, s.holder.next, true, Free, Idle)
  {
    var s1 := Step(s, StoreRom);
    var s2 := Step(s1, ApplySave(true));
    var s3 := Step(s2, ApplyPublish);
    assert Step(s3, EndApply) == State(s.holder.next, s.holder.next, true, Free, Idle);
    hide SameSource;
    RunFour(s, StoreRom, ApplySave(true), ApplyPublish, EndApply);
  }
}
