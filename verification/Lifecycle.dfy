/**
 The service: claimed or not, configured or not, running or not, and the four timers that follow.
 The trace records the calls into user code.
 */
module Lifecycle {
  import opened Wire
  import opened Timers
  import opened Registers
  import opened Framing
  import Dispatch
  import Heartbeat
  import Rpc
  import SleepProofs

  const SLOW_ADVERTISEMENT := 10_000_000
  const FAST_ADVERTISEMENT := 1_000_000
  const REQUEST_INTERVAL := 1_000_000
  const DISCOVERY_TIMEOUT := 60_000_000
  const CLAIM_SIZE := 10

  // Positions of the timers in the scheduler.
  const HEARTBEAT := 0
  const ADVERTISE := 1
  const REQUEST := 2
  const DISCOVERY := 3

  datatype UserEvent =
    | OnStart(ok: bool)
    | OnStop
    | OnInput(id: nat, data: seq<byte>)
    | OnCall(id: nat, function_: nat, arguments: map<nat, seq<byte>>)

  /** User code sees successful starts and stops in turn, and inputs and calls only in between. */
  predicate WellOrdered(trace: seq<UserEvent>, running: bool)
    decreases |trace|
  {
    if trace == [] then !running
    else
      var before, last := trace[..|trace| - 1], trace[|trace| - 1];
      match last
      case OnStart(ok) => running == ok && WellOrdered(before, false)
      case OnStop => !running && WellOrdered(before, true)
      case _ => running && WellOrdered(before, true)
  }

  lemma Extend(trace: seq<UserEvent>, e: UserEvent)
    ensures (trace + [e])[..|trace|] == trace && (trace + [e])[|trace|] == e
    ensures e.OnStart? && WellOrdered(trace, false) ==> WellOrdered(trace + [e], e.ok)
    ensures e.OnStop? && WellOrdered(trace, true) ==> WellOrdered(trace + [e], false)
    ensures !e.OnStart? && !e.OnStop? && WellOrdered(trace, true) ==> WellOrdered(trace + [e], true)
  {
  }

  lemma NothingYet(registers: seq<Register>)
    ensures WellOrdered([], false)
    ensures registers == [] ==> forall vs :: AllRequiredValid(registers, vs)
  {
  }

  function Inputs(cs: seq<Chunk>): seq<UserEvent> {
    seq(|cs|, i requires 0 <= i < |cs| => OnInput(cs[i].id, cs[i].data))
  }

  lemma {:induction false} InputsWellOrdered(trace: seq<UserEvent>, cs: seq<Chunk>)
    requires WellOrdered(trace, true)
    ensures WellOrdered(trace + Inputs(cs), true)
    decreases |cs|
  {
    if cs == [] {
      assert trace + Inputs(cs) == trace;
    } else {
      var front := cs[..|cs| - 1];
      InputsWellOrdered(trace, front);
      assert trace + Inputs(cs) == (trace + Inputs(front)) + [OnInput(cs[|cs| - 1].id, cs[|cs| - 1].data)];
      Extend(trace + Inputs(front), OnInput(cs[|cs| - 1].id, cs[|cs| - 1].data));
    }
  }

  /** A declared function: its parameters, and the size of its return type. */
  datatype Function = Function(params: seq<Dispatch.Param>, returnSize: nat)

  /** A well-formed packet: the header fields that the service looks at, and the payload. */
  datatype Message = Message(kind: MessageType, arg1: nat, arg2: nat, payload: seq<byte>)

  /** What happens between two loop points; `blobOk` and `starts` are what user code returns. */
  datatype Event =
    | TickEvent(micros: nat)
    | PacketEvent(m: Message, blobOk: nat -> bool, starts: bool)
    | AnswerEvent(id: nat, status: nat, data: seq<byte>)

  predicate ValidClaim(e: Event) {
    e.PacketEvent? && e.m.kind == CLAIM && |e.m.payload| == CLAIM_SIZE
  }

  predicate IsConfiguration(e: Event) {
    e.PacketEvent? && e.m.kind == TRANSACTION && e.m.arg1 == 1
  }

  /** The last valid claim. */
  function LastClaim(es: seq<Event>): (r: Option<Event>)
    ensures r.Some? ==> ValidClaim(r.value)
    decreases |es|
  {
    if es == [] then None
    else if ValidClaim(es[|es| - 1]) then Some(es[|es| - 1])
    else LastClaim(es[..|es| - 1])
  }

  /** The endpoint a service sends to: the one in its last valid claim. */
  predicate IsTarget(claim: Option<Event>, ip: nat, port: nat)
    requires claim.Some? ==> ValidClaim(claim.value)
  {
    match claim
    case None => ip == 0 && port == 0
    case Some(c) => ip == GetU32(c.m.payload[..4]) && port == GetU16(c.m.payload[4..6])
  }

  /** The last configuration, unless a valid claim has made it void. */
  function LastConfiguration(es: seq<Event>): Option<seq<byte>>
    decreases |es|
  {
    if es == [] || ValidClaim(es[|es| - 1]) then None
    else if IsConfiguration(es[|es| - 1]) then Some(es[|es| - 1].m.payload)
    else LastConfiguration(es[..|es| - 1])
  }

  // ---------------------------------------------------------------- what a service does

  /** What never changes while a service lives. */
  datatype Setup = Setup(registers: seq<Register>, functions: map<nat, Function>)

  /** A call that user code has been given and has not answered. */
  datatype Pending = Pending(id: nat, maxSize: nat)

  /** Whether a service runs, which call it works on, what user code was told, and what was replied. */
  datatype Life = Life(running: bool, call: Option<Pending>, trace: seq<UserEvent>, replies: seq<Rpc.Reply>)

  predicate IsInput(e: Event) {
    e.PacketEvent? && (e.m.kind == DATA || (e.m.kind == TRANSACTION && e.m.arg1 == 0))
  }

  predicate IsCall(e: Event) {
    e.PacketEvent? && e.m.kind == RPC_CALL
  }

  /** The function is declared and the parameters are right. */
  predicate Executes(c: Setup, m: Message) {
    m.arg1 in c.functions && Dispatch.Accepts(c.functions[m.arg1].params, m.payload)
  }

  /** Claims and configurations stop a service; what comes after depends on the message and on user code. */
  ghost predicate Starts(c: Setup, e: Event)
    requires ValidClaim(e) || IsConfiguration(e)
  {
    if ValidClaim(e) then c.registers == [] else Acceptable(c.registers, e.m.payload, e.blobOk)
  }

  ghost predicate RunsOn(c: Setup, running: bool, e: Event) {
    if ValidClaim(e) || IsConfiguration(e) then Starts(c, e) && e.starts else running
  }

  ghost function CallOn(c: Setup, running: bool, call: Option<Pending>, e: Event): Option<Pending> {
    if ValidClaim(e) || IsConfiguration(e) then None
    else if IsCall(e) && running && call.None? then
      if Executes(c, e.m) then Some(Pending(e.m.arg2, c.functions[e.m.arg1].returnSize)) else None
    else if e.AnswerEvent? && call.Some? && call.value.id == e.id then None
    else call
  }

  /** What user code is told. */
  ghost function News(c: Setup, running: bool, call: Option<Pending>, e: Event): seq<UserEvent> {
    if ValidClaim(e) || IsConfiguration(e) then
      (if running then [OnStop] else []) + (if Starts(c, e) then [OnStart(e.starts)] else [])
    else if !running then []
    else if IsInput(e) then
      if e.m.kind == DATA then [OnInput(e.m.arg2, e.m.payload)] else Inputs(Parse(e.m.payload).chunks)
    else if IsCall(e) && call.None? && Executes(c, e.m) then
      [OnCall(e.m.arg2, e.m.arg1, Dispatch.Values(c.functions[e.m.arg1].params, Parse(e.m.payload).chunks))]
    else []
  }

  /** What is sent back to the caller, if the service is claimed. */
  ghost function Replied(c: Setup, running: bool, call: Option<Pending>, e: Event): seq<Rpc.Reply> {
    if IsCall(e) && running && call.Some? then [Rpc.Reply(e.m.arg2, Rpc.BUSY, [])]
    else if IsCall(e) && running && !Executes(c, e.m) then [Rpc.Reply(e.m.arg2, Rpc.ERROR, [])]
    else if e.AnswerEvent? && call.Some? && call.value.id == e.id then
      if (e.status == Rpc.SUCCESS && |e.data| > call.value.maxSize) || HEADER_SIZE + |e.data| > MAX_PACKET_SIZE
      then [Rpc.Reply(e.id, Rpc.ERROR, [])]
      else [Rpc.Reply(e.id, e.status, e.data)]
    else []
  }

  predicate ClaimedAfter(es: seq<Event>) {
    var claim := LastClaim(es);
    claim.Some? && GetU32(claim.value.m.payload[..4]) != 0 && GetU16(claim.value.m.payload[4..6]) != 0
  }

  /** The whole life of a service, from what has happened to it; `starts` is what the first OnStart returns. */
  ghost function LifeAfter(c: Setup, starts: bool, es: seq<Event>): Life
    decreases |es|
  {
    if es == [] then Life(c.registers == [] && starts, None, if c.registers == [] then [OnStart(starts)] else [], [])
    else
      var Life(running, call, trace, replies), e := LifeAfter(c, starts, es[..|es| - 1]), es[|es| - 1];
      Life(RunsOn(c, running, e), CallOn(c, running, call, e), trace + News(c, running, call, e),
           replies + if ClaimedAfter(es[..|es| - 1]) then Replied(c, running, call, e) else [])
  }

  /** A service with registers runs only on a configuration it accepted, and which no claim has made void. */
  lemma {:induction false} RunsConfigured(c: Setup, starts: bool, es: seq<Event>)
    requires c.registers != [] && LifeAfter(c, starts, es).running
    ensures LastConfiguration(es).Some?
    ensures exists blobOk :: Acceptable(c.registers, LastConfiguration(es).value, blobOk)
    decreases |es|
  {
    hide Acceptable, News, CallOn, Replied;
    if !IsConfiguration(es[|es| - 1]) {
      RunsConfigured(c, starts, es[..|es| - 1]);
    }
  }

  // ---------------------------------------------------------------- the timers

  /** The setter calls of OnLifecycleStatusChanged, all with the default reset. */
  function LifecycleCommands(claimed: bool, timedOut: bool, configRequired: bool): seq<Command> {
    [SetEnabled(HEARTBEAT, claimed, true),
     SetInterval(ADVERTISE, if claimed || timedOut then SLOW_ADVERTISEMENT else FAST_ADVERTISEMENT, true),
     SetEnabled(DISCOVERY, !claimed && !timedOut, true),
     SetEnabled(REQUEST, configRequired && claimed, true)]
  }

  /** The four timers, with the intervals that never change. */
  predicate FourTimers(s: Sched) {
    && |s.timers| == 4 && (forall k :: 0 <= k < 4 ==> !s.timers[k].managed)
    && s.timers[ADVERTISE].enabled
    && s.timers[REQUEST].interval == REQUEST_INTERVAL
    && s.timers[DISCOVERY].interval == DISCOVERY_TIMEOUT
  }

  /** The timers follow the state of the service. */
  predicate TimersMatch(s: Sched, claimed: bool, timedOut: bool, configRequired: bool)
    requires |s.timers| == 4
  {
    && s.timers[HEARTBEAT].enabled == claimed
    && s.timers[ADVERTISE].interval == (if claimed || timedOut then SLOW_ADVERTISEMENT else FAST_ADVERTISEMENT)
    && s.timers[REQUEST].enabled == (configRequired && claimed)
    && s.timers[DISCOVERY].enabled == (!claimed && !timedOut)
  }

  lemma LifecycleCommandsMatch(s: Sched, claimed: bool, timedOut: bool, configRequired: bool)
    requires FourTimers(s)
    ensures var t := ApplyAll(s, LifecycleCommands(claimed, timedOut, configRequired));
            && FourTimers(t) && TimersMatch(t, claimed, timedOut, configRequired)
            && t.timers[HEARTBEAT].interval == s.timers[HEARTBEAT].interval
            && (t.timers[ADVERTISE].interval != s.timers[ADVERTISE].interval ==> t.timers[ADVERTISE].lastTick == s.now)
  {
    hide ApplyAll, Apply;
    var cmds := LifecycleCommands(claimed, timedOut, configRequired);
    ApplyFour(s, cmds);
    var s1 := Apply(s, cmds[0]);
    var s2 := Apply(s1, cmds[1]);
    var s3 := Apply(s2, cmds[2]);
    Switches(s, HEARTBEAT, claimed);
    Retimes(s1, ADVERTISE, cmds[1].interval);
    Switches(s2, DISCOVERY, !claimed && !timedOut);
    Switches(s3, REQUEST, configRequired && claimed);
  }

  lemma Switches(s: Sched, k: nat, enabled: bool)
    requires k < |s.timers| && !s.timers[k].managed
    ensures var t := Apply(s, SetEnabled(k, enabled, true));
            && t.now == s.now && t.timers[k].enabled == enabled
            && t.timers[k] == s.timers[k].(enabled := enabled, lastTick := t.timers[k].lastTick)
            && forall m :: 0 <= m < |s.timers| && m != k ==> t.timers[m] == s.timers[m]
  {
  }

  lemma Retimes(s: Sched, k: nat, interval: nat)
    requires k < |s.timers|
    ensures var t := Apply(s, SetInterval(k, interval, true));
            && t.now == s.now && t.timers[k].interval == interval
            && t.timers[k] == s.timers[k].(interval := interval, lastTick := t.timers[k].lastTick)
            && (interval != s.timers[k].interval ==> t.timers[k].lastTick == s.now)
            && forall m :: 0 <= m < |s.timers| && m != k ==> t.timers[m] == s.timers[m]
  {
  }

  lemma ApplyFour(s: Sched, cmds: seq<Command>)
    requires |cmds| == 4
    ensures ApplyAll(s, cmds) == Apply(Apply(Apply(Apply(s, cmds[0]), cmds[1]), cmds[2]), cmds[3])
  {
    hide Apply;
    var s1 := Apply(s, cmds[0]);
    var s2 := Apply(s1, cmds[1]);
    var s3 := Apply(s2, cmds[2]);
    assert ApplyAll(s, cmds) == ApplyAll(s1, cmds[1..]);
    assert cmds[1..][1..] == cmds[2..] && ApplyAll(s1, cmds[1..]) == ApplyAll(s2, cmds[2..]);
    assert cmds[2..][1..] == cmds[3..] && ApplyAll(s2, cmds[2..]) == ApplyAll(s3, cmds[3..]);
    assert cmds[3..][1..] == [] && ApplyAll(s3, cmds[3..]) == ApplyAll(Apply(s3, cmds[3]), []);
  }

  /** Only the discovery timeout has a callback that touches the scheduler. */
  function Callbacks(claimed: bool, configRequired: bool): seq<seq<Command>> {
    [[], [], [], if claimed then [] else LifecycleCommands(false, true, configRequired)]
  }

  /** Heartbeats only while claimed, requests only while a configuration is due. */
  predicate MayFire(i: nat, claimed: bool, timedOut: bool, configRequired: bool) {
    && (i == HEARTBEAT ==> claimed)
    && (i == REQUEST ==> claimed && configRequired)
    && (i == DISCOVERY ==> !claimed && !timedOut)
  }

  lemma NextKeepsMatch(s: Sched, i: nat, claimed: bool, timedOut: bool, configRequired: bool)
    requires i < 4 && FourTimers(s) && TimersMatch(s, claimed, timedOut, configRequired)
    ensures FourTimers(Next(Wrapping, s, i, []))
    ensures TimersMatch(Next(Wrapping, s, i, []), claimed, timedOut, configRequired)
    ensures Fires(Wrapping, s, i) ==> MayFire(i, claimed, timedOut, configRequired)
  {
  }

  lemma DiscoveryMatches(s: Sched, claimed: bool, timedOut: bool, configRequired: bool)
    requires FourTimers(s) && TimersMatch(s, claimed, timedOut, configRequired)
    ensures var t := Next(Wrapping, s, DISCOVERY, Callbacks(claimed, configRequired)[DISCOVERY]);
            && FourTimers(t) && TimersMatch(t, claimed, timedOut || Fires(Wrapping, s, DISCOVERY), configRequired)
    ensures Fires(Wrapping, s, DISCOVERY) ==> MayFire(DISCOVERY, claimed, timedOut, configRequired)
  {
    LifecycleCommandsMatch(s, false, true, configRequired);
    hide ApplyAll, LifecycleCommands;
  }

  /** The timers from position `i` on keep matching; if the discovery timeout fires, the new state. */
  lemma {:induction false} TickFromMatches(s: Sched, i: nat, claimed: bool, timedOut: bool, configRequired: bool)
    requires i < 4 && FourTimers(s) && TimersMatch(s, claimed, timedOut, configRequired)
    ensures var r := TickFrom(Wrapping, s, i, Callbacks(claimed, configRequired));
            && FourTimers(r.sched)
            && TimersMatch(r.sched, claimed, timedOut || DISCOVERY in r.fired, configRequired)
            && (forall k :: k in r.fired ==> i <= k && MayFire(k, claimed, timedOut, configRequired))
    decreases 4 - i
  {
    hide ApplyAll, TickFrom, LifecycleCommands, Fires, Next, MayFire;
    var scripts := Callbacks(claimed, configRequired);
    TickFromUnfold(Wrapping, s, i, scripts);
    if i == DISCOVERY {
      DiscoveryMatches(s, claimed, timedOut, configRequired);
      TickFromEnd(Wrapping, Next(Wrapping, s, i, scripts[DISCOVERY]), scripts);
    } else {
      NextKeepsMatch(s, i, claimed, timedOut, configRequired);
      TickFromMatches(Next(Wrapping, s, i, []), i + 1, claimed, timedOut, configRequired);
    }
  }

  lemma TickMatches(s: Sched, count: nat, claimed: bool, timedOut: bool, configRequired: bool)
    requires FourTimers(s) && TimersMatch(s, claimed, timedOut, configRequired)
    ensures var r := Ticked(Wrapping, s, count, Callbacks(claimed, configRequired));
            && FourTimers(r.sched)
            && TimersMatch(r.sched, claimed, timedOut || DISCOVERY in r.fired, configRequired)
            && (forall k :: k in r.fired ==> MayFire(k, claimed, timedOut, configRequired))
  {
    hide TickFrom, Callbacks;
    TickFromMatches(Advance(Wrapping, s, count), 0, claimed, timedOut, configRequired);
  }

  /** When the discovery timeout fires, advertising starts over, and was due within a second anyway. */
  lemma {:induction false} TimeoutRestartsAdvertising(s: Sched, i: nat, configRequired: bool)
    requires i < 4 && FourTimers(s) && TimersMatch(s, false, false, configRequired)
    ensures var r := TickFrom(Wrapping, s, i, Callbacks(false, configRequired));
            && (DISCOVERY in r.fired ==> r.sched.timers[ADVERTISE].lastTick == s.now)
            && (i <= ADVERTISE ==> r.sleep <= FAST_ADVERTISEMENT)
    decreases 4 - i
  {
    hide TickFrom, LifecycleCommands, MayFire;
    var scripts := Callbacks(false, configRequired);
    TickFromUnfold(Wrapping, s, i, scripts);
    if i == DISCOVERY {
      LifecycleCommandsMatch(s, false, true, configRequired);
      TickFromEnd(Wrapping, Next(Wrapping, s, i, scripts[DISCOVERY]), scripts);
    } else {
      NextKeepsMatch(s, i, false, false, configRequired);
      TimeoutRestartsAdvertising(Next(Wrapping, s, i, []), i + 1, configRequired);
    }
  }

  /** Although the discovery timeout reconfigures timers before it, no timer is due before the tick says. */
  lemma TickSleepCovers(s: Sched, count: nat, claimed: bool, timedOut: bool, configRequired: bool)
    requires FourTimers(s) && TimersMatch(s, claimed, timedOut, configRequired)
    ensures !SleepProofs.TooLong(Wrapping, Ticked(Wrapping, s, count, Callbacks(claimed, configRequired)))
  {
    hide TickFrom, LifecycleCommands, SleepProofs.Overtaken;
    var s', scripts := Advance(Wrapping, s, count), Callbacks(claimed, configRequired);
    var r := TickFrom(Wrapping, s', 0, scripts);
    TickMatches(s, count, claimed, timedOut, configRequired);
    forall k: nat | k < 4 && IsEnabled(r.sched.timers[k])
      ensures r.sleep <= SleepProofs.TimeLeft(Wrapping, r.sched, k)
    {
      if SleepProofs.Overtaken(r.fired, scripts, k) {
        OnlyDiscoveryOvertakes(r.fired, claimed, configRequired, k);
        TimeoutRestartsAdvertising(s', 0, configRequired);
      } else {
        SleepProofs.SleepCovers(Wrapping, s', 0, scripts, k);
      }
    }
  }

  lemma OnlyDiscoveryOvertakes(fired: seq<nat>, claimed: bool, configRequired: bool, k: nat)
    ensures SleepProofs.Overtaken(fired, Callbacks(claimed, configRequired), k) ==>
              DISCOVERY in fired && !claimed && k < DISCOVERY
  {
  }

  // ---------------------------------------------------------------- what the callbacks send

  /** What the callbacks of the timers put on the wire. */
  datatype Notice = HeartbeatTo(ip: nat, port: nat) | RequestTo(ip: nat, port: nat) | Advertised

  function NoticeOf(i: nat, ip: nat, port: nat): seq<Notice> {
    if i == HEARTBEAT then [HeartbeatTo(ip, port)]
    else if i == ADVERTISE then [Advertised]
    else if i == REQUEST then [RequestTo(ip, port)]
    else []
  }

  function Notices(fired: seq<nat>, ip: nat, port: nat): seq<Notice>
    decreases |fired|
  {
    if fired == [] then [] else Notices(fired[..|fired| - 1], ip, port) + NoticeOf(fired[|fired| - 1], ip, port)
  }

  /** Each firing sends its own kind of packet, to the target of the service. */
  lemma {:induction false} NoticesIff(fired: seq<nat>, ip: nat, port: nat)
    ensures forall n :: n in Notices(fired, ip, port) <==>
              || (n == HeartbeatTo(ip, port) && HEARTBEAT in fired)
              || (n == Advertised && ADVERTISE in fired)
              || (n == RequestTo(ip, port) && REQUEST in fired)
    decreases |fired|
  {
    if fired != [] {
      var before, last := fired[..|fired| - 1], fired[|fired| - 1];
      NoticesIff(before, ip, port);
      assert fired == before + [last];
    }
  }

  /** Nothing is sent to nobody. */
  predicate Addressed(notices: seq<Notice>) {
    forall n :: n in notices && !n.Advertised? ==> n.ip != 0 && n.port != 0
  }

  lemma StillAddressed(notices: seq<Notice>, fired: seq<nat>, ip: nat, port: nat, timedOut: bool, configRequired: bool)
    requires Addressed(notices)
    requires forall i :: i in fired ==> MayFire(i, ip != 0 && port != 0, timedOut, configRequired)
    ensures Addressed(notices + Notices(fired, ip, port))
  {
    hide Notices;
    NoticesIff(fired, ip, port);
  }

  // ---------------------------------------------------------------- the service

  /** The timers register themselves in the order of their declaration. */
  method RegisterTimers() returns (s: Scheduler)
    ensures s.Valid() && FourTimers(s.View()) && fresh(s) && fresh(s.schedules)
  {
    s := new Scheduler();
    var heartbeat := new Schedule(s, false, false, 0);
    var advertisement := new Schedule(s, false, true, 0);
    var request := new Schedule(s, false, false, REQUEST_INTERVAL);
    var discovery := new Schedule(s, false, false, DISCOVERY_TIMEOUT);
  }

  /** A dropped packet leaves nothing on the wire. */
  function Sent(packet: Option<Rpc.Reply>): seq<Rpc.Reply> {
    if packet.Some? then [packet.value] else []
  }

  lemma DiscoveryFires(claimed: bool, timedOut: bool, configRequired: bool)
    ensures MayFire(DISCOVERY, claimed, timedOut, configRequired) ==> !claimed && !timedOut
  {
  }

  class Service {
    const registers: seq<Register>
    const functions: map<nat, Function>
    const scheduler: Scheduler
    var targetIp: nat
    var targetPort: nat
    var configRequired: bool
    var timedOut: bool
    var running: bool
    var values: Values
    var slot: Rpc.Slot
    /** The RPC responses handed to the socket. */
    var replies: seq<Rpc.Reply>
    /** Where claims were acknowledged to. */
    var acks: seq<(nat, nat)>
    /** Heartbeats, configuration requests and advertisements handed to the socket. */
    var notices: seq<Notice>
    ghost var trace: seq<UserEvent>
    /** The payload of the configuration the service was last started with. */
    ghost var accepted: seq<byte>

    predicate IsClaimed()
      reads this
    {
      targetIp != 0 && targetPort != 0
    }

    ghost predicate Valid()
      reads this, scheduler, scheduler.schedules
    {
      scheduler.Valid() && FourTimers(scheduler.View())
    }

    ghost predicate Matched()
      reads this, scheduler, scheduler.schedules
    {
      Valid() && TimersMatch(scheduler.View(), IsClaimed(), timedOut, configRequired)
    }

    function Call(): Option<Pending>
      reads this
    {
      if slot.inProgress then Some(Pending(slot.pendingId, slot.maxSize)) else None
    }

    /** What holds at every loop point. */
    ghost predicate Consistent()
      reads this, scheduler, scheduler.schedules
    {
      && Matched()
      && (timedOut ==> !IsClaimed())
      && (running ==> !configRequired && AllRequiredValid(registers, values))
      && (slot.inProgress ==> running)
      && (registers != [] ==> configRequired == !running)
      && (registers == [] ==> !configRequired)
      && (running && registers != [] ==> ConfiguredBy(registers, values, Parse(accepted).chunks))
      && WellOrdered(trace, running) && Addressed(notices)
    }

    /** The service right after construction, before its thread runs. */
    constructor (registers: seq<Register>, functions: map<nat, Function>)
      ensures this.registers == registers && this.functions == functions
      ensures Valid() && fresh(scheduler) && fresh(scheduler.schedules)
      ensures !IsClaimed() && !timedOut && !running && slot == Rpc.EMPTY_SLOT && trace == []
      ensures targetIp == 0 && targetPort == 0 && replies == [] && acks == [] && notices == []
    {
      this.registers, this.functions := registers, functions;
      var s := RegisterTimers();
      scheduler := s;
      targetIp, targetPort, configRequired, timedOut, running := 0, 0, true, false, false;
      values, slot, replies, acks, notices, trace, accepted := map[], Rpc.EMPTY_SLOT, [], [], [], [], [];
    }

    /** The interval the heartbeat timer runs at. */
    ghost function Rate(): nat
      requires Valid()
      reads this, scheduler, scheduler.schedules
    {
      scheduler.View().timers[HEARTBEAT].interval
    }

    method OnLifecycleStatusChanged()
      requires Valid()
      modifies scheduler.schedules
      ensures Matched() && Rate() == old(Rate())
      ensures scheduler.View()
           == ApplyAll(old(scheduler.View()), LifecycleCommands(IsClaimed(), timedOut, configRequired))
    {
      hide Scheduler.Valid, Scheduler.View;
      hide ApplyAll, LifecycleCommands;
      LifecycleCommandsMatch(scheduler.View(), IsClaimed(), timedOut, configRequired);
      scheduler.Execute(LifecycleCommands(IsClaimed(), timedOut, configRequired));
    }

    /** `starts` is what the user's OnStart returns. */
    method Start(starts: bool) returns (started: bool)
      requires Valid() && !running && WellOrdered(trace, false)
      modifies this`running, this`trace, scheduler.schedules
      ensures Valid() && started == running == starts && WellOrdered(trace, running)
      ensures trace == old(trace) + [OnStart(starts)] && Rate() == old(Rate())
      ensures if starts then Matched() else scheduler.View() == old(scheduler.View())
    {
      hide Scheduler.Valid, Scheduler.View;
      hide WellOrdered, TimersMatch, FourTimers;
      Extend(trace, OnStart(starts));
      trace := trace + [OnStart(starts)];
      if !starts {
        return false;
      }
      running := true;
      OnLifecycleStatusChanged();
      return true;
    }

    method Stop()
      requires Valid() && running && WellOrdered(trace, true)
      modifies this`running, this`trace, this`slot, scheduler.schedules
      ensures Matched() && !running && slot == Rpc.EMPTY_SLOT && Rate() == old(Rate())
      ensures trace == old(trace) + [OnStop] && WellOrdered(trace, false)
    {
      hide Scheduler.Valid, Scheduler.View;
      hide WellOrdered, TimersMatch, FourTimers;
      Extend(trace, OnStop);
      trace := trace + [OnStop];
      running := false;
      slot := Rpc.EMPTY_SLOT;
      OnLifecycleStatusChanged();
    }

    method LoadConfigurationDefaults()
      requires Valid()
      modifies this`values, this`configRequired, scheduler.schedules
      ensures Matched() && Rate() == old(Rate())
      ensures values == Defaults(registers) && configRequired == (registers != [])
      ensures AreDefaults(registers, values)
    {
      DefaultsAre(registers);
      values := Defaults(registers);
      configRequired := |registers| > 0;
      OnLifecycleStatusChanged();
    }

    method SendDataClaimAck()
      modifies this`acks
      ensures acks == old(acks) + if IsClaimed() then [(targetIp, targetPort)] else []
    {
      if targetIp == 0 || targetPort == 0 {
        return;
      }
      acks := acks + [(targetIp, targetPort)];
    }

    method SetRate(requested: nat)
      requires Valid()
      modifies scheduler.schedules
      ensures Valid() && Rate() == Heartbeat.HeartbeatInterval(requested, HEARTBEAT_JITTER)
    {
      hide Scheduler.Valid, Scheduler.View;
      hide Heartbeat.HeartbeatInterval;
      var interval := Heartbeat.HeartbeatInterval(requested, HEARTBEAT_JITTER);
      scheduler.Set(SetInterval(HEARTBEAT, interval, true));
    }

    /** Takes over the target of a claim, acknowledges it, and forgets the configuration. */
    method TakeOver(ip: nat, port: nat, requested: nat)
      requires Valid() && !running
      modifies this`targetIp, this`targetPort, this`timedOut, this`values, this`configRequired, this`acks
      modifies scheduler.schedules
      ensures Matched() && targetIp == ip && targetPort == port && !timedOut
      ensures acks == old(acks) + if IsClaimed() then [(ip, port)] else []
      ensures Rate() == Heartbeat.HeartbeatInterval(requested, HEARTBEAT_JITTER)
      ensures values == Defaults(registers) && configRequired == (registers != [])
    {
      hide Scheduler.Valid, Scheduler.View;
      hide TimersMatch, FourTimers, Defaults, Heartbeat.HeartbeatInterval, ApplyAll, LifecycleCommands;
      targetIp, targetPort, timedOut := ip, port, false;
      SetRate(requested);
      SendDataClaimAck();
      OnLifecycleStatusChanged();
      LoadConfigurationDefaults();
    }

    /** Stops, takes over the claimed target, and restarts if no configuration is needed. */
    method HandleClaim(payload: seq<byte>, starts: bool)
      requires Consistent()
      modifies this`targetIp, this`targetPort, this`timedOut, this`configRequired, this`running, this`values
      modifies this`slot, this`acks, this`trace, scheduler.schedules
      ensures Consistent()
      ensures |payload| != CLAIM_SIZE ==> unchanged(this) && scheduler.View() == old(scheduler.View())
      ensures |payload| == CLAIM_SIZE ==>
                && targetIp == GetU32(payload[..4]) && targetPort == GetU16(payload[4..6]) && !timedOut
                && acks == old(acks) + (if IsClaimed() then [(targetIp, targetPort)] else [])
                && Rate() == Heartbeat.HeartbeatInterval(GetU32(payload[6..]), HEARTBEAT_JITTER)
                && running == (registers == [] && starts) && values == Defaults(registers)
                && AreDefaults(registers, values) && !slot.inProgress
                && trace == old(trace) + (if old(running) then [OnStop] else [])
                            + (if registers == [] then [OnStart(starts)] else [])
    {
      hide Scheduler.Valid, Scheduler.View;
      hide ApplyAll, Apply, SetAll, WellOrdered, ConfiguredBy, GetU32, GetU16, Parse, TimersMatch, FourTimers, Defaults;
      hide Heartbeat.HeartbeatInterval, AreDefaults;
      DefaultsAre(registers);
      if |payload| != CLAIM_SIZE {
        return;
      }
      if running {
        Stop();
      }
      TakeOver(GetU32(payload[..4]), GetU16(payload[4..6]), GetU32(payload[6..]));
      if !configRequired {
        var started := Start(starts);
      }
    }

    /** Stops the service and falls back to the defaults. */
    method Reset()
      requires Valid() && WellOrdered(trace, running) && (slot.inProgress ==> running)
      modifies this`running, this`trace, this`slot, this`values, this`configRequired, scheduler.schedules
      ensures Matched() && !running && !slot.inProgress && WellOrdered(trace, false)
      ensures trace == old(trace) + (if old(running) then [OnStop] else []) && Rate() == old(Rate())
      ensures values == Defaults(registers) && configRequired == (registers != [])
    {
      hide Scheduler.Valid, Scheduler.View;
      hide WellOrdered, Defaults, FourTimers;
      if running {
        Stop();
      }
      LoadConfigurationDefaults();
    }

    /** Starts with the registers as they are; only a started service counts as configured. */
    method Launch(payload: seq<byte>, starts: bool)
      requires Matched() && !running && WellOrdered(trace, false)
      modifies this`running, this`trace, this`configRequired, this`accepted, scheduler.schedules
      ensures Matched() && running == starts && WellOrdered(trace, running)
      ensures trace == old(trace) + [OnStart(starts)] && Rate() == old(Rate())
      ensures configRequired == (!starts && old(configRequired)) && (starts ==> accepted == payload)
    {
      hide Scheduler.Valid, Scheduler.View;
      hide WellOrdered, TimersMatch, FourTimers;
      var started := Start(starts);
      if started {
        configRequired := false;
        accepted := payload;
        OnLifecycleStatusChanged();
      }
    }

    /** Whatever the message holds, it replaces the previous configuration or leaves none. */
    method HandleConfiguration(payload: seq<byte>, blobOk: nat -> bool, starts: bool)
      requires Consistent()
      modifies this`configRequired, this`running, this`values, this`slot, this`trace, this`accepted
      modifies scheduler.schedules
      ensures Consistent() && Rate() == old(Rate()) && !slot.inProgress
      ensures var complete := Acceptable(registers, payload, blobOk);
              && running == (complete && starts) && (running ==> accepted == payload)
              && (complete ==> ConfiguredBy(registers, values, Parse(payload).chunks))
              && trace == old(trace) + (if old(running) then [OnStop] else [])
                          + (if complete then [OnStart(starts)] else [])
      ensures values == SetAll(registers, Defaults(registers), Parse(payload).chunks, blobOk).0
    {
      hide Scheduler.Valid, Scheduler.View;
      hide SetAll, WellOrdered, ConfiguredBy, Parse, TimersMatch, FourTimers, Defaults, AllRequiredValid, Acceptable;
      AcceptableIff(registers, payload, blobOk);
      var complete := LoadConfiguration(payload, blobOk);
      if complete {
        Launch(payload, starts);
      }
    }

    /** Defaults overridden by the message, with the service stopped. */
    method LoadConfiguration(payload: seq<byte>, blobOk: nat -> bool) returns (complete: bool)
      requires Valid() && WellOrdered(trace, running) && (slot.inProgress ==> running)
      modifies this`configRequired, this`running, this`values, this`slot, this`trace, scheduler.schedules
      ensures Matched() && !running && !slot.inProgress && WellOrdered(trace, false) && Rate() == old(Rate())
      ensures trace == old(trace) + (if old(running) then [OnStop] else [])
      ensures configRequired == (registers != [])
      ensures var p := Parse(payload);
              var (result, ok) := SetAll(registers, Defaults(registers), p.chunks, blobOk);
              && values == result && complete == (ok && p.end == |payload| && AllRequiredValid(registers, result))
              && (complete ==> ConfiguredBy(registers, values, p.chunks))
    {
      hide Scheduler.Valid, Scheduler.View;
      hide SetAll, WellOrdered, ConfiguredBy, Parse, TimersMatch, FourTimers, Defaults, AllRequiredValid;
      Reset();
      var ok;
      values, ok := SetRegistersFromMessage(registers, values, payload, blobOk);
      if ok {
        AcceptedConfiguration(registers, Parse(payload).chunks, blobOk);
      }
      complete := ok && AllRequiredValid(registers, values);
    }

    /** What the callbacks send, in the order in which they ran. */
    method SendNotices(fired: seq<nat>)
      modifies this`notices
      ensures notices == old(notices) + Notices(fired, targetIp, targetPort)
    {
      assert fired[..0] == [];
      for i := 0 to |fired|
        invariant notices == old(notices) + Notices(fired[..i], targetIp, targetPort)
      {
        assert fired[..i + 1][..i] == fired[..i];
        Assoc(old(notices), Notices(fired[..i], targetIp, targetPort), NoticeOf(fired[i], targetIp, targetPort));
        notices := notices + NoticeOf(fired[i], targetIp, targetPort);
      }
      assert fired[..|fired|] == fired;
    }

    /** One round of timers. Returns the time to the next due timer and the timers that fired. */
    method Tick(count: nat) returns (sleep: int, fired: seq<nat>)
      requires Consistent()
      modifies this`timedOut, this`notices, scheduler, scheduler.schedules
      ensures notices == old(notices) + Notices(fired, targetIp, targetPort)
      ensures Consistent() && scheduler.schedules == old(scheduler.schedules)
      ensures TickResult(scheduler.View(), fired, sleep)
           == Ticked(Wrapping, old(scheduler.View()), count, Callbacks(IsClaimed(), configRequired))
      ensures timedOut == (old(timedOut) || DISCOVERY in fired)
      ensures forall i :: i in fired ==> MayFire(i, IsClaimed(), old(timedOut), configRequired)
      ensures !SleepProofs.TooLong(Wrapping, TickResult(scheduler.View(), fired, sleep))
    {
      hide Scheduler.Valid, Scheduler.View, SleepProofs.TooLong;
      hide Ticked, Callbacks, FourTimers, TimersMatch, MayFire, WellOrdered, ConfiguredBy, AllRequiredValid;
      hide Addressed, Notices;
      TickMatches(scheduler.View(), count, IsClaimed(), timedOut, configRequired);
      TickSleepCovers(scheduler.View(), count, IsClaimed(), timedOut, configRequired);
      DiscoveryFires(IsClaimed(), timedOut, configRequired);
      sleep, fired := scheduler.Tick(count, Callbacks(IsClaimed(), configRequired));
      if DISCOVERY in fired {
        timedOut := true;
      }
      StillAddressed(notices, fired, targetIp, targetPort, old(timedOut), configRequired);
      SendNotices(fired);
    }

    method HandleData(id: nat, data: seq<byte>)
      requires Consistent()
      modifies this`trace
      ensures Consistent()
      ensures trace == old(trace) + if running then [OnInput(id, data)] else []
    {
      if running {
        Extend(trace, OnInput(id, data));
        trace := trace + [OnInput(id, data)];
      }
    }

    /** The inputs of a transaction are delivered in order, up to the first malformed one. */
    method HandleDataTransaction(payload: seq<byte>)
      requires Consistent()
      modifies this`trace
      ensures Consistent()
      ensures trace == old(trace) + if running then Inputs(Parse(payload).chunks) else []
    {
      if running {
        var chunks, processed := ParseTransaction(payload);
        InputsWellOrdered(trace, chunks);
        trace := trace + Inputs(chunks);
      }
    }

    /** A response goes out whole or not at all, and the caller is told which. */
    method TransmitRpcResponse(id: nat, status: nat, data: seq<byte>) returns (ok: bool)
      modifies this`replies
      ensures ok <==> IsClaimed() && HEADER_SIZE + |data| <= MAX_PACKET_SIZE
      ensures ok ==> |replies| == |old(replies)| + 1 && replies[..|old(replies)|] == old(replies)
      ensures ok ==> var r := replies[|old(replies)|]; r.id == id && r.status == status && r.data == data
      ensures !ok ==> replies == old(replies)
    {
      if !IsClaimed() {
        return false;
      }
      if HEADER_SIZE + |data| > MAX_PACKET_SIZE {
        return false;
      }
      replies := replies + [Rpc.Reply(id, status, data)];
      return true;
    }

    /** Only the call in progress is answered, and only once. */
    method SendRpcResponse(id: nat, status: nat, data: seq<byte>) returns (ok: bool)
      modifies this`replies, this`slot
      ensures var (slot', reply) := Rpc.Respond(old(slot), IsClaimed(), id, status, data);
              slot == slot' && replies == old(replies) + Sent(reply)
      ensures ok <==> Rpc.Expects(old(slot), id) && !(status == Rpc.SUCCESS && |data| > old(slot).maxSize)
                      && HEADER_SIZE + |data| <= MAX_PACKET_SIZE && IsClaimed()
      ensures AnswerFollows(id, status, data)
    {
      if !slot.inProgress || id != slot.pendingId {
        return false;
      }
      var maxResponse := slot.maxSize;
      slot := slot.(inProgress := false);
      if status == Rpc.SUCCESS && |data| > maxResponse {
        var sent := TransmitRpcResponse(id, Rpc.ERROR, []);
        return false;
      }
      if HEADER_SIZE + |data| > MAX_PACKET_SIZE {
        var sent := TransmitRpcResponse(id, Rpc.ERROR, []);
        return false;
      }
      ok := TransmitRpcResponse(id, status, data);
    }

    /** A call is refused, or reaches user code with the values of its parameters. */
    method HandleRpcCall(id: nat, function_: nat, payload: seq<byte>)
      requires Consistent()
      modifies this`slot, this`replies, this`trace
      ensures Consistent()
      ensures !running ==> slot == old(slot) && replies == old(replies) && trace == old(trace)
      ensures running && old(slot).inProgress ==>
                && slot == old(slot) && trace == old(trace)
                && replies == old(replies) + Sent(Rpc.Transmit(IsClaimed(), id, Rpc.BUSY, []))
      ensures running && !old(slot).inProgress ==>
                var declared := function_ in functions && Dispatch.Accepts(functions[function_].params, payload);
                if declared then
                  && slot == Rpc.Slot(true, id, functions[function_].returnSize) && replies == old(replies)
                  && var arguments := Dispatch.Values(functions[function_].params, Parse(payload).chunks);
                     trace == old(trace) + [OnCall(id, function_, arguments)]
                else
                  && !slot.inProgress && trace == old(trace)
                  && replies == old(replies) + Sent(Rpc.Transmit(IsClaimed(), id, Rpc.ERROR, []))
    {
      hide Scheduler.Valid, Scheduler.View;
      hide Dispatch.Accepts, Dispatch.Values, WellOrdered, Parse, ConfiguredBy, AllRequiredValid;
      hide TimersMatch, FourTimers, Dispatch.CallIsGood, Dispatch.ArgumentsOf, Dispatch.DistinctIds;
      hide Service.AnswerFollows;
      if !running {
        return;
      }
      if slot.inProgress {
        var sent := TransmitRpcResponse(id, Rpc.BUSY, []);
        return;
      }
      slot := slot.(inProgress := true, pendingId := id);
      var call, arguments := false, map[];
      if function_ in functions {
        call, arguments := Dispatch.DispatchRpcCall(functions[function_].params, payload);
      }
      if !call {
        var ok := SendRpcResponse(id, Rpc.ERROR, []);
        return;
      }
      slot := slot.(maxSize := functions[function_].returnSize);
      Extend(trace, OnCall(id, function_, arguments));
      trace := trace + [OnCall(id, function_, arguments)];
    }

    /** The answer ends the call in progress if it is for that call, and else does nothing. */
    twostate predicate AnswerFollows(id: nat, status: nat, data: seq<byte>)
      reads this
    {
      var call := old(Call());
      if call.None? || call.value.id != id then Call() == call && replies == old(replies)
      else
        var tooLarge := (status == Rpc.SUCCESS && |data| > call.value.maxSize)
                        || HEADER_SIZE + |data| > MAX_PACKET_SIZE;
        && Call().None?
        && replies == old(replies) + if !IsClaimed() then []
                                     else if tooLarge then [Rpc.Reply(id, Rpc.ERROR, [])]
                                     else [Rpc.Reply(id, status, data)]
    }

    /** The state that user code and callers see is as before. */
    twostate predicate NothingHeard()
      reads this
    {
      trace == old(trace) && running == old(running) && Call() == old(Call()) && replies == old(replies)
    }

    /** What a call leads to: nothing if stopped, BUSY, ERROR, or its execution. */
    twostate predicate CallFollows(id: nat, function_: nat, payload: seq<byte>)
      reads this
    {
      var reply := if IsClaimed() then [Rpc.Reply(id, if old(Call()).Some? then Rpc.BUSY else Rpc.ERROR, [])] else [];
      running == old(running)
      && if !running then NothingHeard()
         else if old(Call()).Some? then trace == old(trace) && Call() == old(Call()) && replies == old(replies) + reply
         else if function_ in functions && Dispatch.Accepts(functions[function_].params, payload) then
           var arguments := Dispatch.Values(functions[function_].params, Parse(payload).chunks);
           && trace == old(trace) + [OnCall(id, function_, arguments)] && replies == old(replies)
           && Call() == Some(Pending(id, functions[function_].returnSize))
         else trace == old(trace) && Call().None? && replies == old(replies) + reply
    }

    /** The switch over the message type; description requests and unknown types do not touch this state. */
    method HandleMessage(m: Message, blobOk: nat -> bool, starts: bool)
      requires Consistent()
      modifies this, scheduler.schedules
      ensures Consistent() && notices == old(notices)
      ensures var e := PacketEvent(m, blobOk, starts); TargetFollows(e) && ConfigurationFollows(e)
      ensures m.kind == CLAIM && |m.payload| == CLAIM_SIZE ==>
                && running == (registers == [] && starts) && Call().None? && replies == old(replies)
                && trace == old(trace) + (if old(running) then [OnStop] else [])
                            + (if registers == [] then [OnStart(starts)] else [])
      ensures m.kind == DATA ==>
                && running == old(running) && Call() == old(Call()) && replies == old(replies)
                && trace == old(trace) + if running then [OnInput(m.arg2, m.payload)] else []
      ensures m.kind == TRANSACTION && m.arg1 == 0 ==>
                && running == old(running) && Call() == old(Call()) && replies == old(replies)
                && trace == old(trace) + if running then Inputs(Parse(m.payload).chunks) else []
      ensures m.kind == TRANSACTION && m.arg1 == 1 ==>
                var complete := Acceptable(registers, m.payload, blobOk);
                && running == (complete && starts) && Call().None? && replies == old(replies)
                && trace == old(trace) + (if old(running) then [OnStop] else [])
                            + (if complete then [OnStart(starts)] else [])
      ensures m.kind == RPC_CALL ==> CallFollows(m.arg2, m.arg1, m.payload)
      ensures (m.kind == CLAIM && |m.payload| != CLAIM_SIZE) || (m.kind == TRANSACTION && m.arg1 > 1) ==> NothingHeard()
      ensures m.kind == DESCRIPTION_REQUEST || m.kind == DESCRIPTION_PART || m.kind == OTHER ==> NothingHeard()
    {
      hide Scheduler.Valid, Scheduler.View, Service.Consistent, Service.Valid;
      hide ApplyAll, Apply, SetAll, WellOrdered, ConfiguredBy, GetU32, GetU16, Parse, TimersMatch, FourTimers;
      hide Defaults, AllRequiredValid, Heartbeat.HeartbeatInterval, Dispatch.Accepts, Dispatch.Values, Inputs;
      hide Acceptable, AreDefaults;
      match m.kind
      case CLAIM => HandleClaim(m.payload, starts);
      case DATA => HandleData(m.arg2, m.payload);
      case TRANSACTION =>
        if m.arg1 == 0 && running {
          HandleDataTransaction(m.payload);
        } else if m.arg1 == 1 {
          HandleConfiguration(m.payload, blobOk, starts);
        }
      case RPC_CALL => HandleRpcCall(m.arg2, m.arg1, m.payload);
      case _ =>
    }

    /** Only a valid claim changes the target. */
    twostate predicate TargetFollows(e: Event)
      reads this
    {
      if ValidClaim(e) then IsTarget(Some(e), targetIp, targetPort)
      else targetIp == old(targetIp) && targetPort == old(targetPort)
    }

    /** Only a configuration makes a service with registers run, and a valid claim ends that. */
    twostate predicate ConfigurationFollows(e: Event)
      reads this
    {
      running && registers != [] ==>
        if IsConfiguration(e) then accepted == e.m.payload
        else !ValidClaim(e) && old(running) && accepted == old(accepted)
    }

    function Fixed(): Setup {
      Setup(registers, functions)
    }

    /** The part of the state that user code and callers see. */
    ghost function Heard(): Life
      reads this
    {
      Life(running, Call(), trace, replies)
    }

    /** What user code and callers see follows from what they saw before and from the event. */
    twostate predicate LifeFollows(e: Event)
      reads this
    {
      var Life(was, call, told, sent) := old(Heard());
      Heard() == Life(RunsOn(Fixed(), was, e), CallOn(Fixed(), was, call, e), told + News(Fixed(), was, call, e),
                      sent + if old(IsClaimed()) then Replied(Fixed(), was, call, e) else [])
    }

    method HandlePacket(m: Message, blobOk: nat -> bool, starts: bool)
      requires Consistent()
      modifies this, scheduler.schedules
      ensures Consistent() && notices == old(notices)
      ensures var e := PacketEvent(m, blobOk, starts); TargetFollows(e) && ConfigurationFollows(e) && LifeFollows(e)
    {
      hide Scheduler.Valid, Scheduler.View, Service.Consistent, Service.Valid;
      hide Parse, GetU32, GetU16, Acceptable, Inputs, Dispatch.Accepts, Dispatch.Values, Service.ConfigurationFollows;
      HandleMessage(m, blobOk, starts);
    }

    /** A worker answers, in another thread. */
    method HandleAnswer(id: nat, status: nat, data: seq<byte>)
      requires Consistent()
      modifies this`replies, this`slot
      ensures Consistent() && running == old(running) && trace == old(trace) && AnswerFollows(id, status, data)
    {
      hide Scheduler.Valid, Scheduler.View, FourTimers, TimersMatch;
      hide WellOrdered, ConfiguredBy, AllRequiredValid, Service.AnswerFollows;
      var ok := SendRpcResponse(id, status, data);
    }

    /** One event of the processing loop, or an answer from a worker. */
    method Handle(e: Event)
      requires Consistent()
      modifies this, scheduler, scheduler.schedules
      ensures Consistent() && scheduler.schedules == old(scheduler.schedules)
      ensures TargetFollows(e) && ConfigurationFollows(e) && LifeFollows(e)
      ensures e.TickEvent? ==>
                var r := Ticked(Wrapping, old(scheduler.View()), e.micros, Callbacks(IsClaimed(), configRequired));
                && scheduler.View() == r.sched && timedOut == (old(timedOut) || DISCOVERY in r.fired)
                && notices == old(notices) + Notices(r.fired, targetIp, targetPort)
      ensures !e.TickEvent? ==> notices == old(notices)
    {
      hide Scheduler.Valid, Scheduler.View, Service.Consistent, Service.Valid;
      hide Parse, GetU32, GetU16, Acceptable, Inputs, Dispatch.Accepts, Dispatch.Values, Ticked, Callbacks, MayFire;
      match e
      case TickEvent(micros) => var sleep, fired := Tick(micros);
      case PacketEvent(m, blobOk, starts) => HandlePacket(m, blobOk, starts);
      case AnswerEvent(id, status, data) => HandleAnswer(id, status, data);
    }

    /** Before the loop: defaults are loaded, and a service without registers starts. */
    method Begin(starts: bool)
      requires Valid() && !running && !IsClaimed() && !timedOut && slot == Rpc.EMPTY_SLOT && trace == []
      requires targetIp == 0 && targetPort == 0 && replies == [] && notices == []
      modifies this, scheduler.schedules
      ensures Consistent() && Heard() == LifeAfter(Fixed(), starts, [])
      ensures targetIp == 0 && targetPort == 0 && (running ==> registers == [])
    {
      hide Scheduler.Valid, Scheduler.View;
      hide WellOrdered, ConfiguredBy, TimersMatch, FourTimers, Parse, Defaults, AreDefaults;
      NothingYet(registers);
      LoadConfigurationDefaults();
      if !configRequired {
        var started := Start(starts);
      }
    }

    lemma WhileRunning()
      requires Consistent()
      ensures running ==> forall r :: r in registers && r.Value? && !r.optional ==> r.param.id in values
      ensures running && registers != [] ==> ConfiguredBy(registers, values, Parse(accepted).chunks)
    {
      hide Scheduler.Valid, Scheduler.View, ConfiguredBy, Parse;
    }

    /**
     The whole life of a service: `Consistent` at every loop point of every run; what user code was told, the
     replies and whether it runs are determined by what happened; the target is the one last claimed, and a
     running service holds exactly what the last configuration asked for.
     */
    method RunProcessing(events: seq<Event>, starts: bool)
      requires Valid() && !running && !IsClaimed() && !timedOut && slot == Rpc.EMPTY_SLOT && trace == []
      requires targetIp == 0 && targetPort == 0 && replies == [] && notices == []
      modifies this, scheduler, scheduler.schedules
      ensures Consistent()
      ensures Heard() == LifeAfter(Fixed(), starts, events)
      ensures IsTarget(LastClaim(events), targetIp, targetPort)
      ensures running ==> forall r :: r in registers && r.Value? && !r.optional ==> r.param.id in values
      ensures running && registers != [] ==>
                && LastConfiguration(events).Some?
                && ConfiguredBy(registers, values, Parse(LastConfiguration(events).value).chunks)
                && WrittenFit(registers, values, Parse(LastConfiguration(events).value).chunks)
                && exists blobOk :: Acceptable(registers, LastConfiguration(events).value, blobOk)
    {
      hide Scheduler.Valid, Scheduler.View, Service.Valid, Service.Consistent;
      hide RunsOn, CallOn, News, Replied, Acceptable, WrittenFit, ConfiguredBy, Parse, GetU16, GetU32;
      Begin(starts);
      assert events[..0] == [];
      var i := 0;
      while i < |events|
        invariant i <= |events| && Consistent() && scheduler.schedules == old(scheduler.schedules)
        invariant Heard() == LifeAfter(Fixed(), starts, events[..i])
        invariant IsTarget(LastClaim(events[..i]), targetIp, targetPort)
        invariant running && registers != [] ==> LastConfiguration(events[..i]) == Some(accepted)
      {
        assert events[..i + 1][..i] == events[..i];
        Handle(events[i]);
        i := i + 1;
      }
      assert events[..i] == events;
      WhileRunning();
      if running && registers != [] {
        RunsConfigured(Fixed(), starts, events);
        ghost var blobOk :| Acceptable(registers, LastConfiguration(events).value, blobOk);
        AcceptableFits(registers, LastConfiguration(events).value, blobOk, values);
      }
    }
  }
}
