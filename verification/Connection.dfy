/**
 One interface object and its service: what the discovery thread and the IO thread tell the interface,
 and in which order. Both threads call it without holding a common lock.
 */
module Connection {
  import opened Wire
  import Discovery

  /** The discovery thread reports to ServiceIO first; then the interface looks the service up and acts on it. */
  datatype SdPhase = SdIdle | TellIo | ReadInfo | ApplyInfo

  /** After a timeout the IO thread drops the service, then tells the interface. */
  datatype IoPhase = IoIdle | Dropping | Disconnecting

  datatype Link = Link(
    known: bool, compatible: bool,           // ServiceDiscovery: the entry, and whether it matches the interface
    managed: bool,                           // ServiceIO: endpoint_map_
    registered: bool, discovered: bool,      // the interface: io_callbacks_registered_, service_discovered_
    sd: SdPhase, io: IoPhase)

  const APART: Link := Link(false, false, false, false, false, SdIdle, IoIdle)

  datatype Step = Advertise(compatible: bool) | SdStep | TimeOut | IoStep

  function OnAdvertisement(s: Link, compatible: bool): Link {
    if s.sd != SdIdle || (s.known && s.compatible == compatible) then s
    else s.(known := true, compatible := compatible, sd := TellIo)
  }

  /** What the interface does with the entry it has read, and the registration or its removal that follows. */
  function OnInfo(s: Link): Link {
    if s.compatible then
      s.(discovered := true, registered := true, managed := s.managed || (!s.registered && s.known))
    else s.(discovered := false, registered := false, managed := s.managed && !s.registered)
  }

  function SdNext(s: Link): Link {
    match s.sd
    case SdIdle => s
    case TellIo => s.(managed := if s.registered then s.known else s.managed, sd := ReadInfo)
    case ReadInfo => s.(sd := if s.known then ApplyInfo else SdIdle)
    case ApplyInfo => OnInfo(s).(sd := SdIdle)
  }

  function IoNext(s: Link): Link {
    match s.io
    case IoIdle => s
    case Dropping => s.(known := false, io := Disconnecting)
    case Disconnecting => s.(discovered := false, io := IoIdle)
  }

  function Next(s: Link, e: Step): Link {
    match e
    case Advertise(compatible) => OnAdvertisement(s, compatible)
    case SdStep => SdNext(s)
    case TimeOut => if s.io == IoIdle && s.managed then s.(managed := false, io := Dropping) else s
    case IoStep => IoNext(s)
  }

  function Run(s: Link, es: seq<Step>): Link
    decreases |es|
  {
    if es == [] then s else Next(Run(s, es[..|es| - 1]), es[|es| - 1])
  }

  predicate Quiet(s: Link) {
    s.sd == SdIdle && s.io == IoIdle
  }

  /** The interface, ServiceIO and ServiceDiscovery agree about the service. */
  predicate InStep(s: Link) {
    && (s.known && s.compatible ==> s.discovered && s.registered && s.managed)
    && (s.known && !s.compatible ==> !s.discovered && !s.registered)
  }

  /** The discovery thread tells the interface while the IO thread is about to tell it the opposite. */
  predicate Overtaken(s: Link, e: Step) {
    e == SdStep && s.sd == ApplyInfo && s.io == Disconnecting && s.known && s.compatible
  }

  ghost predicate NoOvertaking(es: seq<Step>)
    decreases |es|
  {
    es != [] ==> NoOvertaking(es[..|es| - 1]) && !Overtaken(Run(APART, es[..|es| - 1]), es[|es| - 1])
  }

  ghost predicate Inv(s: Link) {
    && (s.managed ==> s.registered)
    && (s.sd == SdIdle && s.known && s.compatible ==>
          s.registered && s.discovered && s.io != Disconnecting && (s.managed || s.io == Dropping))
    && (s.sd == SdIdle && s.known && !s.compatible ==> !s.registered && !s.discovered)
    && ((s.sd == ReadInfo || s.sd == ApplyInfo) && s.known && s.registered ==> s.managed || s.io == Dropping)
  }

  lemma NextKeepsInv(s: Link, e: Step)
    requires Inv(s) && !Overtaken(s, e)
    ensures Inv(Next(s, e))
  {
  }

  lemma {:induction false} RunKeepsInv(es: seq<Step>)
    requires NoOvertaking(es)
    ensures Inv(Run(APART, es))
    decreases |es|
  {
    if es != [] {
      RunKeepsInv(es[..|es| - 1]);
      NextKeepsInv(Run(APART, es[..|es| - 1]), es[|es| - 1]);
    }
  }

  /**
   Whenever both threads have finished what they began, the interface agrees with ServiceIO and with
   ServiceDiscovery, in every run without an overtaken disconnect.
   */
  lemma QuietMeansInStep(es: seq<Step>)
    requires NoOvertaking(es) && Quiet(Run(APART, es))
    ensures InStep(Run(APART, es))
  {
    RunKeepsInv(es);
  }

  /**
   An overtaken disconnect is what breaks it: once the two threads are done, the service is known, but
   its interface refuses to send, and no further advertisement of the same service changes that.
   */
  lemma OvertakenStaysApart(s: Link)
    requires Overtaken(s, SdStep)
    ensures var t := Next(Next(s, SdStep), IoStep);
            && Quiet(t) && t.known && t.compatible && t.registered && !t.discovered
            && Next(t, Step.Advertise(true)) == t
  {
  }

  function Comeback(): seq<Step> {
    [Advertise(true), SdStep, SdStep, SdStep, TimeOut, IoStep, Advertise(true), SdStep, SdStep]
  }

  /** It can happen: a service times out and is advertised again before the interface hears of the timeout. */
  lemma OvertakingIsReachable()
    ensures Overtaken(Run(APART, Comeback()), SdStep)
  {
    var es := Comeback();
    assert es[..9] == es;
    assert forall k :: 0 < k <= 9 ==> es[..k][..k - 1] == es[..k - 1] && es[..k][k - 1] == es[k - 1];
    var known := APART.(known := true, compatible := true);
    var linked := known.(managed := true, registered := true, discovered := true);
    assert Run(APART, es[..1]) == known.(sd := TellIo);
    assert Run(APART, es[..2]) == known.(sd := ReadInfo);
    assert Run(APART, es[..3]) == known.(sd := ApplyInfo);
    assert Run(APART, es[..4]) == linked;
    assert Run(APART, es[..5]) == linked.(managed := false, io := Dropping);
    assert Run(APART, es[..6]) == linked.(managed := false, known := false, io := Disconnecting);
    assert Run(APART, es[..7]) == linked.(managed := false, sd := TellIo, io := Disconnecting);
    assert Run(APART, es[..8]) == linked.(sd := ReadInfo, io := Disconnecting);
  }

  // ---------------------------------------------------------------- the code, on objects

  class InterfaceBase {
    const id: nat
    const kind: string
    const version: nat
    var discovered: bool
    var registered: bool

    constructor (id: nat, kind: string, version: nat)
      ensures this.id == id && this.kind == kind && this.version == version && !discovered && !registered
    {
      this.id, this.kind, this.version := id, kind, version;
      discovered, registered := false, false;
    }

    /** `info` is the entry in ServiceDiscovery. Returns what to do at ServiceIO. */
    method OnServiceDiscovered(serviceId: nat, info: Option<Discovery.Info>) returns (register: bool, unregister: bool)
      modifies this
      ensures serviceId != id || info.None? ==>
                discovered == old(discovered) && registered == old(registered) && !register && !unregister
      ensures serviceId == id && info.Some? ==>
                var same := info.value.kind == kind && info.value.version == version;
                && discovered == registered == same
                && register == (same && !old(registered)) && unregister == (!same && old(registered))
      ensures serviceId == id && info.Some? ==>
                forall s: Link ::
                  && s.compatible == (info.value.kind == kind && info.value.version == version)
                  && s.registered == old(registered) && s.discovered == old(discovered) ==>
                    && OnInfo(s).registered == registered && OnInfo(s).discovered == discovered
                    && OnInfo(s).managed == ((s.managed || (register && s.known)) && !unregister)
    {
      register, unregister := false, false;
      if serviceId != id {
        return;
      }
      if info.None? {
        return;
      }
      if info.value.kind == kind && info.value.version == version {
        register := !registered;
        discovered := true;
        registered := true;
        return;
      }
      unregister := registered;
      if discovered || registered {
        discovered := false;
        registered := false;
      }
      if unregister {
        MarkServiceDisconnected(serviceId);
      }
    }

    method MarkServiceDisconnected(serviceId: nat)
      modifies this`discovered
      ensures discovered == (serviceId != id && old(discovered))
    {
      if serviceId != id {
        return;
      }
      discovered := false;
    }
  }
}
