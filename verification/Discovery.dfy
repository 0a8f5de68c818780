/**
 Discovery and claiming at the interface. A discovery thread, an IO thread and user threads work on
 two tables under two locks; each critical section is one step, and what a thread still has to do
 after leaving one is part of the state.
 */
module Discovery {
  import opened Wire

  const CLAIM_SPACING: int := 1_000
  const SILENCE_LIMIT: int := DEFAULT_HEARTBEAT + HEARTBEAT_JITTER

  datatype Info = Info(ip: nat, port: nat, kind: string, version: nat)

  datatype ServiceState = ServiceState(claimed: bool, lastClaimSent: int, lastHeartbeat: int)

  const FRESH: ServiceState := ServiceState(false, 0, 0)

  /** A claim packet and where it was sent. */
  datatype Claim = Claim(id: nat, ip: nat, port: nat)

  /** An endpoint lookup by a thread that holds the state lock and has yet to act on it. */
  datatype Lookup = Lookup(id: nat, found: bool)

  datatype Tables = Tables(
    discovered: map<nat, Info>,
    endpoints: map<nat, ServiceState>,
    callbacks: map<nat, seq<nat>>,
    /** The service the discovery thread has to report next. */
    notifying: Option<nat>,
    /** Somebody holds the state lock, between looking up an endpoint and using the answer. */
    ensuring: Option<Lookup>,
    /** What the IO thread has collected in its current round. */
    toClaim: set<nat>, toDrop: set<nat>,
    /** The service the IO thread is about to send a claim to, after it has released the state lock. */
    claiming: Option<nat>,
    claims: seq<Claim>)

  const EMPTY: Tables := Tables(map[], map[], map[], None, None, {}, {}, None, [])

  datatype Event =
    | Advertise(id: nat, info: Info)       // discovery thread: one advertisement received
    | BeginDiscovered                      // discovery thread: OnServiceDiscovered, up to the lookup
    | BeginRegister(id: nat, cb: nat)      // user: RegisterCallbacks, up to the lookup
    | EndEnsure                            // either: the rest of EnsureServiceState
    | Unregister(cb: nat)                  // user: UnregisterCallbacks
    | Check(now: int)                      // IO thread: collect what to claim and what to drop
    | ClaimNext(id: nat, now: int)         // IO thread: ClaimService, up to the release of the lock
    | SendClaim(bound: bool)               // IO thread: the rest of ClaimService, with its endpoint lookup
    | DropNext(id: nat)                    // IO thread: DropService
    | Ack(id: nat, arg1: nat, now: int)    // IO thread: HandleClaimMessage
    | Heartbeat(id: nat, now: int)         // IO thread: HandleHeartbeatMessage

  predicate HasInterest(s: Tables, id: nat) {
    id in s.callbacks && s.callbacks[id] != []
  }

  predicate Reachable(s: Tables, id: nat) {
    id in s.discovered && s.discovered[id].ip != 0 && s.discovered[id].port != 0
  }

  predicate Silent(t: ServiceState, now: int) {
    t.claimed && now - t.lastHeartbeat > SILENCE_LIMIT
  }

  predicate SameKind(a: Info, b: Info) {
    a.kind == b.kind && a.version == b.version
  }

  function Without(cbs: seq<nat>, cb: nat): (r: seq<nat>)
    ensures cb !in r
    ensures forall c :: c in r <==> c in cbs && c != cb
  {
    if cbs == [] then [] else (if cbs[0] == cb then [] else [cbs[0]]) + Without(cbs[1..], cb)
  }

  /** Only `cb` goes, and the others stay in order. */
  lemma {:induction false} WithoutAppend(cbs: seq<nat>, c: nat, cb: nat)
    ensures Without(cbs + [c], cb) == Without(cbs, cb) + (if c == cb then [] else [c])
    ensures Without([], cb) == []
  {
    if cbs == [] {
      assert [] + [c] == [c] && [c][1..] == [];
    } else {
      assert (cbs + [c])[1..] == cbs[1..] + [c];
      WithoutAppend(cbs[1..], c, cb);
      Assoc(if cbs[0] == cb then [] else [cbs[0]], Without(cbs[1..], cb), if c == cb then [] else [c]);
    }
  }

  /** The IO thread is not in the middle of a round. */
  predicate IoIdle(s: Tables) {
    s.toClaim == {} && s.toDrop == {} && s.claiming.None?
  }

  predicate Enabled(s: Tables, e: Event) {
    match e
    case Advertise(_, _) => s.notifying.None?
    case BeginDiscovered => s.notifying.Some? && s.ensuring.None?
    case BeginRegister(_, _) => s.ensuring.None?
    case EndEnsure => s.ensuring.Some?
    case Unregister(_) => s.ensuring.None?
    case Check(_) => s.ensuring.None? && IoIdle(s)
    case ClaimNext(id, _) => s.ensuring.None? && s.claiming.None? && id in s.toClaim
    case SendClaim(_) => s.claiming.Some?
    case DropNext(id) => s.toClaim == {} && s.claiming.None? && id in s.toDrop
    case Ack(_, _, _) => s.ensuring.None? && IoIdle(s)
    case Heartbeat(_, _) => s.ensuring.None? && IoIdle(s)
  }

  function OnAdvertisement(s: Tables, id: nat, info: Info): Tables {
    if info.ip == 0 || info.port == 0 then s
    else if id !in s.discovered || !SameKind(s.discovered[id], info) then
      s.(discovered := s.discovered[id := info], notifying := Some(id))
    else s.(discovered := s.discovered[id := s.discovered[id].(ip := info.ip, port := info.port)])
  }

  function LookUp(s: Tables, id: nat): Tables {
    if HasInterest(s, id) then s.(ensuring := Some(Lookup(id, Reachable(s, id)))) else s
  }

  function OnDiscovered(s: Tables): Tables
    requires s.notifying.Some?
  {
    var id := s.notifying.value;
    if !HasInterest(s, id) then s.(notifying := None)
    else LookUp(s.(notifying := None, endpoints := s.endpoints - {id}), id)
  }

  function OnRegister(s: Tables, id: nat, cb: nat): Tables {
    var cbs := if id in s.callbacks then s.callbacks[id] else [];
    if cb in cbs then s else LookUp(s.(callbacks := s.callbacks[id := cbs + [cb]]), id)
  }

  function OnEnsured(s: Tables): Tables
    requires s.ensuring.Some?
  {
    var Lookup(id, found) := s.ensuring.value;
    if found && id !in s.endpoints
    then s.(ensuring := None, endpoints := s.endpoints[id := FRESH])
    else s.(ensuring := None)
  }

  function OnUnregister(s: Tables, cb: nat): Tables {
    s.(callbacks := map id | id in s.callbacks && Without(s.callbacks[id], cb) != [] :: Without(s.callbacks[id], cb),
       endpoints := map id | id in s.endpoints && (id in s.callbacks ==> Without(s.callbacks[id], cb) != [])
                      :: s.endpoints[id])
  }

  function OnCheck(s: Tables, now: int): Tables {
    s.(endpoints := map id | id in s.endpoints && !Silent(s.endpoints[id], now) :: s.endpoints[id],
       toClaim := (set id | id in s.endpoints && !s.endpoints[id].claimed),
       toDrop := (set id | id in s.endpoints && Silent(s.endpoints[id], now) && id in s.callbacks))
  }

  function OnClaim(s: Tables, id: nat, now: int): Tables {
    var s' := s.(toClaim := s.toClaim - {id});
    if id !in s.endpoints || now - s.endpoints[id].lastClaimSent < CLAIM_SPACING then s'
    else s'.(endpoints := s.endpoints[id := s.endpoints[id].(lastClaimSent := now, claimed := false)],
             claiming := Some(id))
  }

  /** By now the service may have moved, or be gone. */
  function OnSendClaim(s: Tables, bound: bool): Tables
    requires s.claiming.Some?
  {
    var id := s.claiming.value;
    s.(claiming := None,
       claims := if bound && Reachable(s, id)
                 then s.claims + [Claim(id, s.discovered[id].ip, s.discovered[id].port)] else s.claims)
  }

  function OnDrop(s: Tables, id: nat): Tables {
    s.(discovered := s.discovered - {id}, toDrop := s.toDrop - {id})
  }

  function OnAck(s: Tables, id: nat, arg1: nat, now: int): Tables {
    if arg1 != 1 || id !in s.endpoints then s
    else s.(endpoints := s.endpoints[id := s.endpoints[id].(lastHeartbeat := now, claimed := true)])
  }

  function OnHeartbeat(s: Tables, id: nat, now: int): Tables {
    if id !in s.endpoints then s
    else s.(endpoints := s.endpoints[id := s.endpoints[id].(lastHeartbeat := now)])
  }

  /** A step whose thread is elsewhere or waits for a lock does not happen. */
  function Step(s: Tables, e: Event): Tables {
    if !Enabled(s, e) then s
    else
      match e
      case Advertise(id, info) => OnAdvertisement(s, id, info)
      case BeginDiscovered => OnDiscovered(s)
      case BeginRegister(id, cb) => OnRegister(s, id, cb)
      case EndEnsure => OnEnsured(s)
      case Unregister(cb) => OnUnregister(s, cb)
      case Check(now) => OnCheck(s, now)
      case ClaimNext(id, now) => OnClaim(s, id, now)
      case SendClaim(bound) => OnSendClaim(s, bound)
      case DropNext(id) => OnDrop(s, id)
      case Ack(id, arg1, now) => OnAck(s, id, arg1, now)
      case Heartbeat(id, now) => OnHeartbeat(s, id, now)
  }

  function Run(s: Tables, es: seq<Event>): Tables
    decreases |es|
  {
    if es == [] then s else Run(Step(s, es[0]), es[1..])
  }

  lemma NoEvents(s: Tables)
    ensures Run(s, []) == s
  {
  }

  lemma {:induction false} RunAppend(s: Tables, es: seq<Event>, e: Event)
    ensures Run(s, es + [e]) == Step(Run(s, es), e)
    decreases |es|
  {
    if es == [] {
      assert es + [e] == [e];
    } else {
      assert (es + [e])[1..] == es[1..] + [e];
      RunAppend(Step(s, es[0]), es[1..], e);
    }
  }

  /** The callback is in no list any more, and services nobody else is interested in are given up. */
  lemma UnregisterIff(s: Tables, cb: nat, id: nat)
    requires Enabled(s, Unregister(cb))
    ensures var t := Step(s, Unregister(cb));
            var others := id in s.callbacks && exists c :: c in s.callbacks[id] && c != cb;
            && (id in t.callbacks <==> others) && (others ==> t.callbacks[id] == Without(s.callbacks[id], cb))
            && (id in t.endpoints <==> id in s.endpoints && (id in s.callbacks ==> others))
            && (id in t.endpoints ==> t.endpoints[id] == s.endpoints[id]) && t.discovered == s.discovered
  {
    if id in s.callbacks && Without(s.callbacks[id], cb) != [] {
      assert Without(s.callbacks[id], cb)[0] in s.callbacks[id];
    }
  }

  /** The unclaimed are to be claimed; those silent for more than 1.1 s are gone, and to be dropped. */
  lemma CheckIff(s: Tables, now: int, id: nat)
    requires Enabled(s, Check(now))
    ensures var t := Step(s, Check(now));
            var silent := id in s.endpoints && s.endpoints[id].claimed
                          && now - s.endpoints[id].lastHeartbeat > 1_100_000;
            && (id in t.toClaim <==> id in s.endpoints && !s.endpoints[id].claimed)
            && (id in t.endpoints <==> id in s.endpoints && !silent)
            && (id in t.endpoints ==> t.endpoints[id] == s.endpoints[id])
            && (id in t.toDrop <==> silent && id in s.callbacks)
  {
  }

  // ---------------------------------------------------------------- nothing is stuck

  /** Some thread is already on its way to service `id`. */
  predicate Pending(s: Tables, id: nat) {
    s.notifying == Some(id) || s.ensuring == Some(Lookup(id, true)) || id in s.toDrop
  }

  ghost predicate NoneStuck(s: Tables) {
    forall id :: id in s.discovered && HasInterest(s, id) ==> id in s.endpoints || Pending(s, id)
  }

  ghost predicate Inv(s: Tables) {
    && NoneStuck(s)
    && (forall id :: id in s.endpoints ==> HasInterest(s, id))
    && (forall id :: id in s.callbacks ==> s.callbacks[id] != [])
    && (forall id :: id in s.discovered ==> Reachable(s, id))
    && (s.ensuring.Some? ==> HasInterest(s, s.ensuring.value.id))
  }

  lemma StepKeepsInv(s: Tables, e: Event)
    requires Inv(s)
    ensures Inv(Step(s, e))
  {
    if Enabled(s, e) {
      match e
      case Unregister(cb) => UnregisterKeepsInv(s, cb);
      case Check(now) => CheckKeepsInv(s, now);
      case BeginDiscovered => DiscoveredKeepsInv(s);
      case BeginRegister(id, cb) => RegisterKeepsInv(s, id, cb);
      case _ => OtherStepsKeepInv(s, e);
    }
  }

  lemma UnregisterKeepsInv(s: Tables, cb: nat)
    requires Inv(s) && s.ensuring.None?
    ensures Inv(OnUnregister(s, cb))
  {
  }

  /** A silent service has callbacks, so erasing its state never goes without a drop. */
  lemma CheckKeepsInv(s: Tables, now: int)
    requires Inv(s) && s.ensuring.None? && IoIdle(s)
    ensures Inv(OnCheck(s, now))
  {
  }

  lemma DiscoveredKeepsInv(s: Tables)
    requires Inv(s) && s.notifying.Some? && s.ensuring.None?
    ensures Inv(OnDiscovered(s))
  {
  }

  lemma RegisterKeepsInv(s: Tables, id: nat, cb: nat)
    requires Inv(s) && s.ensuring.None?
    ensures Inv(OnRegister(s, id, cb))
  {
  }

  lemma OtherStepsKeepInv(s: Tables, e: Event)
    requires Inv(s) && Enabled(s, e)
    requires !e.Unregister? && !e.Check? && !e.BeginDiscovered? && !e.BeginRegister?
    ensures Inv(Step(s, e))
  {
    hide Silent, SameKind, Without;
  }

  lemma {:induction false} RunKeepsInv(s: Tables, es: seq<Event>)
    requires Inv(s)
    ensures Inv(Run(s, es))
    decreases |es|
  {
    if es != [] {
      StepKeepsInv(s, es[0]);
      RunKeepsInv(Step(s, es[0]), es[1..]);
    }
  }

  lemma {:induction false} ReachableInv(es: seq<Event>)
    ensures Inv(Run(EMPTY, es))
  {
    RunKeepsInv(EMPTY, es);
  }

  /** Under every interleaving, a discovered service somebody is interested in is managed or pending. */
  lemma {:induction false} NeverStuck(es: seq<Event>)
    ensures var s := Run(EMPTY, es);
            && NoneStuck(s)
            && (forall id :: id in s.endpoints ==> HasInterest(s, id))
  {
    ReachableInv(es);
  }

  // ---------------------------------------------------------------- claims

  ghost predicate Advertised(es: seq<Event>, id: nat, ip: nat, port: nat) {
    exists e :: e in es && e.Advertise? && e.id == id && e.info.ip == ip && e.info.port == port
  }

  /** Endpoints come from advertisements, claims use endpoints. */
  lemma Sources(s: Tables, e: Event)
    ensures var t := Step(s, e);
            && (t.claims == s.claims
                || exists id :: id in s.discovered
                                && t.claims == s.claims + [Claim(id, s.discovered[id].ip, s.discovered[id].port)])
            && (forall id :: id in t.discovered ==>
                  || (id in s.discovered && t.discovered[id].ip == s.discovered[id].ip
                      && t.discovered[id].port == s.discovered[id].port)
                  || (e.Advertise? && e.id == id && e.info.ip == t.discovered[id].ip
                      && e.info.port == t.discovered[id].port))
  {
    hide Without, Silent, HasInterest;
  }

  /** Every claim goes to an endpoint the service itself has advertised. */
  lemma {:induction false} ClaimsGoWhereAdvertised(es: seq<Event>)
    ensures var s := Run(EMPTY, es);
            && (forall c :: c in s.claims ==> Advertised(es, c.id, c.ip, c.port))
            && (forall id :: id in s.discovered ==> Advertised(es, id, s.discovered[id].ip, s.discovered[id].port))
    decreases |es|
  {
    if es != [] {
      var before, e := es[..|es| - 1], es[|es| - 1];
      ClaimsGoWhereAdvertised(before);
      assert es == before + [e];
      RunAppend(EMPTY, before, e);
      Sources(Run(EMPTY, before), e);
      assert e in es && forall d :: d in before ==> d in es;
      hide Step, Run;
    }
  }

  /** A claim goes out exactly if the service is managed, reachable, and was not claimed within a millisecond. */
  lemma ClaimSentIff(s: Tables, id: nat, now: int, bound: bool)
    requires Enabled(s, ClaimNext(id, now))
    ensures var t := Step(Step(s, ClaimNext(id, now)), SendClaim(bound));
            var due := id in s.endpoints && now - s.endpoints[id].lastClaimSent >= 1_000;
            && t.claims == s.claims
               + (if due && bound && id in s.discovered && s.discovered[id].ip != 0 && s.discovered[id].port != 0
                  then [Claim(id, s.discovered[id].ip, s.discovered[id].port)] else [])
            && t.endpoints == if due then s.endpoints[id := ServiceState(false, now, s.endpoints[id].lastHeartbeat)]
                              else s.endpoints
  {
    assert s.claims + [] == s.claims;
  }

  // ---------------------------------------------------------------- pending work

  /** Steps that finish what a thread has begun. */
  predicate Internal(e: Event) {
    e.BeginDiscovered? || e.EndEnsure? || e.ClaimNext? || e.SendClaim? || e.DropNext?
  }

  predicate AllInternal(es: seq<Event>) {
    forall e :: e in es ==> Internal(e)
  }

  predicate Quiet(s: Tables) {
    s.notifying.None? && s.ensuring.None? && IoIdle(s)
  }

  function Work(s: Tables): nat {
    (if s.notifying.Some? then 2 else 0) + (if s.ensuring.Some? then 1 else 0)
    + 2 * |s.toClaim| + (if s.claiming.Some? then 1 else 0) + |s.toDrop|
  }

}
