/** The two tables as objects that the methods of the interface change in place. */
module DiscoveryTables {
  import opened Wire
  import opened Discovery

  /** `m` is on its way from `a` to `b`: the keys in `rest` are still to be visited. */
  ghost predicate Between<V>(a: map<nat, V>, b: map<nat, V>, rest: set<nat>, m: map<nat, V>) {
    forall id: nat :: if id in rest then Same(m, a, id) else Same(m, b, id)
  }

  ghost predicate Same<V>(m: map<nat, V>, n: map<nat, V>, id: nat) {
    if id in m then id in n && m[id] == n[id] else id !in n
  }

  lemma Visited<V>(a: map<nat, V>, b: map<nat, V>, rest: set<nat>, m: map<nat, V>, id: nat, m': map<nat, V>)
    requires Between(a, b, rest, m) && Same(m', b, id)
    requires forall k :: k != id ==> Same(m', m, k)
    ensures Between(a, b, rest - {id}, m')
  {
    forall k: nat ensures if k in rest - {id} then Same(m', a, k) else Same(m', b, k) {
      assert k != id ==> Same(m', m, k);
    }
  }

  lemma StillThere<V>(a: map<nat, V>, b: map<nat, V>, rest: set<nat>, m: map<nat, V>, id: nat)
    requires Between(a, b, rest, m) && id in rest
    ensures Same(m, a, id)
  {
  }

  lemma Arrived<V>(a: map<nat, V>, b: map<nat, V>, m: map<nat, V>)
    requires Between(a, b, {}, m)
    ensures m == b
  {
    forall k: nat ensures Same(m, b, k) {
    }
    forall k ensures (k in m <==> k in b) && (k in m ==> m[k] == b[k]) {
      assert Same(m, b, k);
    }
    assert m.Keys == b.Keys;
  }

  /** `m` holds the elements of `all` among the keys visited so far. */
  predicate Gathered(all: set<nat>, rest: set<nat>, m: set<nat>) {
    m == all - rest
  }

  lemma Collected(all: set<nat>, rest: set<nat>, m: set<nat>, id: nat)
    requires Gathered(all, rest, m) && id in rest
    ensures Gathered(all, rest - {id}, if id in all then m + {id} else m)
  {
  }

  lemma AllCollected(all: set<nat>, m: set<nat>)
    requires Gathered(all, {}, m)
    ensures m == all
  {
  }

  lemma UnregisterStarts(s: Tables, cb: nat)
    requires s.ensuring.None?
    ensures var t := OnUnregister(s, cb);
            && t == Step(s, Unregister(cb)) == s.(callbacks := t.callbacks, endpoints := t.endpoints)
            && Between(s.callbacks, t.callbacks, s.callbacks.Keys, s.callbacks)
            && Between(s.endpoints, t.endpoints, s.callbacks.Keys, s.endpoints)
  {
  }

  lemma UnregisterOne(s: Tables, cb: nat, id: nat)
    requires id in s.callbacks
    ensures var t, list := OnUnregister(s, cb), Without(s.callbacks[id], cb);
            if list == [] then id !in t.callbacks && id !in t.endpoints
            else id in t.callbacks && t.callbacks[id] == list && Same(s.endpoints, t.endpoints, id)
  {
  }

  lemma CheckStarts(s: Tables, now: int)
    requires s.ensuring.None? && IoIdle(s)
    ensures var t := OnCheck(s, now);
            && t == Step(s, Check(now)) == s.(endpoints := t.endpoints, toClaim := t.toClaim, toDrop := t.toDrop)
            && Between(s.endpoints, t.endpoints, s.endpoints.Keys, s.endpoints)
            && Gathered(t.toClaim, s.endpoints.Keys, {}) && Gathered(t.toDrop, s.endpoints.Keys, {})
  {
  }

  lemma CheckOne(s: Tables, now: int, id: nat)
    requires id in s.endpoints
    ensures var t := OnCheck(s, now);
            && (if Silent(s.endpoints[id], now) then id !in t.endpoints else Same(s.endpoints, t.endpoints, id))
            && (id in t.toClaim <==> !s.endpoints[id].claimed)
            && (id in t.toDrop <==> Silent(s.endpoints[id], now) && id in s.callbacks)
  {
  }

  /** A claim to service `id` is due and can be sent. */
  ghost predicate Due(s: Tables, id: nat, now: int, bound: bool) {
    && bound && id in s.endpoints && now - s.endpoints[id].lastClaimSent >= CLAIM_SPACING
    && id in s.discovered && s.discovered[id].ip != 0 && s.discovered[id].port != 0
  }

  function Unclaimed(s: Tables): set<nat> {
    set id | id in s.endpoints && !s.endpoints[id].claimed
  }

  /** One claim to the endpoint of each service in `done` that is due, and no others. */
  ghost predicate ClaimsFor(s: Tables, done: set<nat>, now: int, bound: bool, claims: seq<Claim>) {
    && (forall i :: 0 <= i < |claims| ==>
          var id := claims[i].id;
          id in done && Due(s, id, now, bound) && claims[i] == Claim(id, s.discovered[id].ip, s.discovered[id].port))
    && (forall id :: id in done && Due(s, id, now, bound) ==> exists i :: 0 <= i < |claims| && claims[i].id == id)
    && (forall i, j :: 0 <= i < j < |claims| ==> claims[i].id != claims[j].id)
  }

  lemma ClaimsNext(s: Tables, done: set<nat>, now: int, bound: bool, claims: seq<Claim>, id: nat)
    requires ClaimsFor(s, done, now, bound, claims) && id !in done
    ensures ClaimsFor(s, done + {id}, now, bound,
                      claims + if Due(s, id, now, bound)
                               then [Claim(id, s.discovered[id].ip, s.discovered[id].port)] else [])
  {
    var more := claims + if Due(s, id, now, bound)
                         then [Claim(id, s.discovered[id].ip, s.discovered[id].port)] else [];
    forall k | k in done + {id} && Due(s, k, now, bound) ensures exists i :: 0 <= i < |more| && more[i].id == k {
      if k == id {
        assert more[|claims|].id == id;
      } else {
        var i :| 0 <= i < |claims| && claims[i].id == k;
        assert more[i].id == k;
      }
    }
  }

  lemma DueMeans(s: Tables, id: nat, now: int, bound: bool)
    ensures Due(s, id, now, bound) ==> id in s.endpoints && id in s.discovered
    ensures id in s.endpoints ==>
              (Due(s, id, now, bound) <==>
               && bound && now - s.endpoints[id].lastClaimSent >= CLAIM_SPACING
               && id in s.discovered && s.discovered[id].ip != 0 && s.discovered[id].port != 0)
  {
  }

  /** What a check collects to be claimed, and that nothing has been claimed yet. */
  lemma CheckRound(s: Tables, now: int, bound: bool)
    requires s.ensuring.None? && IoIdle(s)
    ensures var t := Step(s, Check(now));
            && t.toClaim == Unclaimed(s)
            && (forall id :: id in t.toClaim ==> id in t.endpoints) && t.discovered == s.discovered
            && t.claims == s.claims && t.claiming.None? && t.callbacks == s.callbacks && t.notifying == s.notifying
            && ClaimsFor(t, {}, now, bound, [])
  {
  }

  /** Whether the claims suit the state after the check or the one before is the same. */
  lemma SameClaims(s: Tables, now: int, bound: bool, claims: seq<Claim>)
    requires s.ensuring.None? && IoIdle(s)
    requires var t := Step(s, Check(now)); ClaimsFor(t, t.toClaim, now, bound, claims)
    ensures ClaimsFor(s, Unclaimed(s), now, bound, claims)
  {
    var t := Step(s, Check(now));
    forall id | id in t.toClaim ensures Due(t, id, now, bound) == Due(s, id, now, bound) {
    }
  }

  // ---------------------------------------------------------------- the code, on objects

  /** The tables of ServiceDiscoveryImpl and ServiceIO; a method runs while nobody holds the state lock. */
  class Interface {
    var discovered: map<nat, Info>
    var endpoints: map<nat, ServiceState>
    var callbacks: map<nat, seq<nat>>
    var notifying: Option<nat>
    var toClaim: set<nat>
    var toDrop: set<nat>
    var claiming: Option<nat>
    var claims: seq<Claim>

    function View(): Tables
      reads this
    {
      Tables(discovered, endpoints, callbacks, notifying, None, toClaim, toDrop, claiming, claims)
    }

    constructor ()
      ensures View() == EMPTY
    {
      discovered, endpoints, callbacks, notifying := map[], map[], map[], None;
      toClaim, toDrop, claiming, claims := {}, {}, None, [];
    }

    /** ServiceDiscoveryImpl::Run, for one advertisement. */
    method ReceiveAdvertisement(id: nat, info: Info)
      requires notifying.None?
      modifies this`discovered, this`notifying
      ensures View() == Step(old(View()), Advertise(id, info))
      ensures info.ip == 0 || info.port == 0 ==> unchanged(this)
      ensures info.ip != 0 && info.port != 0 ==>
                var before := old(discovered);
                var news := id !in before || before[id].kind != info.kind || before[id].version != info.version;
                discovered == before[id := info] && notifying == if news then Some(id) else None
    {
      if info.ip == 0 || info.port == 0 {
        return;
      }
      if id in discovered {
        var known := discovered[id];
        if known.kind != info.kind || known.version != info.version {
          discovered := discovered[id := info];
          notifying := Some(id);
        } else if known.ip != info.ip || known.port != info.port {
          discovered := discovered[id := known.(ip := info.ip, port := info.port)];
        } else {
          assert discovered[id := known] == discovered;
        }
      } else {
        discovered := discovered[id := info];
        notifying := Some(id);
      }
    }

    method EnsureServiceState(id: nat)
      modifies this`endpoints
      ensures View() == Step(LookUp(old(View()), id), EndEnsure)
      ensures var missing := id in callbacks && callbacks[id] != [] && id !in old(endpoints)
                             && id in discovered && discovered[id].ip != 0 && discovered[id].port != 0;
              endpoints == if missing then old(endpoints)[id := ServiceState(false, 0, 0)] else old(endpoints)
    {
      if !(id in callbacks && callbacks[id] != []) {
        return;
      }
      if id !in discovered || discovered[id].ip == 0 || discovered[id].port == 0 {
        return;
      }
      if id in endpoints {
        return;
      }
      endpoints := endpoints[id := FRESH];
    }

    method OnServiceDiscovered()
      requires notifying.Some?
      modifies this`endpoints, this`notifying
      ensures View() == Step(Step(old(View()), BeginDiscovered), EndEnsure)
      ensures var id := old(notifying).value;
              var reachable := id in discovered && discovered[id].ip != 0 && discovered[id].port != 0;
              notifying.None? && endpoints == if !(id in callbacks && callbacks[id] != []) then old(endpoints)
                                              else if reachable then old(endpoints)[id := ServiceState(false, 0, 0)]
                                              else old(endpoints) - {id}
    {
      var id := notifying.value;
      notifying := None;
      if !(id in callbacks && callbacks[id] != []) {
        return;
      }
      if id in endpoints {
        endpoints := endpoints - {id};
      } else {
        assert endpoints == endpoints - {id};
      }
      EnsureServiceState(id);
    }

    method RegisterCallbacks(id: nat, cb: nat)
      modifies this`callbacks, this`endpoints
      ensures View() == Step(Step(old(View()), BeginRegister(id, cb)), EndEnsure)
      ensures var list := if id in old(callbacks) then old(callbacks)[id] else [];
              if cb in list then callbacks == old(callbacks) && endpoints == old(endpoints)
              else
                && callbacks == old(callbacks)[id := list + [cb]]
                && (id !in old(endpoints) && id in discovered && discovered[id].ip != 0 && discovered[id].port != 0 ==>
                      endpoints == old(endpoints)[id := ServiceState(false, 0, 0)])
    {
      var vector := if id in callbacks then callbacks[id] else [];
      if cb in vector {
        return;
      }
      callbacks := callbacks[id := vector + [cb]];
      EnsureServiceState(id);
    }

    /** The inner loop of UnregisterCallbacks. */
    static method Erase(list: seq<nat>, cb: nat) returns (kept: seq<nat>)
      ensures kept == Without(list, cb)
    {
      kept := list;
      var i := 0;
      while i < |kept|
        invariant i <= |kept| && kept[..i] + Without(kept[i..], cb) == Without(list, cb)
        decreases |kept| - i
      {
        ghost var head, tail := kept[..i], kept[i..];
        if kept[i] == cb {
          kept := kept[..i] + kept[i + 1..];
          assert kept[..i] == head && kept[i..] == tail[1..];
        } else {
          assert kept[..i + 1] == head + [tail[0]] && kept[i + 1..] == tail[1..];
          Assoc(head, [tail[0]], Without(tail[1..], cb));
          i := i + 1;
        }
      }
      assert kept[..i] + [] == kept;
    }

    /** How far the outer loop of `UnregisterCallbacks` has come. */
    ghost predicate Unregistering(s: Tables, cb: nat, rest: set<nat>)
      reads this
    {
      var t := OnUnregister(s, cb);
      Between(s.callbacks, t.callbacks, rest, callbacks) && Between(s.endpoints, t.endpoints, rest, endpoints)
    }

    /** The body of the outer loop for service `id`. */
    method UnregisterFrom(id: nat, cb: nat, ghost s: Tables, ghost rest: set<nat>)
      requires id in callbacks && id in s.callbacks && id in rest && Unregistering(s, cb, rest)
      modifies this`callbacks, this`endpoints
      ensures Unregistering(s, cb, rest - {id})
    {
      hide Without, OnUnregister, Between;
      ghost var t, cbs, eps := OnUnregister(s, cb), callbacks, endpoints;
      StillThere(s.callbacks, t.callbacks, rest, callbacks, id);
      StillThere(s.endpoints, t.endpoints, rest, endpoints, id);
      UnregisterOne(s, cb, id);
      var list := Erase(callbacks[id], cb);
      if list == [] {
        endpoints := endpoints - {id};
        callbacks := callbacks - {id};
      } else {
        callbacks := callbacks[id := list];
      }
      Visited(s.callbacks, t.callbacks, rest, cbs, id, callbacks);
      Visited(s.endpoints, t.endpoints, rest, eps, id, endpoints);
    }

    method UnregisterCallbacks(cb: nat)
      modifies this`callbacks, this`endpoints
      ensures View() == Step(old(View()), Unregister(cb))
    {
      hide Step, OnUnregister, Between;
      ghost var s, t := View(), OnUnregister(View(), cb);
      UnregisterStarts(s, cb);
      var rest := callbacks.Keys;
      while rest != {}
        invariant rest <= s.callbacks.Keys && Unregistering(s, cb, rest)
        decreases |rest|
      {
        var id :| id in rest;
        StillThere(s.callbacks, t.callbacks, rest, callbacks, id);
        UnregisterFrom(id, cb, s, rest);
        rest := rest - {id};
      }
      Arrived(s.callbacks, t.callbacks, callbacks);
      Arrived(s.endpoints, t.endpoints, endpoints);
    }

    /** How far the loop of `CollectWork` has come. */
    ghost predicate Collecting(s: Tables, now: int, rest: set<nat>)
      reads this
    {
      var t := OnCheck(s, now);
      && Between(s.endpoints, t.endpoints, rest, endpoints)
      && Gathered(t.toClaim, rest, toClaim) && Gathered(t.toDrop, rest, toDrop)
      && callbacks == s.callbacks
    }

    /** The loop body for service `id`. */
    method Inspect(id: nat, now: int, ghost s: Tables, ghost rest: set<nat>)
      requires id in endpoints && id in s.endpoints && id in rest && Collecting(s, now, rest)
      modifies this`endpoints, this`toClaim, this`toDrop
      ensures Collecting(s, now, rest - {id})
    {
      hide OnCheck, Between, Gathered;
      ghost var t, before := OnCheck(s, now), endpoints;
      CheckOne(s, now, id);
      StillThere(s.endpoints, t.endpoints, rest, endpoints, id);
      Collected(t.toClaim, rest, toClaim, id);
      Collected(t.toDrop, rest, toDrop, id);
      var state := endpoints[id];
      if !state.claimed {
        toClaim := toClaim + {id};
      } else if now - state.lastHeartbeat > SILENCE_LIMIT {
        if id in callbacks {
          toDrop := toDrop + {id};
        }
        endpoints := endpoints - {id};
      }
      Visited(s.endpoints, t.endpoints, rest, before, id, endpoints);
    }

    /** The first part of a round: what to claim, and who has been silent for too long. */
    method CollectWork(now: int)
      requires toClaim == {} && toDrop == {} && claiming.None?
      modifies this`endpoints, this`toClaim, this`toDrop
      ensures View() == Step(old(View()), Check(now))
    {
      hide Step, OnCheck, Between, Gathered;
      ghost var s, t := View(), OnCheck(View(), now);
      CheckStarts(s, now);
      var rest := endpoints.Keys;
      while rest != {}
        invariant rest <= s.endpoints.Keys && Collecting(s, now, rest)
        decreases |rest|
      {
        var id :| id in rest;
        StillThere(s.endpoints, t.endpoints, rest, endpoints, id);
        Inspect(id, now, s, rest);
        rest := rest - {id};
      }
      Arrived(s.endpoints, t.endpoints, endpoints);
      AllCollected(t.toClaim, toClaim);
      AllCollected(t.toDrop, toDrop);
    }

    method ClaimService(id: nat, now: int, bound: bool)
      requires id in toClaim && claiming.None?
      modifies this`endpoints, this`toClaim, this`claiming, this`claims
      ensures View() == Step(Step(old(View()), ClaimNext(id, now)), SendClaim(bound))
      ensures toClaim == old(toClaim) - {id} && claiming.None?
      ensures var due := id in old(endpoints) && now - old(endpoints)[id].lastClaimSent >= CLAIM_SPACING;
              && endpoints == (if due
                               then old(endpoints)[id := ServiceState(false, now, old(endpoints)[id].lastHeartbeat)]
                               else old(endpoints))
              && claims == old(claims)
                 + if due && bound && id in discovered && discovered[id].ip != 0 && discovered[id].port != 0
                   then [Claim(id, discovered[id].ip, discovered[id].port)] else []
    {
      toClaim := toClaim - {id};
      if id !in endpoints || now - endpoints[id].lastClaimSent < CLAIM_SPACING {
        return;
      }
      endpoints := endpoints[id := endpoints[id].(lastClaimSent := now, claimed := false)];
      claiming := Some(id);
      SendClaimPacket(id, bound);
    }

    /** The part of ClaimService after the lock is released. */
    method SendClaimPacket(id: nat, bound: bool)
      requires claiming == Some(id)
      modifies this`claiming, this`claims
      ensures View() == Step(old(View()), SendClaim(bound)) && claiming.None?
      ensures claims == old(claims) + if bound && id in discovered && discovered[id].ip != 0 && discovered[id].port != 0
                                      then [Claim(id, discovered[id].ip, discovered[id].port)] else []
    {
      claiming := None;
      if !bound {
        return;
      }
      if id in discovered && discovered[id].ip != 0 && discovered[id].port != 0 {
        claims := claims + [Claim(id, discovered[id].ip, discovered[id].port)];
      }
    }

    method DropService(id: nat)
      requires toClaim == {} && claiming.None? && id in toDrop
      modifies this`discovered, this`toDrop
      ensures View() == Step(old(View()), DropNext(id)) && toDrop == old(toDrop) - {id}
      ensures discovered == old(discovered) - {id}
    {
      discovered := discovered - {id};
      toDrop := toDrop - {id};
    }

    /** How far the claims of a round have come. */
    ghost predicate Claiming(s: Tables, before: seq<Claim>, now: int, bound: bool)
      reads this
    {
      && discovered == s.discovered && toClaim <= s.toClaim && toDrop == s.toDrop
      && (forall id :: id in toClaim ==> id in endpoints && id in s.endpoints && endpoints[id] == s.endpoints[id])
      && |before| <= |claims| && claims[..|before|] == before
      && ClaimsFor(s, s.toClaim - toClaim, now, bound, claims[|before|..])
    }

    /** One claim of a round. */
    method ClaimOne(id: nat, now: int, bound: bool, ghost s: Tables, ghost before: seq<Claim>)
      requires id in toClaim && claiming.None? && Claiming(s, before, now, bound)
      modifies this`endpoints, this`toClaim, this`claiming, this`claims
      ensures View() == Step(Step(old(View()), ClaimNext(id, now)), SendClaim(bound))
      ensures toClaim == old(toClaim) - {id} && claiming.None? && Claiming(s, before, now, bound)
    {
      hide Step, Due, ClaimsFor;
      ghost var added := claims[|before|..];
      ClaimsNext(s, s.toClaim - toClaim, now, bound, added, id);
      DueMeans(s, id, now, bound);
      ghost var extra := if Due(s, id, now, bound) then [Claim(id, s.discovered[id].ip, s.discovered[id].port)] else [];
      ghost var sent := claims;
      ClaimService(id, now, bound);
      assert s.toClaim - toClaim == s.toClaim - old(toClaim) + {id};
      assert claims == sent + extra && claims[..|before|] == sent[..|before|];
      assert claims[|before|..] == added + extra;
    }

    /** The claims of a round. */
    method ClaimAll(now: int, bound: bool, ghost s: Tables, ghost before: seq<Claim>) returns (ghost es: seq<Event>)
      requires View() == s && claiming.None? && Claiming(s, before, now, bound)
      modifies this`endpoints, this`toClaim, this`claiming, this`claims
      ensures View() == Run(s, es) && AllInternal(es) && toClaim == {} && claiming.None?
      ensures Claiming(s, before, now, bound)
    {
      hide Step, Run, Interface.Claiming;
      es := [];
      NoEvents(s);
      while toClaim != {}
        invariant View() == Run(s, es) && AllInternal(es) && claiming.None? && Claiming(s, before, now, bound)
        decreases |toClaim|
      {
        var id :| id in toClaim;
        ClaimOne(id, now, bound, s, before);
        RunAppend(s, es, ClaimNext(id, now));
        es := es + [ClaimNext(id, now)];
        RunAppend(s, es, SendClaim(bound));
        es := es + [SendClaim(bound)];
      }
    }

    /** The drops of a round. */
    method DropAll(ghost s: Tables, ghost before: seq<Event>) returns (ghost es: seq<Event>)
      requires View() == Run(s, before) && AllInternal(before) && toClaim == {} && claiming.None?
      modifies this`discovered, this`toDrop
      ensures View() == Run(s, es) && AllInternal(es) && toDrop == {}
    {
      hide Step, Run;
      es := before;
      while toDrop != {}
        invariant View() == Run(s, es) && AllInternal(es)
        decreases |toDrop|
      {
        var id :| id in toDrop;
        DropService(id);
        RunAppend(s, es, DropNext(id));
        es := es + [DropNext(id)];
      }
    }

    /**
     One undisturbed round of the IO thread: every unclaimed service that is due gets one claim, at its
     endpoint, no other service gets one, and nothing is left to claim or drop.
     */
    method RunChecks(now: int, bound: bool) returns (ghost es: seq<Event>)
      requires toClaim == {} && toDrop == {} && claiming.None?
      modifies this
      ensures View() == Run(Step(old(View()), Check(now)), es) && AllInternal(es) && IoIdle(View())
      ensures notifying == old(notifying) && callbacks == old(callbacks)
      ensures |old(claims)| <= |claims| && claims[..|old(claims)|] == old(claims)
      ensures ClaimsFor(old(View()), Unclaimed(old(View())), now, bound, claims[|old(claims)|..])
    {
      hide Step, Run, ClaimsFor, Unclaimed;
      ghost var start := View();
      CheckRound(start, now, bound);
      CollectWork(now);
      ghost var s := View();
      assert claims[|claims|..] == [] && s.toClaim - s.toClaim == {};
      es := ClaimAll(now, bound, s, claims);
      assert s.toClaim - {} == s.toClaim;
      SameClaims(start, now, bound, claims[|start.claims|..]);
      es := DropAll(s, es);
    }

    method HandleClaimMessage(id: nat, arg1: nat, now: int)
      requires toClaim == {} && toDrop == {} && claiming.None?
      modifies this`endpoints
      ensures View() == Step(old(View()), Ack(id, arg1, now))
      ensures endpoints == if arg1 != 1 || id !in old(endpoints) then old(endpoints)
                           else old(endpoints)[id := ServiceState(true, old(endpoints)[id].lastClaimSent, now)]
    {
      if arg1 != 1 {
        return;
      }
      if id !in endpoints {
        return;
      }
      endpoints := endpoints[id := endpoints[id].(lastHeartbeat := now)];
      if endpoints[id].claimed {
        assert endpoints[id].(claimed := true) == endpoints[id];
        return;
      }
      endpoints := endpoints[id := endpoints[id].(claimed := true)];
    }

    method HandleHeartbeatMessage(id: nat, now: int)
      requires toClaim == {} && toDrop == {} && claiming.None?
      modifies this`endpoints
      ensures View() == Step(old(View()), Event.Heartbeat(id, now))
      ensures endpoints == if id !in old(endpoints) then old(endpoints)
                           else old(endpoints)[id := old(endpoints)[id].(lastHeartbeat := now)]
    {
      if id !in endpoints {
        return;
      }
      endpoints := endpoints[id := endpoints[id].(lastHeartbeat := now)];
    }
  }
}
