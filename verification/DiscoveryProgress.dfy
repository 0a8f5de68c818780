/** Whatever the threads have begun gets done, and what an advertisement leads to. */
module DiscoveryProgress {
  import opened Wire
  import opened Discovery

  lemma NotifyUsesWork(s: Tables)
    ensures s.notifying.Some? && s.ensuring.None? ==> Work(OnDiscovered(s)) < Work(s)
  {
    hide HasInterest, Reachable;
  }

  lemma LookupUsesWork(s: Tables)
    ensures s.ensuring.Some? ==> Work(OnEnsured(s)) < Work(s)
  {
  }

  lemma SendUsesWork(s: Tables, bound: bool)
    ensures s.claiming.Some? ==> Work(OnSendClaim(s, bound)) < Work(s)
  {
    hide Reachable;
  }

  lemma DropUsesWork(s: Tables, id: nat)
    ensures id in s.toDrop ==> Work(OnDrop(s, id)) < Work(s)
  {
    if id in s.toDrop {
      assert |s.toDrop - {id}| == |s.toDrop| - 1;
    }
  }

  lemma ClaimUsesWork(s: Tables, id: nat, now: int)
    ensures id in s.toClaim && s.claiming.None? ==> Work(OnClaim(s, id, now)) < Work(s)
  {
    if id in s.toClaim && s.claiming.None? {
      assert |s.toClaim - {id}| == |s.toClaim| - 1;
      assert OnClaim(s, id, now).toClaim == s.toClaim - {id};
    }
  }

  /** Every internal step uses up work. */
  lemma {:induction false} Progress(s: Tables, e: Event)
    requires Internal(e) && Enabled(s, e)
    ensures Work(Step(s, e)) < Work(s)
  {
    hide Work, OnClaim, OnSendClaim, OnDrop, OnDiscovered, OnEnsured;
    match e
    case BeginDiscovered => NotifyUsesWork(s);
    case EndEnsure => LookupUsesWork(s);
    case ClaimNext(id, now) => ClaimUsesWork(s, id, now);
    case SendClaim(bound) => SendUsesWork(s, bound);
    case DropNext(id) => DropUsesWork(s, id);
  }

  /** No deadlock: whatever is pending can be finished by the threads on their own. */
  lemma {:induction false} Finish(s: Tables) returns (es: seq<Event>)
    ensures AllInternal(es) && Quiet(Run(s, es))
    decreases Work(s)
  {
    if Quiet(s) {
      return [];
    }
    var e := BeginDiscovered;
    if s.ensuring.Some? {
      e := EndEnsure;
    } else if s.notifying.None? {
      if s.claiming.Some? {
        e := SendClaim(true);
      } else if s.toClaim != {} {
        var id :| id in s.toClaim;
        e := ClaimNext(id, 0);
      } else {
        var id :| id in s.toDrop;
        e := DropNext(id);
      }
    }
    assert Enabled(s, e);
    Progress(s, e);
    var rest := Finish(Step(s, e));
    es := [e] + rest;
  }

  lemma {:induction false} InternalRun(s: Tables, es: seq<Event>)
    requires AllInternal(es)
    ensures var t := Run(s, es);
            && t.callbacks == s.callbacks && t.toDrop <= s.toDrop
            && t.discovered == s.discovered - (s.toDrop - t.toDrop)
    decreases |es|
  {
    if es != [] {
      assert es[0] in es;
      forall e | e in es[1..] ensures Internal(e) {
        assert e in es;
      }
      InternalRun(Step(s, es[0]), es[1..]);
    }
  }

  /**
   Whatever happened before, and however the threads finish: an advertised service ends up managed at
   the endpoint it advertised if and only if it was not about to be dropped.
   */
  lemma {:induction false} AdvertisedServiceIsManaged(before: seq<Event>, id: nat, info: Info, es: seq<Event>)
    requires var s := Run(EMPTY, before); s.notifying.None? && HasInterest(s, id)
    requires info.ip != 0 && info.port != 0 && AllInternal(es)
    requires Quiet(Run(Step(Run(EMPTY, before), Advertise(id, info)), es))
    ensures var t := Run(Step(Run(EMPTY, before), Advertise(id, info)), es);
            (&& id in t.endpoints && id in t.discovered
             && t.discovered[id].ip == info.ip && t.discovered[id].port == info.port
             && SameKind(t.discovered[id], info))
            <==> id !in Run(EMPTY, before).toDrop
    ensures id in Run(EMPTY, before).toDrop ==>
              id !in Run(Step(Run(EMPTY, before), Advertise(id, info)), es).discovered
  {
    hide Run, Step, Inv, Quiet;
    ReachableInv(before);
    var s := Run(EMPTY, before);
    var a := Step(s, Advertise(id, info));
    AdvertisementIsStored(s, id, info);
    StepKeepsInv(s, Advertise(id, info));
    RunKeepsInv(a, es);
    InternalRun(a, es);
    ManagedIfKnown(Run(a, es), id);
  }

  lemma AdvertisementIsStored(s: Tables, id: nat, info: Info)
    requires s.notifying.None? && info.ip != 0 && info.port != 0
    ensures var a := Step(s, Advertise(id, info));
            && a.toDrop == s.toDrop && a.callbacks == s.callbacks && id in a.discovered
            && a.discovered[id].ip == info.ip && a.discovered[id].port == info.port
            && SameKind(a.discovered[id], info)
  {
  }

  /** Once nothing is pending, a known service somebody is interested in is managed. */
  lemma ManagedIfKnown(t: Tables, id: nat)
    ensures Inv(t) && Quiet(t) ==> t.toDrop == {} && (id in t.discovered && HasInterest(t, id) ==> id in t.endpoints)
  {
  }

  /** A service that was found, claimed and never heard of again. */
  function Claiming(info: Info): seq<Event> {
    [BeginRegister(1, 7), EndEnsure, Advertise(1, info), BeginDiscovered, EndEnsure, Ack(1, 1, 0)]
  }

  lemma AfterClaiming(info: Info)
    requires info.ip != 0 && info.port != 0
    ensures Run(EMPTY, Claiming(info))
         == EMPTY.(discovered := map[1 := info], endpoints := map[1 := ServiceState(true, 0, 0)],
                   callbacks := map[1 := [7]])
  {
    hide Run;
    var es := Claiming(info);
    var s1 := Step(EMPTY, es[0]);
    var s2 := Step(s1, es[1]);
    var s3 := Step(s2, es[2]);
    var s4 := Step(s3, es[3]);
    var s5 := Step(s4, es[4]);
    assert [] + [7] == [7];
    assert s2 == EMPTY.(callbacks := map[1 := [7]]);
    assert s3 == s2.(discovered := map[1 := info], notifying := Some(1));
    assert s5 == s2.(discovered := map[1 := info], endpoints := map[1 := FRESH]);
    Unroll(es);
  }

  lemma {:induction false} Unroll(es: seq<Event>)
    requires |es| == 6
    ensures Run(EMPTY, es) == Step(Step(Step(Step(Step(Step(EMPTY, es[0]), es[1]), es[2]), es[3]), es[4]), es[5])
  {
    hide Step;
    var es1, es2, es3, es4, es5 := es[..1], es[..2], es[..3], es[..4], es[..5];
    assert es1 == [] + [es[0]] && es2 == es1 + [es[1]] && es3 == es2 + [es[2]];
    assert es4 == es3 + [es[3]] && es5 == es4 + [es[4]] && es == es5 + [es[5]];
    RunAppend(EMPTY, [], es[0]);
    RunAppend(EMPTY, es1, es[1]);
    RunAppend(EMPTY, es2, es[2]);
    RunAppend(EMPTY, es3, es[3]);
    RunAppend(EMPTY, es4, es[4]);
    RunAppend(EMPTY, es5, es[5]);
  }

  /** It can be: an unchanged advertisement that arrives before a pending drop is lost. */
  lemma AdvertisementBeforeDropIsLost(info: Info)
    requires info.ip != 0 && info.port != 0
    ensures var s := Step(Run(EMPTY, Claiming(info)), Check(SILENCE_LIMIT + 1));
            var t := Step(Step(s, Advertise(1, info)), DropNext(1));
            Pending(s, 1) && Quiet(t) && HasInterest(t, 1) && 1 !in t.endpoints && 1 !in t.discovered
  {
    hide Run, Claiming;
    AfterClaiming(info);
    var s := Step(Run(EMPTY, Claiming(info)), Check(SILENCE_LIMIT + 1));
    assert s.toDrop == {1} && s.toClaim == {};
    var a := Step(s, Advertise(1, info));
    assert a.toDrop == {1};
  }
}
