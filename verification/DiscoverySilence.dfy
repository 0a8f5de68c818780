/** What the interface remembers of a service's signs of life, and whom it therefore claims and drops. */
module DiscoverySilence {
  import opened Wire
  import opened Discovery
  import H = Heartbeat

  /** The step with number `i` of a run from `s` happens. */
  predicate Happens(s: Tables, es: seq<Event>, i: int)
    requires 0 <= i < |es|
  {
    Enabled(Run(s, es[..i]), es[i])
  }

  /** When the interface hears of service `id` by this event: an acknowledgement, or a heartbeat. */
  function Sign(e: Event, id: nat): Option<int> {
    match e
    case Ack(i, arg1, now) => if i == id && arg1 == 1 then Some(now) else None
    case Heartbeat(i, now) => if i == id then Some(now) else None
    case _ => None
  }

  /** The last sign of life in a run; `first` was the one before it. */
  function LastSign(s: Tables, es: seq<Event>, id: nat, first: int): int
    decreases |es|
  {
    if es == [] then first
    else
      var n := |es| - 1;
      if Happens(s, es, n) && Sign(es[n], id).Some? then Sign(es[n], id).value else LastSign(s, es[..n], id, first)
  }

  /** Service `id` has acknowledged, and nobody is about to claim, replace or drop it. */
  predicate Settled(s: Tables, id: nat) {
    && id in s.endpoints && s.endpoints[id].claimed && id in s.callbacks
    && s.notifying != Some(id) && s.claiming != Some(id) && id !in s.toClaim && id !in s.toDrop
  }

  /** Events that replace the state of service `id`, or remove it for another reason than silence. */
  predicate Disturbs(s: Tables, e: Event, id: nat) {
    || (e.Unregister? && id in s.callbacks && forall c :: c in s.callbacks[id] ==> c == e.cb)
    || (e.Advertise? && e.id == id && !(id in s.discovered && SameKind(s.discovered[id], e.info)))
  }

  ghost predicate Undisturbed(s: Tables, es: seq<Event>, id: nat) {
    forall i :: 0 <= i < |es| && Happens(s, es, i) ==> !Disturbs(Run(s, es[..i]), es[i], id)
  }

  /** No check that happens comes too long after the last sign of life before it. */
  ghost predicate HeardInTime(s: Tables, es: seq<Event>, id: nat, first: int) {
    forall i :: 0 <= i < |es| && es[i].Check? && Happens(s, es, i) ==>
      es[i].now - LastSign(s, es[..i], id, first) <= SILENCE_LIMIT
  }

  /** An acknowledgement of a managed service ends the claiming. */
  lemma AckSettles(s: Tables, id: nat, now: int)
    requires Inv(s) && Enabled(s, Ack(id, 1, now)) && id in s.endpoints && s.notifying != Some(id)
    ensures var t := Step(s, Ack(id, 1, now)); Settled(t, id) && t.endpoints[id].lastHeartbeat == now
  {
  }

  /** What the last sign of life is after one more step. */
  function Later(s: Tables, e: Event, id: nat, last: int): int {
    if Enabled(s, e) && Sign(e, id).Some? then Sign(e, id).value else last
  }

  /** The claims that a run adds go to other services. */
  ghost predicate NotClaimed(before: seq<Claim>, after: seq<Claim>, id: nat) {
    |before| <= |after| && after[..|before|] == before && forall j :: |before| <= j < |after| ==> after[j].id != id
  }

  lemma StillNotClaimed(a: seq<Claim>, b: seq<Claim>, c: seq<Claim>, id: nat)
    requires NotClaimed(a, b, id) && NotClaimed(b, c, id)
    ensures NotClaimed(a, c, id)
  {
    assert c[..|a|] == c[..|b|][..|a|];
    forall j | |a| <= j < |c| ensures c[j].id != id {
      assert j < |b| ==> b[j] == c[..|b|][j];
    }
  }

  lemma SettledStep(s: Tables, e: Event, id: nat)
    requires Settled(s, id) && (Enabled(s, e) ==> !Disturbs(s, e, id))
    requires e.Check? && Enabled(s, e) ==> e.now - s.endpoints[id].lastHeartbeat <= SILENCE_LIMIT
    ensures var t := Step(s, e);
            && Settled(t, id) && t.endpoints[id].lastHeartbeat == Later(s, e, id, s.endpoints[id].lastHeartbeat)
            && NotClaimed(s.claims, t.claims, id)
  {
  }

  lemma PrefixHappens(s: Tables, es: seq<Event>, n: int, i: int)
    requires 0 <= i < n <= |es|
    ensures es[..n][..i] == es[..i] && Happens(s, es[..n], i) == Happens(s, es, i)
  {
    assert es[..n][..i] == es[..i];
  }

  /**
   As long as no check finds it silent for too long, an acknowledged service stays managed and is neither
   claimed again nor dropped, whatever else the threads do; and the table holds its last sign of life.
   */
  lemma {:induction false} KeptWhileHeard(s: Tables, es: seq<Event>, id: nat)
    requires Settled(s, id) && Undisturbed(s, es, id)
    requires HeardInTime(s, es, id, s.endpoints[id].lastHeartbeat)
    ensures var t := Run(s, es);
            && Settled(t, id) && t.endpoints[id].lastHeartbeat == LastSign(s, es, id, s.endpoints[id].lastHeartbeat)
            && NotClaimed(s.claims, t.claims, id)
    decreases |es|
  {
    hide Run, Step, Settled, Enabled, Disturbs;
    NoEvents(s);
    SettledIsManaged(s, id);
    if es != [] {
      var n := |es| - 1;
      var before, e := es[..n], es[n];
      forall i | 0 <= i < n
        ensures es[..n][..i] == es[..i] && es[..n][i] == es[i] && Happens(s, before, i) == Happens(s, es, i)
      {
        PrefixHappens(s, es, n, i);
      }
      KeptWhileHeard(s, before, id);
      assert es == before + [e];
      RunAppend(s, before, e);
      assert Happens(s, es, n) == Enabled(Run(s, before), e);
      SettledIsManaged(Run(s, before), id);
      SettledStep(Run(s, before), e, id);
      StillNotClaimed(s.claims, Run(s, before).claims, Run(s, es).claims, id);
    }
  }

  lemma SettledIsManaged(s: Tables, id: nat)
    ensures Settled(s, id) ==> id in s.endpoints
  {
  }

  /** So a check drops the service exactly if its last sign of life is more than 1.1 s old. */
  lemma DroppedIff(s: Tables, es: seq<Event>, id: nat, now: int)
    requires Settled(s, id) && Undisturbed(s, es, id)
    requires HeardInTime(s, es, id, s.endpoints[id].lastHeartbeat)
    requires Enabled(Run(s, es), Check(now))
    ensures var t := Step(Run(s, es), Check(now));
            var silent := now - LastSign(s, es, id, s.endpoints[id].lastHeartbeat) > 1_100_000;
            (id in t.toDrop <==> silent) && (id !in t.endpoints <==> silent) && id !in t.toClaim
  {
    hide LastSign, Undisturbed, HeardInTime, NotClaimed, Run;
    KeptWhileHeard(s, es, id);
  }

  // ---------------------------------------------------------------- with the heartbeats of a service

  function Time(e: Event, id: nat): Option<int> {
    if e.Check? then Some(e.now) else Sign(e, id)
  }

  /**
   What the interface hears of service `id` are the acknowledgement and the heartbeats in `r` that were
   received; those that arrive before a check are handled before it; time goes forward; the service is alive
   at every check.
   */
  ghost predicate Hears(s: Tables, es: seq<Event>, id: nat, r: H.Run) {
    && (forall i :: 0 <= i < |es| && Happens(s, es, i) && Sign(es[i], id).Some? ==>
          exists k :: H.Received(r, k) && r.arrives[k] == Sign(es[i], id).value)
    && (forall i, k :: 0 <= i < |es| && es[i].Check? && Happens(s, es, i)
                       && 0 < k && H.Received(r, k) && r.arrives[k] < es[i].now ==>
          exists j :: 0 <= j < i && Happens(s, es, j) && Sign(es[j], id) == Some(r.arrives[k]))
    && (forall i, j :: 0 <= i < j < |es| && Happens(s, es, i) && Happens(s, es, j)
                       && Time(es[i], id).Some? && Time(es[j], id).Some? ==>
          Time(es[i], id).value <= Time(es[j], id).value)
    && (forall i :: 0 <= i < |es| && Happens(s, es, i) && Time(es[i], id).Some? ==>
          |r.arrives| > 0 && r.arrives[0] <= Time(es[i], id).value)
    && (forall i :: 0 <= i < |es| && es[i].Check? && Happens(s, es, i) ==> H.Alive(r, es[i].now))
  }

  /** The last sign of life in the first `n` events, and where it is. */
  lemma {:induction false} LastSignIs(s: Tables, es: seq<Event>, n: int, id: nat, first: int) returns (j: int)
    requires 0 <= n <= |es|
    ensures var last := LastSign(s, es[..n], id, first);
            if j < 0 then last == first else j < n && Happens(s, es, j) && Sign(es[j], id) == Some(last)
    ensures forall i :: 0 <= i < n && i > j && Happens(s, es, i) ==> Sign(es[i], id).None?
    decreases n
  {
    hide Enabled, Run;
    if n == 0 {
      j := -1;
    } else {
      PrefixHappens(s, es, n, n - 1);
      assert es[..n][..n - 1] == es[..n - 1];
      if Happens(s, es, n - 1) && Sign(es[n - 1], id).Some? {
        j := n - 1;
      } else {
        j := LastSignIs(s, es, n - 1, id, first);
      }
    }
  }

  lemma LastHeardAtCheck(s: Tables, es: seq<Event>, id: nat, r: H.Run, delay: nat, i: int)
    requires H.Delivered(r, delay) && Hears(s, es, id, r)
    requires 0 <= i < |es| && es[i].Check? && Happens(s, es, i)
    ensures H.LastHeard(r, es[i].now, LastSign(s, es[..i], id, r.arrives[0]))
  {
    hide Happens, LastSign;
    var last, t := LastSign(s, es[..i], id, r.arrives[0]), es[i].now;
    var j := LastSignIs(s, es, i, id, r.arrives[0]);
    assert Time(es[i], id) == Some(t);
    if j < 0 {
      assert H.Received(r, 0);
    } else {
      assert Time(es[j], id) == Some(last);
    }
    forall k | H.Received(r, k) && r.arrives[k] < t ensures r.arrives[k] <= last {
      if k > 0 {
        var m :| 0 <= m < i && Happens(s, es, m) && Sign(es[m], id) == Some(r.arrives[k]);
        assert Time(es[m], id) == Some(r.arrives[k]);
      }
    }
  }

  /**
   End to end: an acknowledged service whose heartbeats meet the budget is never dropped, claimed again or
   replaced, however they are delayed and every second one lost, and whatever else the threads do.
   */
  lemma LiveServiceIsKept(s: Tables, es: seq<Event>, id: nat, r: H.Run, gap: nat, delay: nat)
    requires Settled(s, id) && Undisturbed(s, es, id)
    requires H.Delivered(r, delay) && H.GapsAtMost(r.sent, gap) && 2 * gap + delay <= SILENCE_LIMIT
    requires Hears(s, es, id, r) && r.arrives[0] == s.endpoints[id].lastHeartbeat
    ensures var t := Run(s, es);
            && id in t.endpoints && t.endpoints[id].claimed && id !in t.toDrop && id !in t.toClaim
            && NotClaimed(s.claims, t.claims, id)
  {
    hide Run, Happens, LastSign, Undisturbed, Hears, H.Delivered, H.GapsAtMost, H.Alive, H.LastHeard, NotClaimed;
    var first := s.endpoints[id].lastHeartbeat;
    forall i | 0 <= i < |es| && es[i].Check? && Happens(s, es, i)
      ensures es[i].now - LastSign(s, es[..i], id, first) <= SILENCE_LIMIT
    {
      LastHeardAtCheck(s, es, id, r, delay, i);
      AliveAtCheck(s, es, id, r, i);
      H.SilenceBound(r, gap, delay, es[i].now, LastSign(s, es[..i], id, first));
    }
    KeptWhileHeard(s, es, id);
  }

  lemma AliveAtCheck(s: Tables, es: seq<Event>, id: nat, r: H.Run, i: int)
    requires Hears(s, es, id, r) && 0 <= i < |es| && es[i].Check? && Happens(s, es, i)
    ensures H.Alive(r, es[i].now)
  {
  }
}
