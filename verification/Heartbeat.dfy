/** The real-time bound between the heartbeats of a claimed service and the interface's timeout. */
module Heartbeat {
  import opened Wire
  import opened Timers
  import opened TimerProofs

  /** The interval at which a service sends, for a requested heartbeat and an allowed jitter. */
  function HeartbeatInterval(heartbeat: nat, jitter: nat): nat {
    (if heartbeat > jitter then heartbeat - jitter else heartbeat) / 2
  }

  /** Signs of life of one claimed service: the claim acknowledgement, then its heartbeats. */
  datatype Run = Run(sent: seq<int>, arrives: seq<int>, got: seq<bool>)

  /** The network takes at most `delay`, and of two consecutive sends at most one is lost. */
  ghost predicate Delivered(r: Run, delay: nat) {
    && 0 < |r.sent| == |r.arrives| == |r.got| && r.got[0]
    && (forall k :: 0 <= k < |r.sent| ==> r.sent[k] <= r.arrives[k] <= r.sent[k] + delay)
    && (forall k :: 0 <= k < |r.sent| - 1 ==> r.got[k] || r.got[k + 1])
  }

  /** Moreover sends are `interval` apart and at most `loop` late. */
  ghost predicate ValidRun(r: Run, interval: nat, loop: nat, delay: nat) {
    Delivered(r, delay) && Gaps(r.sent, interval, interval + loop)
  }

  ghost predicate Received(r: Run, k: int) {
    0 <= k < |r.sent| == |r.arrives| == |r.got| && r.got[k]
  }

  /** The last reception a check at time `t` knows of; one at `t` itself may come after the check. */
  ghost predicate LastHeard(r: Run, t: int, last: int) {
    && (exists k :: Received(r, k) && r.arrives[k] == last && last <= t)
    && forall k :: Received(r, k) && r.arrives[k] < t ==> r.arrives[k] <= last
  }

  /** The service is still sending at `t`. */
  predicate Alive(r: Run, t: int) {
    |r.sent| > 0 && t <= r.sent[|r.sent| - 1]
  }

  /** The interface's timeout check removes the service only after more than heartbeat plus jitter. */
  predicate TimedOut(t: int, last: int, heartbeat: nat, jitter: nat) {
    t - last > heartbeat + jitter
  }

  /** No run, however it loses and delays, gets a live service removed. */
  ghost predicate NeverDropped(heartbeat: nat, jitter: nat, loop: nat, delay: nat) {
    forall r, t, last ::
      ValidRun(r, HeartbeatInterval(heartbeat, jitter), loop, delay) && Alive(r, t) && LastHeard(r, t, last) ==>
        !TimedOut(t, last, heartbeat, jitter)
  }

  /** Consecutive sends are at most `gap` apart. */
  predicate GapsAtMost(ts: seq<int>, gap: int) {
    forall j :: 0 <= j < |ts| - 1 ==> ts[j + 1] - ts[j] <= gap
  }

  /** A check never comes later after the last reception than two gaps and one delay. */
  lemma SilenceBound(r: Run, gap: nat, delay: nat, t: int, last: int)
    requires Delivered(r, delay) && GapsAtMost(r.sent, gap) && Alive(r, t) && LastHeard(r, t, last)
    ensures t - last <= 2 * gap + delay
  {
    var k0 :| Received(r, k0) && r.arrives[k0] == last && last <= t;
    var k := LatestKnown(r, t, last, k0);
    var n := |r.sent|;
    if k == n - 1 {
      assert t <= r.sent[k] <= r.arrives[k];
    } else if r.got[k + 1] {
      assert Received(r, k + 1);
      assert r.sent[k + 1] - r.sent[k] <= gap;
    } else if k + 2 < n {
      assert r.got[k + 1] || r.got[k + 1 + 1];
      assert Received(r, k + 2);
      assert r.sent[k + 1] - r.sent[k] <= gap;
      assert r.sent[k + 1 + 1] - r.sent[k + 1] <= gap;
    } else {
      assert r.sent[k + 1] - r.sent[k] <= gap;
    }
  }

  /** The newest reception that is no later than `last`. */
  lemma {:induction false} LatestKnown(r: Run, t: int, last: int, k0: nat) returns (k: nat)
    requires Received(r, k0) && r.arrives[k0] <= last
    ensures k0 <= k && Received(r, k) && r.arrives[k] <= last
    ensures forall m :: k < m && Received(r, m) ==> r.arrives[m] > last
    decreases |r.sent| - k0
  {
    if m :| k0 < m && Received(r, m) && r.arrives[m] <= last {
      k := LatestKnown(r, t, last, m);
    } else {
      k := k0;
    }
  }

  /** The slowest run the bounds allow: every second heartbeat lost, the others delayed fully. */
  function SlowestRun(gap: nat, delay: nat): Run {
    Run(seq(delay + 3, k requires 0 <= k => k * gap),
        seq(delay + 3, k requires 0 <= k => if k < 2 then k * gap else k * gap + delay),
        seq(delay + 3, k requires 0 <= k => k % 2 == 0))
  }

  lemma SlowestRunIsSlow(interval: nat, loop: nat, delay: nat)
    requires interval > 0
    ensures var r, t := SlowestRun(interval + loop, delay), 2 * (interval + loop) + delay;
            ValidRun(r, interval, loop, delay) && Alive(r, t) && LastHeard(r, t, 0)
  {
    hide SlowestRun, Delivered, LastHeard, Alive;
    var gap := interval + loop;
    SlowestGaps(gap, delay);
    SlowestDelivered(gap, delay);
    SlowestAlive(gap, delay);
    SlowestHeard(gap, delay);
  }

  lemma SlowestDelivered(gap: nat, delay: nat)
    ensures Delivered(SlowestRun(gap, delay), delay)
  {
  }

  lemma SlowestGaps(gap: nat, delay: nat)
    ensures Gaps(SlowestRun(gap, delay).sent, gap, gap)
  {
    var ts := SlowestRun(gap, delay).sent;
    forall k | 0 <= k < |ts| - 1 ensures ts[k + 1] - ts[k] == gap {
      NextGap(k, gap);
    }
  }

  lemma NextGap(k: int, gap: nat)
    ensures (k + 1) * gap == k * gap + gap
  {
  }

  lemma SlowestAlive(gap: nat, delay: nat)
    requires gap > 0
    ensures Alive(SlowestRun(gap, delay), 2 * gap + delay)
  {
    NextGap(delay + 1, gap);
    NextGap(delay, gap);
    AtLeast(delay, gap);
  }

  lemma AtLeast(n: nat, gap: nat)
    ensures gap > 0 ==> n * gap >= n
  {
    if gap > 0 {
      assert n * (gap - 1) >= 0;
    }
  }

  lemma SlowestHeard(gap: nat, delay: nat)
    ensures LastHeard(SlowestRun(gap, delay), 2 * gap + delay, 0)
  {
    var r := SlowestRun(gap, delay);
    assert Received(r, 0) && r.arrives[0] == 0;
    forall k | Received(r, k) ensures k == 0 || r.arrives[k] >= 2 * gap + delay {
      TwoGaps(k, gap);
    }
  }

  lemma TwoGaps(k: int, gap: nat)
    ensures k >= 2 ==> k * gap >= 2 * gap
  {
    if k >= 2 {
      assert (k - 2) * gap >= 0;
    }
  }

  /** Exactly when heartbeat plus jitter covers two late intervals and the delay is no drop possible. */
  lemma NeverDroppedIff(heartbeat: nat, jitter: nat, loop: nat, delay: nat)
    requires HeartbeatInterval(heartbeat, jitter) > 0
    ensures NeverDropped(heartbeat, jitter, loop, delay)
       <==> 2 * (HeartbeatInterval(heartbeat, jitter) + loop) + delay <= heartbeat + jitter
  {
    var interval := HeartbeatInterval(heartbeat, jitter);
    SlowestRunIsSlow(interval, loop, delay);
    forall r, t, last | ValidRun(r, interval, loop, delay) && Alive(r, t) && LastHeard(r, t, last)
      ensures t - last <= 2 * (interval + loop) + delay
    {
      SilenceBound(r, interval + loop, delay, t, last);
    }
  }

  /** Twice the loop delay plus the network delay may use up twice the jitter. */
  lemma JitterBudget(heartbeat: nat, jitter: nat, loop: nat, delay: nat)
    requires heartbeat > jitter + 1 && 2 * loop + delay <= 2 * jitter
    ensures NeverDropped(heartbeat, jitter, loop, delay)
  {
    NeverDroppedIff(heartbeat, jitter, loop, delay);
  }

  /** The constants of the code leave 200 ms for two loop delays and one network delay. */
  lemma DefaultHeartbeat(loop: nat, delay: nat)
    ensures HeartbeatInterval(DEFAULT_HEARTBEAT, HEARTBEAT_JITTER) == 450_000
    ensures NeverDropped(DEFAULT_HEARTBEAT, HEARTBEAT_JITTER, loop, delay) <==> 2 * loop + delay <= 200_000
  {
    NeverDroppedIff(DEFAULT_HEARTBEAT, HEARTBEAT_JITTER, loop, delay);
  }

  /**
   End to end, for the heartbeat timer `k` of a service that acknowledges a claim at time `ack`: if the
   loop ticks on time up to `loop`, no loss pattern within the bounds gets the service removed. A
   repeated claim need not have restarted the timer.
   */
  lemma ScheduledHeartbeats(s: Sched, sleep: int, counts: seq<nat>, k: nat, heartbeat: nat, jitter: nat,
                            loop: nat, delay: nat, ack: int, r: Run, t: int, last: int)
    requires Sane(s) && Settled(s) && k < |s.timers| && IsEnabled(s.timers[k])
    requires sleep <= DueIn(s, k) && Punctual(s, sleep, counts, loop)
    requires s.timers[k].interval == HeartbeatInterval(heartbeat, jitter)
    requires heartbeat > jitter && 2 * loop + delay <= 2 * jitter
    requires s.timers[k].lastTick <= ack && r.sent == [ack] + FireTimes(s, counts, k)
    requires Delivered(r, delay) && Alive(r, t) && LastHeard(r, t, last)
    ensures !TimedOut(t, last, heartbeat, jitter)
  {
    PunctualFirings(s, sleep, counts, k, loop);
    var gap := s.timers[k].interval + loop;
    var restarted := [s.timers[k].lastTick] + FireTimes(s, counts, k);
    forall j | 0 <= j < |r.sent| - 1 ensures r.sent[j + 1] - r.sent[j] <= gap {
      assert restarted[j + 1] == r.sent[j + 1] && restarted[j + 1] - restarted[j] <= gap;
    }
    SilenceBound(r, gap, delay, t, last);
  }

  /** A timer with interval zero never fires, however long it is enabled. */
  lemma {:induction false} ZeroIntervalNeverFires(s: Sched, counts: seq<nat>, k: nat)
    requires Sane(s) && k < |s.timers| && s.timers[k].interval == 0
    ensures FireTimes(s, counts, k) == []
    decreases |counts|
  {
    if counts != [] {
      PassiveTickFrom(Advance(Unbounded, s, counts[0]), 0);
      ZeroIntervalNeverFires(Ticked(Unbounded, s, counts[0], []).sched, counts[1..], k);
    }
  }

  lemma ZeroInterval(heartbeat: nat, jitter: nat)
    ensures jitter > 0 ==> (HeartbeatInterval(heartbeat, jitter) == 0 <==> heartbeat < 2 || heartbeat == jitter + 1)
  {
  }

  lemma FireTimesOne(s: Sched, count: nat, k: nat)
    ensures var r := Ticked(Unbounded, s, count, []);
            FireTimes(s, [count], k) == if k in r.fired then [r.sched.now] else []
  {
    hide TickFrom;
    assert [count][1..] == [];
  }

  /** A claimed service sends no heartbeat at all exactly if one of three rates is requested. */
  lemma NoHeartbeats(s: Sched, k: nat, heartbeat: nat, jitter: nat)
    requires Sane(s) && Settled(s) && k < |s.timers| && s.timers[k].enabled && jitter > 0
    requires s.timers[k].interval == HeartbeatInterval(heartbeat, jitter)
    ensures HeartbeatInterval(heartbeat, jitter) == 0 <==> heartbeat < 2 || heartbeat == jitter + 1
    ensures (forall counts :: FireTimes(s, counts, k) == []) <==> heartbeat < 2 || heartbeat == jitter + 1
  {
    hide HeartbeatInterval, FireTimes, TickFrom;
    ZeroInterval(heartbeat, jitter);
    if s.timers[k].interval == 0 {
      forall counts ensures FireTimes(s, counts, k) == [] {
        ZeroIntervalNeverFires(s, counts, k);
      }
    } else {
      TickOf(s, s.timers[k].interval, k);
      FireTimesOne(s, s.timers[k].interval, k);
      assert FireTimes(s, [s.timers[k].interval], k) != [];
    }
  }
}
