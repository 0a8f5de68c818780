/** What the time that `Tick` returns is worth when callbacks reconfigure timers in the middle of the tick. */
module SleepProofs {
  import opened Wire
  import opened Timers
  import opened TimerProofs

  /** How long timer `k` still has to run, on either clock. */
  function TimeLeft(c: Clock, s: Sched, k: nat): int
    requires k < |s.timers|
  {
    s.timers[k].interval - Norm(c, s.now - s.timers[k].lastTick)
  }

  predicate SomeEnabled(s: Sched) {
    exists k :: 0 <= k < |s.timers| && IsEnabled(s.timers[k])
  }

  /** Some enabled timer has less time left than the tick has returned. */
  predicate TooLong(c: Clock, r: TickResult) {
    exists k :: 0 <= k < |r.sched.timers| && IsEnabled(r.sched.timers[k]) && TimeLeft(c, r.sched, k) < r.sleep
  }

  /** The callback of a timer behind `k` has reconfigured `k`, which the tick had already passed. */
  predicate Overtaken(fired: seq<nat>, scripts: seq<seq<Command>>, k: nat) {
    exists j, cmd :: j in fired && k < j && cmd in Script(scripts, j) && cmd.k == k
  }

  lemma FiredTail(c: Clock, s: Sched, i: nat, scripts: seq<seq<Command>>, k: nat)
    requires i < |s.timers| && !Overtaken(TickFrom(c, s, i, scripts).fired, scripts, k)
    ensures !Overtaken(TickFrom(c, Next(c, s, i, Script(scripts, i)), i + 1, scripts).fired, scripts, k)
    ensures Fires(c, s, i) && k < i ==> forall cmd :: cmd in Script(scripts, i) ==> cmd.k != k
  {
    hide TickFrom, Next, Fires, Script;
    TickFromUnfold(c, s, i, scripts);
    var rest := TickFrom(c, Next(c, s, i, Script(scripts, i)), i + 1, scripts).fired;
    assert forall j :: j in rest ==> j in TickFrom(c, s, i, scripts).fired;
    assert Fires(c, s, i) ==> i in TickFrom(c, s, i, scripts).fired;
  }

  lemma {:induction false} PassedTimerStays(c: Clock, s: Sched, i: nat, scripts: seq<seq<Command>>, k: nat)
    requires k < i <= |s.timers| && !Overtaken(TickFrom(c, s, i, scripts).fired, scripts, k)
    ensures TickFrom(c, s, i, scripts).sched.timers[k] == s.timers[k]
    decreases |s.timers| - i
  {
    hide TickFrom, Overtaken, ApplyAll, Fires;
    if i < |s.timers| {
      TickFromUnfold(c, s, i, scripts);
      FiredTail(c, s, i, scripts, k);
      ApplyAllTouches(s, Script(scripts, i), k);
      PassedTimerStays(c, Next(c, s, i, Script(scripts, i)), i + 1, scripts, k);
    } else {
      TickFromEnd(c, s, scripts);
    }
  }

  /** Whatever callbacks do, the returned time is at most what a timer has left, unless it was overtaken. */
  lemma {:induction false} SleepCovers(c: Clock, s: Sched, i: nat, scripts: seq<seq<Command>>, k: nat)
    requires i <= k < |s.timers| && !Overtaken(TickFrom(c, s, i, scripts).fired, scripts, k)
    requires IsEnabled(TickFrom(c, s, i, scripts).sched.timers[k])
    ensures TickFrom(c, s, i, scripts).sleep <= TimeLeft(c, TickFrom(c, s, i, scripts).sched, k)
    decreases |s.timers| - i
  {
    hide TickFrom, Overtaken, ApplyAll;
    var s' := Next(c, s, i, Script(scripts, i));
    TickFromUnfold(c, s, i, scripts);
    FiredTail(c, s, i, scripts, k);
    if i == k {
      PassedTimerStays(c, s', i + 1, scripts, k);
    } else {
      SleepCovers(c, s', i + 1, scripts, k);
    }
  }

  // ---------------------------------------------------------------- callbacks that look ahead

  /** Each callback reconfigures only timers behind its own in the list, which the tick has yet to visit. */
  predicate AheadOnly(scripts: seq<seq<Command>>) {
    forall j, cmd :: 0 <= j < |scripts| && cmd in scripts[j] ==> j < cmd.k
  }

  lemma NotOvertaken(fired: seq<nat>, scripts: seq<seq<Command>>, k: nat)
    requires AheadOnly(scripts)
    ensures !Overtaken(fired, scripts, k)
  {
  }

  lemma {:induction false} SleepIsAttained(c: Clock, s: Sched, i: nat, scripts: seq<seq<Command>>)
    requires i <= |s.timers| && AheadOnly(scripts)
    ensures var r := TickFrom(c, s, i, scripts);
            r.sleep < NO_ENABLED_SCHEDULE ==>
              exists k :: i <= k < |s.timers| && IsEnabled(r.sched.timers[k]) && r.sleep == TimeLeft(c, r.sched, k)
    decreases |s.timers| - i
  {
    hide TickFrom, ApplyAll;
    if i < |s.timers| {
      var script := Script(scripts, i);
      var s' := Next(c, s, i, script);
      TickFromUnfold(c, s, i, scripts);
      SleepIsAttained(c, s', i + 1, scripts);
      NotOvertaken(TickFrom(c, s', i + 1, scripts).fired, scripts, i);
      PassedTimerStays(c, s', i + 1, scripts, i);
      ApplyAllTouches(s, script, i);
    } else {
      TickFromEnd(c, s, scripts);
    }
  }

  /** So with such callbacks the returned time bounds what every timer has left, and the bound is attained. */
  lemma SleepIsTight(c: Clock, s: Sched, count: nat, scripts: seq<seq<Command>>)
    requires AheadOnly(scripts)
    ensures var r := Ticked(c, s, count, scripts);
            && !TooLong(c, r)
            && (r.sleep < NO_ENABLED_SCHEDULE ==>
                  exists k :: 0 <= k < |r.sched.timers| && IsEnabled(r.sched.timers[k])
                              && r.sleep == TimeLeft(c, r.sched, k))
  {
    hide TickFrom, AheadOnly, Overtaken;
    var s' := Advance(c, s, count);
    var r := TickFrom(c, s', 0, scripts);
    SleepIsAttained(c, s', 0, scripts);
    forall k: nat | k < |r.sched.timers| && IsEnabled(r.sched.timers[k]) ensures r.sleep <= TimeLeft(c, r.sched, k) {
      NotOvertaken(r.fired, scripts, k);
      SleepCovers(c, s', 0, scripts, k);
    }
  }

  /** Before anything fires nothing changes, so something fires exactly if something is due at the start. */
  lemma {:induction false} FiresSomethingIff(c: Clock, s: Sched, i: nat, scripts: seq<seq<Command>>)
    requires i <= |s.timers|
    ensures TickFrom(c, s, i, scripts).fired != [] <==> exists k :: i <= k < |s.timers| && Fires(c, s, k)
    decreases |s.timers| - i
  {
    hide TickFrom, Fires;
    if i < |s.timers| {
      TickFromUnfold(c, s, i, scripts);
      if !Fires(c, s, i) {
        FiresSomethingIff(c, s, i + 1, scripts);
      }
    } else {
      TickFromEnd(c, s, scripts);
    }
  }

  lemma {:induction false} StaysSane(s: Sched, i: nat, scripts: seq<seq<Command>>)
    requires i <= |s.timers| && Sane(s) && NarrowScripts(scripts)
    ensures Sane(TickFrom(Unbounded, s, i, scripts).sched)
    decreases |s.timers| - i
  {
    hide TickFrom, ApplyAll, Fires;
    if i < |s.timers| {
      TickFromUnfold(Unbounded, s, i, scripts);
      ApplyAllSane(s, Script(scripts, i));
      StaysSane(Next(Unbounded, s, i, Script(scripts, i)), i + 1, scripts);
    } else {
      TickFromEnd(Unbounded, s, scripts);
    }
  }

  /**
   The value `Tick` returns is the exact time to the next firing: if callbacks look ahead only, the next
   tick, whatever its own callbacks do, fires something if and only if it comes at least that late.
   */
  lemma SleepIsExact(s: Sched, count: nat, scripts: seq<seq<Command>>, next: nat, later: seq<seq<Command>>)
    requires Sane(s) && NarrowScripts(scripts) && AheadOnly(scripts) && next < U32
    ensures var r := Ticked(Unbounded, s, count, scripts);
            Ticked(Unbounded, r.sched, next, later).fired != [] <==> SomeEnabled(r.sched) && next >= r.sleep
  {
    hide TickFrom, AheadOnly, NarrowScripts, Overtaken;
    var s' := Advance(Unbounded, s, count);
    var r := TickFrom(Unbounded, s', 0, scripts);
    var t := Advance(Unbounded, r.sched, next);
    StaysSane(s', 0, scripts);
    SleepIsTight(Unbounded, s, count, scripts);
    FiresSomethingIff(Unbounded, t, 0, later);
    assert forall k :: 0 <= k < |t.timers| ==>
      (Fires(Unbounded, t, k) <==> IsEnabled(t.timers[k]) && next >= TimeLeft(Unbounded, r.sched, k));
  }

  // ---------------------------------------------------------------- callbacks that look back

  /** Each callback reconfigures only timers that the tick has already passed. */
  predicate BackOnly(scripts: seq<seq<Command>>) {
    forall j, cmd :: 0 <= j < |scripts| && cmd in scripts[j] ==> cmd.k < j
  }

  /** The calls that the callbacks of the fired timers make. */
  function Calls(fired: seq<nat>, scripts: seq<seq<Command>>): seq<Command> {
    if fired == [] then [] else Script(scripts, fired[0]) + Calls(fired[1..], scripts)
  }

  lemma {:induction false} ApplyAllAppend(s: Sched, a: seq<Command>, b: seq<Command>)
    ensures ApplyAll(s, a + b) == ApplyAll(ApplyAll(s, a), b)
    decreases |a|
  {
    if a == [] {
      assert a + b == b;
    } else {
      assert (a + b)[1..] == a[1..] + b;
      ApplyAllAppend(Apply(s, a[0]), a[1..], b);
    }
  }

  lemma {:induction false} TouchCommutes(s: Sched, cmds: seq<Command>, i: nat)
    requires i < |s.timers| && forall cmd :: cmd in cmds ==> cmd.k < i
    ensures Touch(ApplyAll(s, cmds), i) == ApplyAll(Touch(s, i), cmds)
    decreases |cmds|
  {
    if cmds != [] {
      assert cmds[0] in cmds && forall cmd :: cmd in cmds[1..] ==> cmd in cmds;
      assert Apply(Touch(s, i), cmds[0]) == Touch(Apply(s, cmds[0]), i);
      TouchCommutes(Apply(s, cmds[0]), cmds[1..], i);
    }
  }

  /** Timer `i` is visited with the calls `pending` already made on timers before it. */
  lemma NextCommutes(c: Clock, s: Sched, i: nat, pending: seq<Command>, script: seq<Command>)
    requires i < |s.timers| && forall cmd :: cmd in pending + script ==> cmd.k < i
    ensures Fires(c, ApplyAll(s, pending), i) == Fires(c, s, i)
    ensures Wait(c, ApplyAll(s, pending), i, script) == Wait(c, s, i, [])
    ensures Next(c, ApplyAll(s, pending), i, script)
         == ApplyAll(Next(c, s, i, []), pending + if Fires(c, s, i) then script else [])
  {
    hide ApplyAll;
    assert forall cmd :: cmd in pending ==> cmd in pending + script;
    assert pending + [] == pending;
    NoCalls(s);
    ApplyAllTouches(s, pending, i);
    ApplyAllAppend(s, pending, script);
    ApplyAllTouches(s, pending + script, i);
    TouchCommutes(s, pending + script, i);
  }

  lemma NoCalls(s: Sched)
    ensures ApplyAll(s, []) == s
  {
  }

  lemma {:induction false} BackTickFrom(c: Clock, s: Sched, i: nat, pending: seq<Command>, scripts: seq<seq<Command>>)
    requires i <= |s.timers| && BackOnly(scripts) && forall cmd :: cmd in pending ==> cmd.k < i
    ensures var r, r0 := TickFrom(c, ApplyAll(s, pending), i, scripts), TickFrom(c, s, i, []);
            && r.fired == r0.fired && r.sleep == r0.sleep
            && r.sched == ApplyAll(r0.sched, pending + Calls(r0.fired, scripts))
    decreases |s.timers| - i
  {
    hide TickFrom, ApplyAll, Next, Wait, Fires;
    if i < |s.timers| {
      var script := Script(scripts, i);
      assert forall cmd :: cmd in script ==> cmd.k < i;
      var pending' := pending + if Fires(c, s, i) then script else [];
      NextCommutes(c, s, i, pending, script);
      TickFromUnfold(c, ApplyAll(s, pending), i, scripts);
      TickFromUnfold(c, s, i, []);
      var s' := Next(c, s, i, []);
      assert |s'.timers| == |s.timers| by { NextLength(c, s, i); }
      BackTickFrom(c, s', i + 1, pending', scripts);
      var rest := TickFrom(c, s', i + 1, []).fired;
      CallsCons(i, rest, scripts);
      Assoc(pending, if Fires(c, s, i) then script else [], Calls(rest, scripts));
    } else {
      TickFromEnd(c, ApplyAll(s, pending), scripts);
      TickFromEnd(c, s, []);
      assert pending + Calls([], scripts) == pending;
    }
  }

  lemma NextLength(c: Clock, s: Sched, i: nat)
    requires i < |s.timers|
    ensures |Next(c, s, i, []).timers| == |s.timers|
  {
  }

  lemma CallsCons(i: nat, rest: seq<nat>, scripts: seq<seq<Command>>)
    ensures Calls([i] + rest, scripts) == Script(scripts, i) + Calls(rest, scripts)
    ensures [] + rest == rest && [] + Calls(rest, scripts) == Calls(rest, scripts)
  {
    assert ([i] + rest)[1..] == rest;
  }

  /**
   Calls on timers that have been passed take effect, but the tick neither fires nor sleeps differently
   because of them: it returns the time of a tick whose callbacks do nothing.
   */
  lemma SleepIgnoresLaterCallbacks(c: Clock, s: Sched, count: nat, scripts: seq<seq<Command>>)
    requires BackOnly(scripts)
    ensures var r, r0 := Ticked(c, s, count, scripts), Ticked(c, s, count, []);
            && r.fired == r0.fired && r.sleep == r0.sleep
            && r.sched == ApplyAll(r0.sched, Calls(r0.fired, scripts))
  {
    hide TickFrom, ApplyAll;
    var s' := Advance(c, s, count);
    NoCalls(s');
    BackTickFrom(c, s', 0, [], scripts);
    CallsCons(0, TickFrom(c, s', 0, []).fired, scripts);
  }

  /** The callback of timer `j`, and nobody else, sets the interval of timer `k`. */
  function OneCall(j: nat, k: nat, interval: nat): seq<seq<Command>> {
    seq(j + 1, m requires 0 <= m => if m == j then [SetInterval(k, interval, true)] else [])
  }

  predicate Increasing(ks: seq<nat>) {
    ks == [] || ((forall k :: k in ks[1..] ==> ks[0] < k) && Increasing(ks[1..]))
  }

  lemma {:induction false} CallsOfOne(fired: seq<nat>, j: nat, k: nat, interval: nat)
    requires Increasing(fired)
    ensures Calls(fired, OneCall(j, k, interval)) == if j in fired then [SetInterval(k, interval, true)] else []
  {
    if fired != [] {
      assert j in fired <==> j == fired[0] || j in fired[1..];
      CallsOfOne(fired[1..], j, k, interval);
    }
  }

  lemma IncreasingCons(i: nat, ks: seq<nat>)
    requires Increasing(ks) && forall k :: k in ks ==> i < k
    ensures Increasing([i] + ks) && [] + ks == ks
  {
    assert ([i] + ks)[1..] == ks;
  }

  /** Timers fire in the order of the list, and callbacks that do nothing change no settings. */
  lemma {:induction false} QuietTick(c: Clock, s: Sched, i: nat)
    requires i <= |s.timers|
    ensures var r := TickFrom(c, s, i, []);
            && Increasing(r.fired)
            && forall k :: 0 <= k < |s.timers| ==>
                 r.sched.timers[k] == s.timers[k].(lastTick := r.sched.timers[k].lastTick)
    decreases |s.timers| - i
  {
    hide TickFrom, Fires;
    if i < |s.timers| {
      var s' := Next(c, s, i, []);
      TickFromUnfold(c, s, i, []);
      NextLength(c, s, i);
      QuietTick(c, s', i + 1);
      FiredBeyond(c, s', i + 1, []);
      IncreasingCons(i, TickFrom(c, s', i + 1, []).fired);
    } else {
      TickFromEnd(c, s, []);
    }
  }

  predicate Named(calls: seq<Command>, k: nat) {
    exists cmd :: cmd in calls && cmd.k == k
  }

  /**
   Callbacks that reconfigure earlier timers, by whatever calls, make the time that `Tick` returns too long
   exactly if they leave one of these timers enabled with less time than a tick without callbacks returns.
   */
  lemma TooLongIff(c: Clock, s: Sched, count: nat, scripts: seq<seq<Command>>)
    requires BackOnly(scripts)
    ensures var r0 := Ticked(c, s, count, []);
            var calls := Calls(r0.fired, scripts);
            var t := ApplyAll(r0.sched, calls);
            TooLong(c, Ticked(c, s, count, scripts))
            <==> exists k :: 0 <= k < |t.timers| && Named(calls, k) && IsEnabled(t.timers[k])
                             && TimeLeft(c, t, k) < r0.sleep
  {
    hide TickFrom, ApplyAll, Calls, Overtaken;
    var s' := Advance(c, s, count);
    var r0 := TickFrom(c, s', 0, []);
    var calls := Calls(r0.fired, scripts);
    var t := ApplyAll(r0.sched, calls);
    SleepIgnoresLaterCallbacks(c, s, count, scripts);
    forall k: nat | k < |t.timers| && IsEnabled(t.timers[k]) && !Named(calls, k) ensures r0.sleep <= TimeLeft(c, t, k) {
      ApplyAllTouches(r0.sched, calls, k);
      NothingOvertaken(r0.fired, k);
      SleepCovers(c, s', 0, [], k);
    }
  }

  /** For a single call: a callback that sets the interval of an earlier timer must not make it shorter than that. */
  lemma ShorteningIff(c: Clock, s: Sched, count: nat, j: nat, k: nat, interval: nat)
    requires j in Ticked(c, s, count, []).fired && k < j && k < |s.timers| && s.timers[k].enabled
    requires 0 < interval != s.timers[k].interval
    ensures TooLong(c, Ticked(c, s, count, OneCall(j, k, interval))) <==> interval < Ticked(c, s, count, []).sleep
  {
    hide TickFrom, ApplyAll, Calls, TooLong;
    var cmd := SetInterval(k, interval, true);
    var r0 := TickFrom(c, Advance(c, s, count), 0, []);
    TooLongIff(c, s, count, OneCall(j, k, interval));
    QuietTick(c, Advance(c, s, count), 0);
    CallsOfOne(r0.fired, j, k, interval);
    ApplyOne(r0.sched, cmd);
    assert cmd in [cmd];
    assert TimeLeft(c, Apply(r0.sched, cmd), k) == interval;
  }

  lemma ApplyOne(s: Sched, cmd: Command)
    ensures ApplyAll(s, [cmd]) == Apply(s, cmd)
  {
    assert [cmd][1..] == [];
  }

  lemma NothingOvertaken(fired: seq<nat>, k: nat)
    ensures !Overtaken(fired, [], k)
  {
  }

  /** For example: told to sleep for 5, the loop misses a timer that is due after 1. */
  lemma ShortenedTimerIsLate()
    ensures var s := Sched(0, [Timer(0, 10, true, false), Timer(0, 5, true, false)]);
            var r := Ticked(Unbounded, s, 5, OneCall(1, 0, 1));
            r.sleep == 5 && TooLong(Unbounded, r)
  {
    var s := Sched(0, [Timer(0, 10, true, false), Timer(0, 5, true, false)]);
    var s1 := Advance(Unbounded, s, 5);
    var s2 := Touch(s1, 1);
    assert TickFrom(Unbounded, s2, 2, []) == TickResult(s2, [], NO_ENABLED_SCHEDULE);
    assert TickFrom(Unbounded, s1, 1, []) == TickResult(s2, [1], 5);
    assert Ticked(Unbounded, s, 5, []) == TickResult(s2, [1], 5);
    ShorteningIff(Unbounded, s, 5, 1, 0, 1);
    SleepIgnoresLaterCallbacks(Unbounded, s, 5, OneCall(1, 0, 1));
  }
}
