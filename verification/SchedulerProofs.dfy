/** What the scheduler promises: wrap-around is invisible, and the timing is exact. */
module TimerProofs {
  import opened Wire
  import opened Timers

  // ---------------------------------------------------------------- the 32-bit clock

  /** The age of a timer: how long ago it was last reset. */
  function Age(s: Sched, k: nat): int
    requires k < |s.timers|
  {
    s.now - s.timers[k].lastTick
  }

  /**
   The plain timers of the 32-bit scheduler `w` and of the unbounded one `u` agree; those before
   position `i` are not due, and none is older than the 32-bit clock can tell.
   */
  ghost predicate Agree(w: Sched, u: Sched, i: nat) {
    && |w.timers| == |u.timers| && w.now == u.now % U32
    && forall k :: 0 <= k < |w.timers| ==> AgreeAt(w, u, k, i)
  }

  ghost predicate AgreeAt(w: Sched, u: Sched, k: nat, i: nat)
    requires k < |w.timers| && k < |u.timers|
  {
    var a, b := w.timers[k], u.timers[k];
    && a.managed == b.managed
    && (!a.managed ==>
          && a.interval == b.interval && a.enabled == b.enabled
          && a.lastTick == b.lastTick % U32 && b.lastTick <= u.now
          && (IsEnabled(b) ==> u.now - b.lastTick < if k < i then b.interval else U32))
  }

  /** A setter call that resets, as by default, when it is made on a plain timer. */
  predicate ResetsPlain(s: Sched, cmd: Command) {
    cmd.k < |s.timers| && !s.timers[cmd.k].managed ==>
      match cmd
      case SetInterval(_, _, reset) => reset
      case SetEnabled(_, _, reset) => reset
      case FlipFlag(_, _) => true
  }

  predicate OnlyManaged(s: Sched, cmd: Command) {
    cmd.k < |s.timers| ==> s.timers[cmd.k].managed
  }

  /** Callbacks of managed timers reconfigure managed timers only; the others reset what they set. */
  predicate AllowedScript(s: Sched, i: nat, cmds: seq<Command>)
    requires i < |s.timers|
  {
    forall cmd :: cmd in cmds ==> if s.timers[i].managed then OnlyManaged(s, cmd) else ResetsPlain(s, cmd)
  }

  predicate AllowedScripts(s: Sched, scripts: seq<seq<Command>>) {
    forall i :: 0 <= i < |s.timers| ==> AllowedScript(s, i, Script(scripts, i))
  }

  /** Setter calls never turn a plain timer into a managed one. */
  lemma {:induction false} KindsStay(s: Sched, cmds: seq<Command>)
    ensures forall k :: 0 <= k < |s.timers| ==> ApplyAll(s, cmds).timers[k].managed == s.timers[k].managed
    decreases |cmds|
  {
    if cmds != [] {
      KindsStay(Apply(s, cmds[0]), cmds[1..]);
    }
  }

  lemma {:induction false} ApplyAllAgrees(w: Sched, u: Sched, i: nat, cmds: seq<Command>)
    requires Agree(w, u, i)
    requires forall cmd :: cmd in cmds ==> ResetsPlain(w, cmd)
    ensures Agree(ApplyAll(w, cmds), ApplyAll(u, cmds), i)
    decreases |cmds|
  {
    if cmds != [] {
      var w', u' := Apply(w, cmds[0]), Apply(u, cmds[0]);
      assert cmds[0] in cmds;
      forall k | 0 <= k < |w.timers| ensures AgreeAt(w', u', k, i) {
        assert AgreeAt(w, u, k, i);
      }
      forall cmd | cmd in cmds[1..] ensures ResetsPlain(w', cmd) {
        assert cmd in cmds;
      }
      ApplyAllAgrees(w', u', i, cmds[1..]);
    }
  }

  /** Setter calls on managed timers leave the plain ones alone. */
  lemma {:induction false} ManagedOnly(s: Sched, cmds: seq<Command>)
    requires forall cmd :: cmd in cmds ==> OnlyManaged(s, cmd)
    ensures SamePlain(s, ApplyAll(s, cmds))
    decreases |cmds|
  {
    if cmds != [] {
      assert cmds[0] in cmds;
      var s' := Apply(s, cmds[0]);
      forall cmd | cmd in cmds[1..] ensures OnlyManaged(s', cmd) {
        assert cmd in cmds;
      }
      ManagedOnly(s', cmds[1..]);
    }
  }

  ghost predicate SamePlain(s: Sched, t: Sched) {
    && s.now == t.now && |s.timers| == |t.timers|
    && forall k :: 0 <= k < |s.timers| ==>
         s.timers[k].managed == t.timers[k].managed && (!s.timers[k].managed ==> s.timers[k] == t.timers[k])
  }

  /** The positions of plain timers among `ks`. */
  function Plain(s: Sched, ks: seq<nat>): seq<nat> {
    if ks == [] then []
    else (if ks[0] < |s.timers| && !s.timers[ks[0]].managed then [ks[0]] else []) + Plain(s, ks[1..])
  }

  lemma {:induction false} PlainSame(s: Sched, t: Sched, ks: seq<nat>)
    requires |s.timers| == |t.timers|
    requires forall k :: 0 <= k < |s.timers| ==> s.timers[k].managed == t.timers[k].managed
    ensures Plain(s, ks) == Plain(t, ks)
  {
    if ks != [] {
      PlainSame(s, t, ks[1..]);
    }
  }

  lemma WrapAge(now: int, last: int)
    requires 0 <= now - last < U32
    ensures (now % U32 - last % U32) % U32 == now - last
  {
  }

  lemma NextPlain(w: Sched, u: Sched, i: nat, script: seq<Command>)
    requires Agree(w, u, i) && i < |w.timers| && AllowedScript(w, i, script)
    ensures Agree(Next(Wrapping, w, i, script), Next(Unbounded, u, i, script), i + 1)
    ensures !w.timers[i].managed ==>
              && Fires(Wrapping, w, i) == Fires(Unbounded, u, i)
              && Wait(Wrapping, w, i, script) == Wait(Unbounded, u, i, script)
    ensures w.timers[i].managed == u.timers[i].managed
    ensures |Next(Wrapping, w, i, script).timers| == |w.timers|
    ensures |Next(Unbounded, u, i, script).timers| == |u.timers|
    ensures forall k :: 0 <= k < |w.timers| ==> Next(Wrapping, w, i, script).timers[k].managed == w.timers[k].managed
    ensures forall k :: 0 <= k < |u.timers| ==> Next(Unbounded, u, i, script).timers[k].managed == u.timers[k].managed
  {
    assert AgreeAt(w, u, i, i);
    var w', u', i' := Next(Wrapping, w, i, script), Next(Unbounded, u, i, script), i + 1;
    KindsStay(w, script);
    KindsStay(u, script);
    if !w.timers[i].managed {
      if IsEnabled(w.timers[i]) {
        WrapAge(u.now, u.timers[i].lastTick);
      }
      ApplyAllAgrees(w, u, i, script);
      assert AgreeAt(ApplyAll(w, script), ApplyAll(u, script), i, i);
      forall k | 0 <= k < |w.timers| ensures AgreeAt(w', u', k, i') {
        assert AgreeAt(w, u, k, i);
        assert AgreeAt(ApplyAll(w, script), ApplyAll(u, script), k, i);
      }
    } else {
      ManagedOnly(w, script);
      forall cmd | cmd in script ensures OnlyManaged(u, cmd) {
        if cmd.k < |u.timers| {
          assert AgreeAt(w, u, cmd.k, i);
        }
      }
      ManagedOnly(u, script);
      forall k | 0 <= k < |w.timers| ensures AgreeAt(w', u', k, i') {
        assert AgreeAt(w, u, k, i);
      }
    }
  }

  lemma AgreeLengths(w: Sched, u: Sched, i: nat)
    ensures Agree(w, u, i) ==> |w.timers| == |u.timers|
  {
  }

  lemma PlainNone(s: Sched)
    ensures Plain(s, []) == []
  {
  }

  lemma AllowedAt(s: Sched, scripts: seq<seq<Command>>, i: nat)
    ensures AllowedScripts(s, scripts) && i < |s.timers| ==> AllowedScript(s, i, Script(scripts, i))
  {
  }

  lemma StillAllowed(s: Sched, t: Sched, scripts: seq<seq<Command>>)
    requires AllowedScripts(s, scripts) && |t.timers| == |s.timers|
    requires forall k :: 0 <= k < |s.timers| ==> t.timers[k].managed == s.timers[k].managed
    ensures AllowedScripts(t, scripts)
  {
    forall j | 0 <= j < |t.timers| ensures AllowedScript(t, j, Script(scripts, j)) {
      assert AllowedScript(s, j, Script(scripts, j));
    }
  }

  lemma {:induction false} TickFromAgrees(w: Sched, u: Sched, i: nat, scripts: seq<seq<Command>>)
    requires i <= |w.timers| && Agree(w, u, i) && AllowedScripts(w, scripts)
    ensures var a, b := TickFrom(Wrapping, w, i, scripts), TickFrom(Unbounded, u, i, scripts);
            && Agree(a.sched, b.sched, |w.timers|)
            && Plain(w, a.fired) == Plain(u, b.fired)
            && ((forall k :: 0 <= k < |w.timers| ==> !w.timers[k].managed) ==> a.sleep == b.sleep)
    decreases |w.timers| - i
  {
    hide Next, Wait, Fires, TickFrom, Agree, AllowedScripts, AllowedScript, Plain;
    AgreeLengths(w, u, i);
    if i == |w.timers| {
      TickFromEnd(Wrapping, w, scripts);
      TickFromEnd(Unbounded, u, scripts);
      PlainNone(w);
      PlainNone(u);
    } else {
      var script := Script(scripts, i);
      AllowedAt(w, scripts, i);
      var w', u' := Next(Wrapping, w, i, script), Next(Unbounded, u, i, script);
      NextPlain(w, u, i, script);
      StillAllowed(w, w', scripts);
      TickFromAgrees(w', u', i + 1, scripts);
      var a, b := TickFrom(Wrapping, w', i + 1, scripts), TickFrom(Unbounded, u', i + 1, scripts);
      PlainSame(w, w', a.fired);
      PlainSame(u, u', b.fired);
      PlainCons(w, i, a.fired);
      PlainCons(u, i, b.fired);
      TickFromUnfold(Wrapping, w, i, scripts);
      TickFromUnfold(Unbounded, u, i, scripts);
    }
  }

  lemma PlainCons(s: Sched, i: nat, ks: seq<nat>)
    ensures Plain(s, [i] + ks) == (if i < |s.timers| && !s.timers[i].managed then [i] else []) + Plain(s, ks)
    ensures [] + ks == ks
  {
    assert ([i] + ks)[1..] == ks;
  }

  /** What happens to a scheduler over time: ticks of the loop, and setter calls in between. */
  datatype Event = TickBy(count: nat, scripts: seq<seq<Command>>) | Call(cmd: Command)

  function Step(c: Clock, s: Sched, e: Event): (r: TickResult)
    ensures |r.sched.timers| == |s.timers|
  {
    match e
    case TickBy(count, scripts) => Ticked(c, s, count, scripts)
    case Call(cmd) => TickResult(Apply(s, cmd), [], NO_ENABLED_SCHEDULE)
  }

  /** The plain timers that fire, event by event. */
  function PlainLog(c: Clock, s: Sched, es: seq<Event>): seq<seq<nat>>
    decreases |es|
  {
    if es == [] then []
    else var r := Step(c, s, es[0]); [Plain(s, r.fired)] + PlainLog(c, r.sched, es[1..])
  }

  /** Interval plus advance of an enabled plain timer stays within 32 bits, and resets are default. */
  ghost predicate Admissible(w: Sched, es: seq<Event>)
    decreases |es|
  {
    es == [] ||
    (&& AdmissibleEvent(w, es[0])
     && Admissible(Step(Wrapping, w, es[0]).sched, es[1..]))
  }

  ghost predicate AdmissibleEvent(w: Sched, e: Event) {
    match e
    case TickBy(count, scripts) =>
      && AllowedScripts(w, scripts)
      && forall k :: 0 <= k < |w.timers| && !w.timers[k].managed && IsEnabled(w.timers[k]) ==>
           w.timers[k].interval + count <= U32
    case Call(cmd) => ResetsPlain(w, cmd)
  }

  lemma StepAgrees(w: Sched, u: Sched, e: Event)
    requires Agree(w, u, |w.timers|) && AdmissibleEvent(w, e)
    ensures Agree(Step(Wrapping, w, e).sched, Step(Unbounded, u, e).sched, |w.timers|)
    ensures Plain(w, Step(Wrapping, w, e).fired) == Plain(u, Step(Unbounded, u, e).fired)
  {
    match e
    case TickBy(count, scripts) =>
      var w', u' := Advance(Wrapping, w, count), Advance(Unbounded, u, count);
      forall k | 0 <= k < |w.timers| ensures AgreeAt(w', u', k, 0) {
        assert AgreeAt(w, u, k, |w.timers|);
      }
      assert AllowedScripts(w', scripts) by {
        forall j | 0 <= j < |w.timers| ensures AllowedScript(w', j, Script(scripts, j)) {
          assert AllowedScript(w, j, Script(scripts, j));
        }
      }
      TickFromAgrees(w', u', 0, scripts);
      PlainSame(w, w', Step(Wrapping, w, e).fired);
      PlainSame(u, u', Step(Unbounded, u, e).fired);
    case Call(cmd) =>
      assert forall c :: c in [cmd] ==> ResetsPlain(w, c);
      ApplyAllAgrees(w, u, |w.timers|, [cmd]);
      assert ApplyAll(Apply(w, cmd), [cmd][1..]) == Apply(w, cmd);
      assert ApplyAll(Apply(u, cmd), [cmd][1..]) == Apply(u, cmd);
  }

  /** Across any number of wraps the 32-bit scheduler fires the timers of the unbounded one. */
  lemma {:induction false} WrapAroundInvisible(w: Sched, u: Sched, es: seq<Event>)
    requires Agree(w, u, |w.timers|) && Admissible(w, es)
    ensures PlainLog(Wrapping, w, es) == PlainLog(Unbounded, u, es)
    decreases |es|
  {
    if es != [] {
      StepAgrees(w, u, es[0]);
      WrapAroundInvisible(Step(Wrapping, w, es[0]).sched, Step(Unbounded, u, es[0]).sched, es[1..]);
    }
  }

  /** Freshly registered timers satisfy the hypothesis above. */
  lemma FreshTimersAgree(s: Sched)
    requires s.now == 0 && forall k :: 0 <= k < |s.timers| ==> s.timers[k].lastTick == 0
    ensures Agree(s, s, |s.timers|)
  {
    forall k | 0 <= k < |s.timers| ensures AgreeAt(s, s, k, |s.timers|) {
    }
  }

  lemma OneTimerTick(c: Clock, s: Sched, count: nat)
    requires |s.timers| == 1
    ensures var r, a := Step(c, s, TickBy(count, [])), Advance(c, s, count);
            r.fired == (if Fires(c, a, 0) then [0] else []) && r.sched == Next(c, a, 0, [])
  {
    hide TickFrom;
    TickFromUnfold(c, Advance(c, s, count), 0, []);
    TickFromEnd(c, Next(c, Advance(c, s, count), 0, []), []);
  }

  lemma PlainLogStep(c: Clock, s: Sched, e: Event, es: seq<Event>)
    ensures PlainLog(c, s, [e] + es)
         == [Plain(s, Step(c, s, e).fired)] + PlainLog(c, Step(c, s, e).sched, es)
    ensures PlainLog(c, s, []) == []
  {
    assert ([e] + es)[1..] == es;
  }

  /**
   The bound on interval plus advance is sharp: for every interval and every advance beyond it there is
   an age at which the 32-bit scheduler misses a timer that is due.
   */
  lemma LongTickMissed(interval: nat, count: nat)
    requires 0 < interval < U32 && count < U32 < interval + count
    ensures var s := Sched(0, [Timer(0, interval, true, false)]);
            var es := [TickBy(U32 - count, []), TickBy(count, [])];
            && PlainLog(Wrapping, s, es) == [[], []]
            && PlainLog(Unbounded, s, es) == [[], [0]]
  {
    hide TickFrom, PlainLog, Step;
    var age := U32 - count;
    var s, t := Sched(0, [Timer(0, interval, true, false)]), Sched(age, [Timer(0, interval, true, false)]);
    var e1, e2 := TickBy(age, []), TickBy(count, []);
    assert [e1] + [e2] == [e1, e2] && [e2] + [] == [e2];
    forall c ensures PlainLog(c, s, [e1, e2]) == [[], Plain(t, Step(c, t, e2).fired)] {
      OneTimerTick(c, s, age);
      OneTimerTick(c, t, count);
      PlainLogStep(c, s, e1, [e2]);
      PlainLogStep(c, t, e2, []);
      PlainLogStep(c, Step(c, t, e2).sched, e2, []);
    }
    OneTimerTick(Wrapping, t, count);
    OneTimerTick(Unbounded, t, count);
    assert [0][1..] == [] && Plain(t, []) == [] && Plain(t, [0]) == [0] + Plain(t, []) == [0];
  }

  // ---------------------------------------------------------------- all timers, exactly

  /** The 32-bit scheduler `w` is the unbounded one `u` with its times reduced. */
  ghost predicate WrapOf(w: Sched, u: Sched) {
    && |w.timers| == |u.timers| && w.now == u.now % U32
    && forall k :: 0 <= k < |w.timers| ==> w.timers[k] == u.timers[k].(lastTick := u.timers[k].lastTick % U32)
  }

  /** The 32-bit clock decides rightly about timer `k`, whose true age is `Age(u, k)`. */
  predicate ClockTells(u: Sched, k: nat)
    requires k < |u.timers|
  {
    IsEnabled(u.timers[k]) ==> Age(u, k) < U32 || Age(u, k) % U32 >= u.timers[k].interval
  }

  lemma WrappedAge(now: int, last: int)
    ensures (now % U32 - last % U32) % U32 == (now - last) % U32
  {
    var wraps := (now - last) / U32;
    WrapAge(now - wraps * U32, last);
    assert (now - wraps * U32) % U32 == now % U32;
  }

  /** For a timer of either kind, the two clocks decide alike exactly under that condition. */
  lemma FiresAlikeIff(w: Sched, u: Sched, k: nat)
    requires WrapOf(w, u) && Sane(u) && k < |w.timers|
    ensures Fires(Wrapping, w, k) == Fires(Unbounded, u, k) <==> ClockTells(u, k)
  {
    WrappedAge(u.now, u.timers[k].lastTick);
  }

  /** Intervals are 32-bit values. */
  predicate Narrow(cmds: seq<Command>) {
    forall cmd :: cmd in cmds && cmd.SetInterval? ==> cmd.interval < U32
  }

  predicate NarrowScripts(scripts: seq<seq<Command>>) {
    forall j :: 0 <= j < |scripts| ==> Narrow(scripts[j])
  }

  lemma {:induction false} ApplyAllSane(s: Sched, cmds: seq<Command>)
    requires Sane(s) && Narrow(cmds)
    ensures Sane(ApplyAll(s, cmds))
    decreases |cmds|
  {
    if cmds != [] {
      assert cmds[0] in cmds && forall cmd :: cmd in cmds[1..] ==> cmd in cmds;
      ApplyAllSane(Apply(s, cmds[0]), cmds[1..]);
    }
  }

  lemma {:induction false} ApplyAllWraps(w: Sched, u: Sched, cmds: seq<Command>)
    requires WrapOf(w, u) && Sane(u) && Narrow(cmds)
    ensures WrapOf(ApplyAll(w, cmds), ApplyAll(u, cmds)) && Sane(ApplyAll(u, cmds))
    decreases |cmds|
  {
    if cmds != [] {
      assert cmds[0] in cmds && forall cmd :: cmd in cmds[1..] ==> cmd in cmds;
      ApplyAllWraps(Apply(w, cmds[0]), Apply(u, cmds[0]), cmds[1..]);
    }
  }

  lemma NextAlike(w: Sched, u: Sched, i: nat, script: seq<Command>)
    requires WrapOf(w, u) && Sane(u) && i < |w.timers| == |u.timers| && Narrow(script)
    ensures |Next(Wrapping, w, i, script).timers| == |w.timers|
    ensures Sane(Next(Unbounded, u, i, script)) && |Next(Unbounded, u, i, script).timers| == |u.timers|
    ensures ClockTells(u, i) ==>
              && WrapOf(Next(Wrapping, w, i, script), Next(Unbounded, u, i, script))
              && Wait(Wrapping, w, i, script) == Wait(Unbounded, u, i, script)
  {
    FiresAlikeIff(w, u, i);
    WrappedAge(u.now, u.timers[i].lastTick);
    ApplyAllWraps(w, u, script);
    hide ApplyAll;
  }

  /** The clock tells the age of every timer at the moment at which a tick looks at it. */
  ghost predicate TellsFrom(u: Sched, i: nat, scripts: seq<seq<Command>>)
    requires i <= |u.timers|
    decreases |u.timers| - i
  {
    i == |u.timers|
    || (ClockTells(u, i) && var u' := Next(Unbounded, u, i, Script(scripts, i));
                            |u'.timers| == |u.timers| && TellsFrom(u', i + 1, scripts))
  }

  lemma TellsFromUnfold(u: Sched, i: nat, scripts: seq<seq<Command>>)
    requires i < |u.timers|
    ensures var u' := Next(Unbounded, u, i, Script(scripts, i));
            |u'.timers| == |u.timers|
            && (TellsFrom(u, i, scripts) <==> ClockTells(u, i) && TellsFrom(u', i + 1, scripts))
  {
  }

  lemma TellsFromEnd(u: Sched, scripts: seq<seq<Command>>)
    ensures TellsFrom(u, |u.timers|, scripts)
  {
  }

  lemma {:induction false} FiredBeyond(c: Clock, s: Sched, i: nat, scripts: seq<seq<Command>>)
    requires i <= |s.timers|
    ensures forall k :: k in TickFrom(c, s, i, scripts).fired ==> i <= k < |s.timers|
    decreases |s.timers| - i
  {
    if i < |s.timers| {
      hide TickFrom, Fires;
      TickFromUnfold(c, s, i, scripts);
      var s' := Next(c, s, i, Script(scripts, i));
      assert |s'.timers| == |s.timers|;
      FiredBeyond(c, s', i + 1, scripts);
    } else {
      TickFromEnd(c, s, scripts);
    }
  }

  lemma FirstDiffers(i: nat, a: seq<nat>, b: seq<nat>)
    requires forall k :: k in b ==> i < k
    ensures [i] + a != [] + b
  {
    if b != [] {
      assert b[0] in b && ([i] + a)[0] == i;
    }
  }

  lemma SamePrefix(prefix: seq<nat>, a: seq<nat>, b: seq<nat>)
    ensures prefix + a == prefix + b <==> a == b
  {
    assert (prefix + a)[|prefix|..] == a && (prefix + b)[|prefix|..] == b;
  }

  /** Whatever callbacks do, a tick fires the same timers on both clocks exactly under that condition. */
  lemma {:induction false} TickFromAlikeIff(w: Sched, u: Sched, i: nat, scripts: seq<seq<Command>>)
    requires i <= |w.timers| && WrapOf(w, u) && Sane(u) && NarrowScripts(scripts)
    ensures var a, b := TickFrom(Wrapping, w, i, scripts), TickFrom(Unbounded, u, i, scripts);
            && (a.fired == b.fired <==> TellsFrom(u, i, scripts))
            && (TellsFrom(u, i, scripts) ==> a.sleep == b.sleep && WrapOf(a.sched, b.sched) && Sane(b.sched))
    decreases |w.timers| - i
  {
    hide Next, Wait, Fires, TickFrom, ClockTells, ApplyAll, WrapOf, TellsFrom, Sane;
    SameLength(w, u);
    if i == |w.timers| {
      TickFromEnd(Wrapping, w, scripts);
      TickFromEnd(Unbounded, u, scripts);
      TellsFromEnd(u, scripts);
    } else {
      var script := Script(scripts, i);
      var w', u' := Next(Wrapping, w, i, script), Next(Unbounded, u, i, script);
      NextAlike(w, u, i, script);
      TickFromUnfold(Wrapping, w, i, scripts);
      TickFromUnfold(Unbounded, u, i, scripts);
      TellsFromUnfold(u, i, scripts);
      FiresAlikeIff(w, u, i);
      if ClockTells(u, i) {
        TickFromAlikeIff(w', u', i + 1, scripts);
        SamePrefix(if Fires(Unbounded, u, i) then [i] else [], TickFrom(Wrapping, w', i + 1, scripts).fired,
                   TickFrom(Unbounded, u', i + 1, scripts).fired);
      } else {
        FiredBeyond(Wrapping, w', i + 1, scripts);
        FiredBeyond(Unbounded, u', i + 1, scripts);
        FirstDiffers(i, TickFrom(Wrapping, w', i + 1, scripts).fired, TickFrom(Unbounded, u', i + 1, scripts).fired);
        FirstDiffers(i, TickFrom(Unbounded, u', i + 1, scripts).fired, TickFrom(Wrapping, w', i + 1, scripts).fired);
      }
    }
  }

  lemma SameLength(w: Sched, u: Sched)
    ensures WrapOf(w, u) ==> |w.timers| == |u.timers|
  {
  }

  /** All timers that fire, event by event. */
  function Log(c: Clock, s: Sched, es: seq<Event>): seq<seq<nat>>
    decreases |es|
  {
    if es == [] then [] else var r := Step(c, s, es[0]); [r.fired] + Log(c, r.sched, es[1..])
  }

  predicate NarrowEvent(e: Event) {
    match e
    case TickBy(_, scripts) => NarrowScripts(scripts)
    case Call(cmd) => Narrow([cmd])
  }

  ghost predicate Tells(u: Sched, e: Event) {
    e.TickBy? ==> TellsFrom(Advance(Unbounded, u, e.count), 0, e.scripts)
  }

  ghost predicate AlwaysTells(u: Sched, es: seq<Event>)
    decreases |es|
  {
    es == [] || (Tells(u, es[0]) && AlwaysTells(Step(Unbounded, u, es[0]).sched, es[1..]))
  }

  lemma StepAlikeIff(w: Sched, u: Sched, e: Event)
    requires WrapOf(w, u) && Sane(u) && NarrowEvent(e)
    ensures Step(Wrapping, w, e).fired == Step(Unbounded, u, e).fired <==> Tells(u, e)
    ensures Tells(u, e) ==>
              WrapOf(Step(Wrapping, w, e).sched, Step(Unbounded, u, e).sched) && Sane(Step(Unbounded, u, e).sched)
  {
    match e
    case TickBy(count, scripts) =>
      TickFromAlikeIff(Advance(Wrapping, w, count), Advance(Unbounded, u, count), 0, scripts);
    case Call(cmd) =>
      ApplyAllWraps(w, u, [cmd]);
      assert ApplyAll(Apply(w, cmd), [cmd][1..]) == Apply(w, cmd);
      assert ApplyAll(Apply(u, cmd), [cmd][1..]) == Apply(u, cmd);
  }

  /**
   Over any run, with callbacks and setter calls of every kind, the 32-bit scheduler fires exactly what
   the unbounded one fires if and only if its clock can always tell the age of the timer it looks at.
   */
  lemma {:induction false} SameLogIff(w: Sched, u: Sched, es: seq<Event>)
    requires WrapOf(w, u) && Sane(u) && forall e :: e in es ==> NarrowEvent(e)
    ensures Log(Wrapping, w, es) == Log(Unbounded, u, es) <==> AlwaysTells(u, es)
    decreases |es|
  {
    if es != [] {
      hide Step, WrapOf, Tells, Sane, NarrowEvent;
      assert es[0] in es && forall e :: e in es[1..] ==> e in es;
      StepAlikeIff(w, u, es[0]);
      var a, b := Step(Wrapping, w, es[0]), Step(Unbounded, u, es[0]);
      var as', bs := Log(Wrapping, a.sched, es[1..]), Log(Unbounded, b.sched, es[1..]);
      assert ([a.fired] + as')[0] == a.fired && ([b.fired] + bs)[0] == b.fired;
      assert ([a.fired] + as')[1..] == as' && ([b.fired] + bs)[1..] == bs;
      if Tells(u, es[0]) {
        SameLogIff(a.sched, b.sched, es[1..]);
      }
    }
  }

  /** Timer `k` is reconfigured by some callback. */
  predicate Mentioned(scripts: seq<seq<Command>>, k: nat) {
    exists j, cmd :: 0 <= j < |scripts| && cmd in scripts[j] && cmd.k == k
  }

  lemma {:induction false} ApplyAllTouches(s: Sched, cmds: seq<Command>, k: nat)
    requires k < |s.timers|
    ensures ApplyAll(s, cmds).timers[k].lastTick in {s.timers[k].lastTick, s.now}
    ensures (forall cmd :: cmd in cmds ==> cmd.k != k) ==> ApplyAll(s, cmds).timers[k] == s.timers[k]
    decreases |cmds|
  {
    if cmds != [] {
      assert cmds[0] in cmds && forall cmd :: cmd in cmds[1..] ==> cmd in cmds;
      ApplyAllTouches(Apply(s, cmds[0]), cmds[1..], k);
    }
  }

  lemma {:induction false} YoungTimersTell(u: Sched, i: nat, scripts: seq<seq<Command>>)
    requires i <= |u.timers|
    requires forall k :: i <= k < |u.timers| && (IsEnabled(u.timers[k]) || Mentioned(scripts, k)) ==>
               Age(u, k) < U32
    ensures TellsFrom(u, i, scripts)
    decreases |u.timers| - i
  {
    if i < |u.timers| {
      hide Apply, ApplyAll, TellsFrom;
      var script := Script(scripts, i);
      var u' := Next(Unbounded, u, i, script);
      assert |u'.timers| == |u.timers| && u'.now == u.now;
      forall k | i < k < |u.timers| && (IsEnabled(u'.timers[k]) || Mentioned(scripts, k))
        ensures Age(u', k) < U32
      {
        ApplyAllTouches(u, script, k);
        if !Mentioned(scripts, k) {
          assert forall cmd :: cmd in script ==> cmd.k != k;
        }
      }
      YoungTimersTell(u', i + 1, scripts);
      assert ClockTells(u, i);
      TellsFromUnfold(u, i, scripts);
    } else {
      TellsFromEnd(u, scripts);
    }
  }

  /** No timer that is enabled, or that a callback of the tick reconfigures, gets as old as 2^32. */
  ghost predicate Young(u: Sched, e: Event) {
    e.TickBy? ==> forall k :: 0 <= k < |u.timers| && (IsEnabled(u.timers[k]) || Mentioned(e.scripts, k)) ==>
                    Age(u, k) + e.count < U32
  }

  ghost predicate AlwaysYoung(u: Sched, es: seq<Event>)
    decreases |es|
  {
    es == [] || (Young(u, es[0]) && AlwaysYoung(Step(Unbounded, u, es[0]).sched, es[1..]))
  }

  lemma {:induction false} YoungTells(u: Sched, es: seq<Event>)
    requires AlwaysYoung(u, es)
    ensures AlwaysTells(u, es)
    decreases |es|
  {
    if es != [] {
      if es[0].TickBy? {
        YoungTimersTell(Advance(Unbounded, u, es[0].count), 0, es[0].scripts);
      }
      YoungTells(Step(Unbounded, u, es[0]).sched, es[1..]);
    }
  }

  /** What a caller can check before each tick is enough for timers of both kinds and any callbacks. */
  lemma YoungTimersNeverWrap(w: Sched, u: Sched, es: seq<Event>)
    requires WrapOf(w, u) && Sane(u) && (forall e :: e in es ==> NarrowEvent(e)) && AlwaysYoung(u, es)
    ensures Log(Wrapping, w, es) == Log(Unbounded, u, es)
  {
    YoungTells(u, es);
    SameLogIff(w, u, es);
  }

  // A pause of exactly one wrap, and the owner of a managed timer switching it on.
  const PAUSE: seq<Event> := [TickBy(U32 - 1, []), TickBy(1, []), Call(FlipFlag(0, true))]

  lemma PausedManagedTimer(c: Clock, interval: nat)
    ensures RunAll(c, Sched(0, [Timer(0, interval, false, true)]), PAUSE)
         == Sched(if c.Wrapping? then 0 else U32, [Timer(0, interval, true, true)])
  {
    var s := Sched(0, [Timer(0, interval, false, true)]);
    var s1, s2 := Advance(c, s, U32 - 1), Advance(c, Advance(c, s, U32 - 1), 1);
    var s3 := Sched(s2.now, [Timer(0, interval, true, true)]);
    assert PAUSE[1..][1..] == [PAUSE[2]] && PAUSE[1..][0] == PAUSE[1];
    OneTimerTick(c, s, U32 - 1);
    OneTimerTick(c, s1, 1);
    assert Step(c, s2, PAUSE[2]).sched == s3;
    assert RunAll(c, s, PAUSE) == RunAll(c, s1, PAUSE[1..]) == RunAll(c, s2, [PAUSE[2]]);
    assert RunAll(c, s2, [PAUSE[2]]) == RunAll(c, s3, []);
  }

  /**
   A managed timer is not reset when its flag flips: whatever its interval, after a pause it misses a
   firing in every tick that is shorter than the interval.
   */
  lemma StaleManagedTimer(interval: nat, count: nat)
    requires count < interval < U32
    ensures var s := Sched(0, [Timer(0, interval, false, true)]);
            && Ticked(Wrapping, RunAll(Wrapping, s, PAUSE), count, []).fired == []
            && Ticked(Unbounded, RunAll(Unbounded, s, PAUSE), count, []).fired == [0]
  {
    hide RunAll, TickFrom;
    PausedManagedTimer(Wrapping, interval);
    PausedManagedTimer(Unbounded, interval);
    OneTimerTick(Wrapping, Sched(0, [Timer(0, interval, true, true)]), count);
    OneTimerTick(Unbounded, Sched(U32, [Timer(0, interval, true, true)]), count);
  }

  function RunAll(c: Clock, s: Sched, es: seq<Event>): Sched
    decreases |es|
  {
    if es == [] then s else RunAll(c, Step(c, s, es[0]).sched, es[1..])
  }

  // ---------------------------------------------------------------- exact timing

  /** No enabled timer is overdue: the state between two ticks. */
  ghost predicate Settled(s: Sched) {
    forall k :: 0 <= k < |s.timers| && IsEnabled(s.timers[k]) ==> 0 <= Age(s, k) < s.timers[k].interval
  }

  function DueIn(s: Sched, k: nat): int
    requires k < |s.timers|
  {
    s.timers[k].interval - Age(s, k)
  }

  predicate Due(s: Sched, k: nat)
    requires k < |s.timers|
  {
    IsEnabled(s.timers[k]) && Age(s, k) >= s.timers[k].interval
  }

  /** With callbacks that leave the scheduler alone, a tick fires exactly the due timers. */
  lemma {:induction false} PassiveTickFrom(s: Sched, i: nat)
    requires i <= |s.timers|
    ensures var r := TickFrom(Unbounded, s, i, []);
            && (forall k :: 0 <= k < |s.timers| ==>
                  r.sched.timers[k] == if k >= i && Due(s, k) then s.timers[k].(lastTick := s.now) else s.timers[k])
            && (forall k :: k in r.fired <==> i <= k < |s.timers| && Due(s, k))
            && (forall k :: i <= k < |s.timers| && IsEnabled(s.timers[k]) ==> r.sleep <= DueIn(r.sched, k))
            && (r.sleep < NO_ENABLED_SCHEDULE ==>
                  exists k :: i <= k < |s.timers| && IsEnabled(s.timers[k]) && r.sleep == DueIn(r.sched, k))
    decreases |s.timers| - i
  {
    if i < |s.timers| {
      var s' := Next(Unbounded, s, i, []);
      PassiveTickFrom(s', i + 1);
      var r, r' := TickFrom(Unbounded, s, i, []), TickFrom(Unbounded, s', i + 1, []);
      assert forall k :: i < k < |s.timers| ==> Due(s, k) == Due(s', k);
      if r.sleep < NO_ENABLED_SCHEDULE {
        if r.sleep != r'.sleep || !(r'.sleep < NO_ENABLED_SCHEDULE) {
          assert IsEnabled(s.timers[i]) && r.sleep == DueIn(r.sched, i);
        }
      }
    }
  }

  /** The code's clock never runs ahead of a timer, and intervals are 32-bit values. */
  ghost predicate Sane(s: Sched) {
    forall k :: 0 <= k < |s.timers| ==> s.timers[k].lastTick <= s.now && s.timers[k].interval < U32
  }

  /** The times at which timer `k` fires while the loop ticks by `counts`. */
  function FireTimes(s: Sched, counts: seq<nat>, k: nat): seq<int>
    decreases |counts|
  {
    if counts == [] then []
    else
      var r := Ticked(Unbounded, s, counts[0], []);
      (if k in r.fired then [r.sched.now] else []) + FireTimes(r.sched, counts[1..], k)
  }

  predicate Gaps(ts: seq<int>, lo: int, hi: int) {
    forall j :: 0 <= j < |ts| - 1 ==> lo <= ts[j + 1] - ts[j] <= hi
  }

  /** No tick overshoots the time the previous tick asked to sleep by more than `late`. */
  ghost predicate Punctual(s: Sched, sleep: int, counts: seq<nat>, late: nat)
    decreases |counts|
  {
    counts == [] ||
    var r := Ticked(Unbounded, s, counts[0], []);
    counts[0] <= sleep + late && Punctual(r.sched, r.sleep, counts[1..], late)
  }

  lemma TickOf(s: Sched, count: nat, k: nat)
    requires Sane(s) && Settled(s) && k < |s.timers| && IsEnabled(s.timers[k])
    ensures var r := Ticked(Unbounded, s, count, []);
            && Sane(r.sched) && Settled(r.sched) && |r.sched.timers| == |s.timers|
            && r.sched.now == s.now + count && r.sleep <= DueIn(r.sched, k)
            && (k in r.fired <==> Age(s, k) + count >= s.timers[k].interval)
            && r.sched.timers[k]
               == if k in r.fired then s.timers[k].(lastTick := r.sched.now) else s.timers[k]
  {
    PassiveTickFrom(Advance(Unbounded, s, count), 0);
  }

  /** A punctual loop fires every timer once per interval, late by no more than the loop is. */
  lemma {:induction false} PunctualFirings(s: Sched, sleep: int, counts: seq<nat>, k: nat, late: nat)
    requires Sane(s) && Settled(s) && k < |s.timers| && IsEnabled(s.timers[k])
    requires sleep <= DueIn(s, k) && Punctual(s, sleep, counts, late)
    ensures Gaps([s.timers[k].lastTick] + FireTimes(s, counts, k), s.timers[k].interval, s.timers[k].interval + late)
    decreases |counts|
  {
    if counts != [] {
      var r := Ticked(Unbounded, s, counts[0], []);
      TickOf(s, counts[0], k);
      PunctualFirings(r.sched, r.sleep, counts[1..], k, late);
      if k in r.fired {
        var rest := [r.sched.now] + FireTimes(r.sched, counts[1..], k);
        GapsCons(s.timers[k].lastTick, rest, s.timers[k].interval, s.timers[k].interval + late);
      } else {
        assert FireTimes(s, counts, k) == FireTimes(r.sched, counts[1..], k);
      }
    }
  }

  lemma GapsCons(t: int, ts: seq<int>, lo: int, hi: int)
    requires ts != [] && lo <= ts[0] - t <= hi && Gaps(ts, lo, hi)
    ensures Gaps([t] + ts, lo, hi)
  {
    var us := [t] + ts;
    forall j | 0 <= j < |us| - 1 ensures lo <= us[j + 1] - us[j] <= hi {
      if j > 0 {
        assert us[j] == ts[j - 1] && us[j + 1] == ts[j - 1 + 1];
      }
    }
  }

  /** A loop that overshoots nothing fires every timer exactly once per interval. */
  lemma ExactFirings(s: Sched, sleep: int, counts: seq<nat>, k: nat)
    requires Sane(s) && Settled(s) && k < |s.timers| && IsEnabled(s.timers[k])
    requires sleep <= DueIn(s, k) && Punctual(s, sleep, counts, 0)
    ensures var ts := [s.timers[k].lastTick] + FireTimes(s, counts, k);
            forall j :: 0 <= j < |ts| ==> ts[j] == ts[0] + j * s.timers[k].interval
  {
    PunctualFirings(s, sleep, counts, k, 0);
    var ts := [s.timers[k].lastTick] + FireTimes(s, counts, k);
    ArithmeticSequence(ts, s.timers[k].interval);
  }

  lemma {:induction false} ArithmeticSequence(ts: seq<int>, d: int)
    requires ts != [] && Gaps(ts, d, d)
    ensures forall j :: 0 <= j < |ts| ==> ts[j] == ts[0] + j * d
    decreases |ts|
  {
    if |ts| > 1 {
      var us := ts[..|ts| - 1];
      assert Gaps(us, d, d);
      ArithmeticSequence(us, d);
      var n := |ts| - 2;
      assert us[n] == us[0] + n * d && (n + 1) * d == n * d + d;
      assert ts[n + 1] - ts[n] == d;
    }
  }

  /** With arbitrary ticks of at most `largest`, firings are late by less than one tick. */
  lemma {:induction false} CoarseFirings(s: Sched, counts: seq<nat>, k: nat, largest: nat)
    requires Sane(s) && Settled(s) && k < |s.timers| && IsEnabled(s.timers[k])
    requires forall c :: c in counts ==> c <= largest
    ensures Gaps([s.timers[k].lastTick] + FireTimes(s, counts, k),
                 s.timers[k].interval, s.timers[k].interval + largest - 1)
    decreases |counts|
  {
    if counts != [] {
      var r := Ticked(Unbounded, s, counts[0], []);
      TickOf(s, counts[0], k);
      forall c | c in counts[1..] ensures c <= largest {
        assert c in counts;
      }
      CoarseFirings(r.sched, counts[1..], k, largest);
      assert counts[0] in counts;
      if k in r.fired {
        var rest := [r.sched.now] + FireTimes(r.sched, counts[1..], k);
        GapsCons(s.timers[k].lastTick, rest, s.timers[k].interval, s.timers[k].interval + largest - 1);
      } else {
        assert FireTimes(s, counts, k) == FireTimes(r.sched, counts[1..], k);
      }
    }
  }
}
