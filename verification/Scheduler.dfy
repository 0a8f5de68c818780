/**
 The timer scheduler: its 32-bit clock against an unbounded one, and the timing it promises.
 A callback is represented by what it does to the scheduler: the list of setter calls it makes.
 */
module Timers {
  import opened Wire

  const NO_ENABLED_SCHEDULE: int := 0xFFFF_FFFF

  /** `managed` timers borrow their flag from their owner; the others own it. */
  datatype Timer = Timer(lastTick: int, interval: nat, enabled: bool, managed: bool)
  datatype Sched = Sched(now: int, timers: seq<Timer>)

  /** The clock arithmetic: the code's uint32_t, or the integers it stands for. */
  datatype Clock = Wrapping | Unbounded

  function Norm(c: Clock, x: int): int {
    if c.Wrapping? then x % U32 else x
  }

  predicate IsEnabled(t: Timer) {
    t.enabled && t.interval != 0
  }

  datatype Command =
    | SetInterval(k: nat, interval: nat, reset: bool)
    | SetEnabled(k: nat, enabled: bool, reset: bool)
    | FlipFlag(k: nat, enabled: bool)

  /** A setter that changes nothing also resets nothing. */
  function Changed(now: int, t: Timer, cmd: Command): Timer {
    match cmd
    case SetInterval(_, interval, reset) =>
      if t.interval == interval then t
      else t.(interval := interval, lastTick := if reset then now else t.lastTick)
    case SetEnabled(_, enabled, reset) =>
      if t.managed || t.enabled == enabled then t
      else t.(enabled := enabled, lastTick := if reset then now else t.lastTick)
    case FlipFlag(_, enabled) =>
      if t.managed then t.(enabled := enabled) else t
  }

  /** One setter call. */
  function Apply(s: Sched, cmd: Command): (r: Sched)
    ensures r.now == s.now && |r.timers| == |s.timers|
  {
    if cmd.k >= |s.timers| then s
    else s.(timers := s.timers[cmd.k := Changed(s.now, s.timers[cmd.k], cmd)])
  }

  lemma ApplyAt(s: Sched, cmd: Command)
    ensures Apply(s, cmd) == if cmd.k >= |s.timers| then s
                             else s.(timers := s.timers[cmd.k := Changed(s.now, s.timers[cmd.k], cmd)])
  {
  }

  function ApplyAll(s: Sched, cmds: seq<Command>): (r: Sched)
    ensures r.now == s.now && |r.timers| == |s.timers|
    decreases |cmds|
  {
    if cmds == [] then s else ApplyAll(Apply(s, cmds[0]), cmds[1..])
  }

  function Script(scripts: seq<seq<Command>>, i: nat): seq<Command> {
    if i < |scripts| then scripts[i] else []
  }

  function Touch(s: Sched, i: nat): Sched
    requires i < |s.timers|
  {
    s.(timers := s.timers[i := s.timers[i].(lastTick := s.now)])
  }

  datatype TickResult = TickResult(sched: Sched, fired: seq<nat>, sleep: int)

  /** The timers from position `i` on are visited in registration order. */
  function TickFrom(c: Clock, s: Sched, i: nat, scripts: seq<seq<Command>>): (r: TickResult)
    requires i <= |s.timers|
    ensures r.sched.now == s.now && |r.sched.timers| == |s.timers|
    ensures r.sleep <= NO_ENABLED_SCHEDULE
    decreases |s.timers| - i
  {
    if i == |s.timers| then TickResult(s, [], NO_ENABLED_SCHEDULE)
    else
      var t := s.timers[i];
      if !IsEnabled(t) then TickFrom(c, s, i + 1, scripts)
      else
        var since := Norm(c, s.now - t.lastTick);
        if since >= t.interval then
          var s' := Touch(ApplyAll(s, Script(scripts, i)), i);
          var r := TickFrom(c, s', i + 1, scripts);
          TickResult(r.sched, [i] + r.fired, Min(s'.timers[i].interval, r.sleep))
        else
          var r := TickFrom(c, s, i + 1, scripts);
          r.(sleep := Min(t.interval - since, r.sleep))
  }

  function Advance(c: Clock, s: Sched, count: nat): Sched {
    s.(now := Norm(c, s.now + count))
  }

  /** `scripts[i]` is what the callback of timer `i` does if it fires during this tick. */
  function Ticked(c: Clock, s: Sched, count: nat, scripts: seq<seq<Command>>): TickResult {
    TickFrom(c, Advance(c, s, count), 0, scripts)
  }

  predicate Fires(c: Clock, s: Sched, i: nat)
    requires i < |s.timers|
  {
    IsEnabled(s.timers[i]) && Norm(c, s.now - s.timers[i].lastTick) >= s.timers[i].interval
  }

  /** The state in which `TickFrom` continues after timer `i`. */
  function Next(c: Clock, s: Sched, i: nat, script: seq<Command>): Sched
    requires i < |s.timers|
  {
    if Fires(c, s, i) then Touch(ApplyAll(s, script), i) else s
  }

  /** The sleep time that timer `i` contributes. */
  function Wait(c: Clock, s: Sched, i: nat, script: seq<Command>): int
    requires i < |s.timers|
  {
    if Fires(c, s, i) then ApplyAll(s, script).timers[i].interval
    else if IsEnabled(s.timers[i]) then s.timers[i].interval - Norm(c, s.now - s.timers[i].lastTick)
    else NO_ENABLED_SCHEDULE
  }

  lemma TickFromUnfold(c: Clock, s: Sched, i: nat, scripts: seq<seq<Command>>)
    requires i < |s.timers|
    ensures var r, r' := TickFrom(c, s, i, scripts), TickFrom(c, Next(c, s, i, Script(scripts, i)), i + 1, scripts);
            && r.sched == r'.sched
            && r.fired == (if Fires(c, s, i) then [i] else []) + r'.fired
            && r.sleep == Min(Wait(c, s, i, Script(scripts, i)), r'.sleep)
  {
  }

  lemma TickFromEnd(c: Clock, s: Sched, scripts: seq<seq<Command>>)
    ensures TickFrom(c, s, |s.timers|, scripts) == TickResult(s, [], NO_ENABLED_SCHEDULE)
  {
  }

  /** `rest` completes what has been computed so far to `whole`. */
  predicate Remaining(whole: TickResult, rest: TickResult, fired: seq<nat>, sleep: int) {
    whole.sched == rest.sched && whole.fired == fired + rest.fired && whole.sleep == Min(sleep, rest.sleep)
  }

  lemma RemainingNext(whole: TickResult, s: Sched, i: nat, scripts: seq<seq<Command>>, fired: seq<nat>, sleep: int)
    requires i < |s.timers| && Remaining(whole, TickFrom(Wrapping, s, i, scripts), fired, sleep)
    ensures var script := Script(scripts, i);
            Remaining(whole, TickFrom(Wrapping, Next(Wrapping, s, i, script), i + 1, scripts),
                      fired + (if Fires(Wrapping, s, i) then [i] else []), Min(sleep, Wait(Wrapping, s, i, script)))
  {
    hide TickFrom, Next, Fires, Wait;
    TickFromUnfold(Wrapping, s, i, scripts);
    var rest := TickFrom(Wrapping, Next(Wrapping, s, i, Script(scripts, i)), i + 1, scripts);
    Assoc(fired, if Fires(Wrapping, s, i) then [i] else [], rest.fired);
  }

  // ---------------------------------------------------------------- the code, on objects

  /** A timer. It registers itself with its scheduler, which links the timers into a list. */
  class Schedule {
    const scheduler: Scheduler
    const managed: bool
    var next: Schedule?
    var lastTick: nat
    var interval: nat
    var enabled: bool

    constructor (scheduler: Scheduler, managed: bool, enabled: bool, interval: nat)
      requires scheduler.Valid()
      modifies scheduler, scheduler.schedules
      ensures this.scheduler == scheduler && scheduler.Valid() && fresh(this)
      ensures scheduler.schedules == old(scheduler.schedules) + [this] && scheduler.now == old(scheduler.now)
      ensures scheduler.View() == Sched(old(scheduler.now), old(scheduler.View()).timers
                                        + [Timer(old(scheduler.now), interval, enabled, managed)])
    {
      this.scheduler, this.managed, this.enabled, this.interval := scheduler, managed, enabled, interval;
      next, lastTick := null, 0;
      new;
      scheduler.AddSchedule(this);
    }

    function View(): Timer
      reads this
    {
      Timer(lastTick, interval, enabled, managed)
    }

    method SetInterval(interval: nat, reset: bool)
      modifies this`interval, this`lastTick
      ensures View() == if old(this.interval) == interval then old(View())
                        else old(View()).(interval := interval,
                                          lastTick := if reset then scheduler.now else old(lastTick))
    {
      if this.interval == interval {
        return;
      }
      this.interval := interval;
      if reset {
        lastTick := scheduler.now;
      }
    }

    method SetEnabled(enabled: bool, reset: bool)
      requires !managed
      modifies this`enabled, this`lastTick
      ensures View() == if old(this.enabled) == enabled then old(View())
                        else old(View()).(enabled := enabled,
                                          lastTick := if reset then scheduler.now else old(lastTick))
    {
      if this.enabled == enabled {
        return;
      }
      this.enabled := enabled;
      if reset {
        lastTick := scheduler.now;
      }
    }
  }

  class Scheduler {
    var now: nat
    var head: Schedule?
    /** The timers along the list. */
    ghost var schedules: seq<Schedule>

    /** The timer at position `i` of the list, if it is that long. */
    ghost function At(i: nat): (t: Schedule?)
      reads this
    {
      if i < |schedules| then schedules[i] else null
    }

    ghost predicate Valid()
      reads this, schedules
    {
      && now < U32 && head == At(0)
      && (forall i :: 0 <= i < |schedules| ==> schedules[i].next == At(i + 1) && schedules[i].scheduler == this)
      && forall i, j :: 0 <= i < j < |schedules| ==> schedules[i] != schedules[j]
    }

    ghost function View(): Sched
      reads this, schedules
    {
      Sched(now, seq(|schedules|, i requires 0 <= i < |schedules| reads this, schedules => schedules[i].View()))
    }

    constructor ()
      ensures Valid() && schedules == [] && now == 0 && View() == Sched(0, [])
    {
      now, head, schedules := 0, null, [];
    }

    /** Links a timer in at the end of the list, counting from now. */
    method AddSchedule(schedule: Schedule)
      requires Valid() && schedule !in schedules && schedule.next == null && schedule.scheduler == this
      modifies this, schedules, schedule
      ensures Valid() && schedules == old(schedules) + [schedule] && now == old(now)
      ensures View() == Sched(old(now), old(View()).timers + [old(schedule.View()).(lastTick := old(now))])
    {
      if head == null {
        head := schedule;
      } else {
        var current := head;
        ghost var i := 0;
        while current.next != null
          invariant i < |schedules| && current == schedules[i]
          decreases |schedules| - i
        {
          current := current.next;
          i := i + 1;
        }
        current.next := schedule;
      }
      schedules := schedules + [schedule];
      schedule.lastTick := now;
    }

    /** Walks to position `k`. */
    method Find(k: nat) returns (t: Schedule?)
      requires Valid()
      ensures t == At(k)
    {
      t := head;
      var i := 0;
      while t != null && i < k
        invariant i <= k && t == At(i)
        decreases k - i
      {
        t := t.next;
        i := i + 1;
      }
      if t == null && i < k {
        assert At(i) == null && At(k) == null;
      }
    }

    /** How the list is walked. */
    lemma Walk(i: nat)
      requires Valid()
      ensures head == At(0)
      ensures At(i) != null <==> i < |schedules|
      ensures i < |schedules| ==> At(i) == schedules[i] && schedules[i].next == At(i + 1)
    {
    }

    /** One setter call on the timer at position `k`, or the owner of a managed flag changing it. */
    method Set(cmd: Command)
      requires Valid()
      modifies schedules
      ensures Valid() && View() == Apply(old(View()), cmd)
    {
      hide Apply, Changed, At;
      ghost var before := View();
      var t := Find(cmd.k);
      Walk(cmd.k);
      ApplyAt(before, cmd);
      if t != null {
        Adjust(t, cmd);
        Unmoved(before, cmd.k);
      }
    }

    /** The timer at position `k` alone has changed. */
    lemma Unmoved(before: Sched, k: nat)
      requires Valid() && k < |schedules| == |before.timers| && now == before.now
      requires forall i :: 0 <= i < |schedules| && i != k ==> schedules[i].View() == before.timers[i]
      ensures View() == before.(timers := before.timers[k := schedules[k].View()])
    {
      assert View().timers == before.timers[k := schedules[k].View()];
    }

    /** The setter itself, or the owner of a managed flag changing it. */
    static method Adjust(t: Schedule, cmd: Command)
      modifies t`lastTick, t`interval, t`enabled
      ensures t.View() == Changed(t.scheduler.now, old(t.View()), cmd)
    {
      match cmd
      case SetInterval(_, interval, reset) => t.SetInterval(interval, reset);
      case SetEnabled(_, enabled, reset) =>
        if !t.managed {
          t.SetEnabled(enabled, reset);
        }
      case FlipFlag(_, enabled) =>
        if t.managed {
          t.enabled := enabled;
        }
    }

    /** What a callback does between two statements of `Tick`. */
    method Execute(cmds: seq<Command>)
      requires Valid()
      modifies schedules
      ensures Valid() && View() == ApplyAll(old(View()), cmds)
    {
      var rest := cmds;
      while rest != []
        invariant Valid() && ApplyAll(View(), rest) == ApplyAll(old(View()), cmds)
        decreases |rest|
      {
        Set(rest[0]);
        rest := rest[1..];
      }
    }

    method Progress(count: nat)
      requires Valid()
      modifies this`now
      ensures Valid() && View() == Advance(Wrapping, old(View()), count)
    {
      now := (now + count) % U32;
      assert View() == Advance(Wrapping, old(View()), count);
    }

    /** Advances the clock, runs what is due, and returns the time to the next due timer and what ran. */
    method Tick(count: nat, scripts: seq<seq<Command>>) returns (minSleep: int, fired: seq<nat>)
      requires Valid()
      modifies this`now, schedules
      ensures Valid()
      ensures TickResult(View(), fired, minSleep) == Ticked(Wrapping, old(View()), count, scripts)
    {
      hide TickFrom, Next, Fires, Wait, Valid, At;
      Progress(count);
      ghost var whole := TickFrom(Wrapping, View(), 0, scripts);
      assert [] + whole.fired == whole.fired;
      minSleep, fired := NO_ENABLED_SCHEDULE, [];
      var schedule, i := head, 0;
      Walk(0);
      while schedule != null
        invariant minSleep <= NO_ENABLED_SCHEDULE && Valid()
        invariant i <= |schedules| && schedule == At(i)
        invariant Remaining(whole, TickFrom(Wrapping, View(), i, scripts), fired, minSleep)
        decreases |schedules| - i
      {
        Walk(i);
        RemainingNext(whole, View(), i, scripts, fired, minSleep);
        minSleep, fired := Visit(schedule, i, scripts, minSleep, fired);
        Walk(i);
        schedule := schedule.next;
        i := i + 1;
      }
      Walk(i);
      TickFromEnd(Wrapping, View(), scripts);
      assert fired + [] == fired;
    }

    method Restart(schedule: Schedule, ghost i: nat)
      requires Valid() && i < |schedules| && schedule == schedules[i]
      modifies schedule
      ensures Valid() && View() == Touch(old(View()), i)
    {
      schedule.lastTick := now;
      assert View() == Touch(old(View()), i);
    }

    /** Runs the callback of a due timer and restarts the timer. */
    method Fire(schedule: Schedule, ghost i: nat, script: seq<Command>)
      requires Valid() && i < |schedules| && schedule == schedules[i]
      modifies schedules
      ensures Valid() && View() == Touch(ApplyAll(old(View()), script), i)
      ensures schedule.View() == View().timers[i]
    {
      hide ApplyAll, Valid, At;
      Execute(script);
      Restart(schedule, i);
    }

    /** The loop body of `Tick` for the timer at position `i`. */
    method Visit(schedule: Schedule, i: nat, scripts: seq<seq<Command>>, minSleep: int, fired: seq<nat>)
        returns (minSleep': int, fired': seq<nat>)
      requires Valid() && i < |schedules| && schedule == schedules[i]
      modifies schedules
      ensures Valid() && minSleep' <= minSleep
      ensures View() == Next(Wrapping, old(View()), i, Script(scripts, i))
      ensures fired' == fired + if Fires(Wrapping, old(View()), i) then [i] else []
      ensures minSleep <= NO_ENABLED_SCHEDULE ==>
                minSleep' == Min(minSleep, Wait(Wrapping, old(View()), i, Script(scripts, i)))
    {
      hide TickFrom, ApplyAll, Valid, At;
      minSleep', fired' := minSleep, fired;
      assert View().timers[i] == schedule.View();
      if !(schedule.enabled && schedule.interval != 0) {
        return;
      }
      var sleep;
      var since := (now - schedule.lastTick) % U32;
      if since >= schedule.interval {
        Fire(schedule, i, Script(scripts, i));
        sleep := schedule.interval;
        fired' := fired + [i];
      } else {
        sleep := schedule.interval - since;
      }
      if sleep < minSleep {
        minSleep' := sleep;
      }
    }
  }
}
