/**
 The remote-call monitor of the C++ interface. Callers block in `SendRpc`, the IO thread delivers
 responses and disconnects; every step runs under the RPC mutex.
 */
module Monitor {
  import opened Wire

  const DISCONNECTED := 255

  /** What a caller passes in: its buffer, and the variable with the buffer's size. */
  datatype Cell = Cell(buffer: seq<byte>, size: nat)

  datatype Signal = Response(id: nat, status: nat, payload: seq<byte>) | Disconnect

  datatype Result = Ok | Error | Timeout

  /** The fields behind the mutex; `target` is the caller the two result pointers belong to. */
  datatype Fields = Fields(active: bool, pendingId: nat, counter: nat, status: nat, received: nat, target: Option<nat>)

  /** Where a caller stands; a waiting one remembers the signals since it sent its call. */
  datatype Phase = Outside | Queued | Waiting(id: nat, before: Cell, signals: seq<Signal>)

  datatype Call = Call(id: nat, before: Cell, signals: seq<Signal>, result: Result, after: Cell)

  datatype State = State(m: Fields, phases: map<nat, Phase>, cells: map<nat, Cell>, calls: seq<Call>, fault: bool)

  const START: State := State(Fields(false, 0, 0, 0, 0, None), map[], map[], [], false)

  datatype Event =
    | Enter(i: nat, buffer: seq<byte>)    // SendRpc is called
    | Acquire(i: nat, sent: bool)         // the first wait ends; the call is sent, or sending fails
    | Receive(signal: Signal)             // OnRpcResponse or MarkServiceDisconnected
    | Wake(i: nat)                        // the second wait ends because no call is active
    | GiveUp(i: nat)                      // the second wait times out

  function PhaseOf(s: State, i: nat): Phase {
    if i in s.phases then s.phases[i] else Outside
  }

  /** A response is copied if it fits; a disconnect leaves nothing. */
  function Store(c: Cell, sig: Signal): (r: Cell)
    ensures |r.buffer| == |c.buffer|
  {
    match sig
    case Disconnect => c.(size := 0)
    case Response(_, _, payload) =>
      if |payload| <= c.size && c.size <= |c.buffer|
      then Cell(payload + c.buffer[|payload|..], |payload|) else c.(size := 0)
  }

  function StatusOf(sig: Signal): nat {
    if sig.Disconnect? then DISCONNECTED else sig.status
  }

  function LengthOf(sig: Signal): nat {
    if sig.Disconnect? then 0 else |sig.payload|
  }

  function OnSignal(s: State, sig: Signal): State {
    if !s.m.active || (sig.Response? && sig.id != s.m.pendingId) then s
    else if s.m.target.None? || s.m.target.value !in s.cells then
      s.(fault := s.fault || sig.Response?,
         m := s.m.(active := false, status := StatusOf(sig), received := LengthOf(sig)))
    else
      var i := s.m.target.value;
      s.(m := s.m.(active := false, status := StatusOf(sig), received := LengthOf(sig)),
         cells := s.cells[i := Store(s.cells[i], sig)])
  }

  /** History only. */
  function Note(phases: map<nat, Phase>, sig: Signal): (r: map<nat, Phase>)
    ensures r.Keys == phases.Keys
  {
    map i | i in phases ::
      if phases[i].Waiting? then phases[i].(signals := phases[i].signals + [sig]) else phases[i]
  }

  function OnAcquire(s: State, i: nat, sent: bool): State
    requires i in s.cells
  {
    var id := (s.m.counter + 1) % U16;
    var m := s.m.(counter := id, pendingId := id, status := 0);
    if !sent then s.(m := m.(active := false), phases := s.phases[i := Outside])
    else s.(m := m.(active := true, received := 0, target := Some(i)),
            phases := s.phases[i := Waiting(id, s.cells[i], [])])
  }

  function Finish(s: State, i: nat, done: bool): State
    requires PhaseOf(s, i).Waiting? && i in s.cells
  {
    var w := s.phases[i];
    var result := if !done then Timeout else if s.m.status != 0 || s.m.received > w.before.size then Error else Ok;
    var after := if !done || s.m.status != 0 then s.cells[i].(size := 0) else s.cells[i];
    s.(m := s.m.(target := None, active := done && s.m.active),
       phases := s.phases[i := Outside], cells := s.cells[i := after],
       calls := s.calls + [Call(w.id, w.before, w.signals, result, after)])
  }

  /** An event whose wait is not over does not happen. */
  function Step(s: State, e: Event): State {
    match e
    case Enter(i, buffer) =>
      if !PhaseOf(s, i).Outside? then s
      else s.(phases := s.phases[i := Queued], cells := s.cells[i := Cell(buffer, |buffer|)])
    case Acquire(i, sent) =>
      if !PhaseOf(s, i).Queued? || s.m.active || i !in s.cells then s else OnAcquire(s, i, sent)
    case Receive(sig) => OnSignal(s.(phases := Note(s.phases, sig)), sig)
    case Wake(i) =>
      if !PhaseOf(s, i).Waiting? || s.m.active || i !in s.cells then s else Finish(s, i, true)
    case GiveUp(i) =>
      if !PhaseOf(s, i).Waiting? || !s.m.active || i !in s.cells then s else Finish(s, i, false)
  }

  function Run(s: State, es: seq<Event>): State
    decreases |es|
  {
    if es == [] then s else Step(Run(s, es[..|es| - 1]), es[|es| - 1])
  }

  // ---------------------------------------------------------------- memory safety, any callers

  ghost predicate Safe(s: State) {
    && !s.fault
    && (s.m.active ==> s.m.target.Some?)
    && (s.m.target.Some? ==> PhaseOf(s, s.m.target.value).Waiting?)
    && (forall i :: i in s.phases && !s.phases[i].Outside? ==>
          i in s.cells && s.cells[i].size <= |s.cells[i].buffer|)
  }

  lemma StepKeepsSafe(s: State, e: Event)
    requires Safe(s)
    ensures Safe(Step(s, e))
  {
  }

  /**
   However many callers there are: an active call has its result pointers set, they point into the
   frame of a caller that has not returned, and no response is ever stored through a null pointer.
   */
  lemma {:induction false} PointersStayValid(es: seq<Event>)
    ensures Safe(Run(START, es))
    decreases |es|
  {
    if es != [] {
      PointersStayValid(es[..|es| - 1]);
      StepKeepsSafe(Run(START, es[..|es| - 1]), es[|es| - 1]);
    }
  }

  // ---------------------------------------------------------------- what a call returns

  /** The first signal that ends the call. */
  function Verdict(id: nat, signals: seq<Signal>): Option<Signal> {
    if signals == [] then None
    else
      var before, last := Verdict(id, signals[..|signals| - 1]), signals[|signals| - 1];
      if before.Some? || (last.Response? && last.id != id) then before else Some(last)
  }

  /** The result and the caller's memory, by the verdict alone. */
  function Expected(before: Cell, verdict: Option<Signal>): (Result, Cell) {
    match verdict
    case None => (Timeout, before.(size := 0))
    case Some(Disconnect) => (Error, before.(size := 0))
    case Some(Response(_, status, payload)) =>
      if |payload| > |before.buffer| then (Error, before.(size := 0))
      else if status != 0 then (Error, Cell(payload + before.buffer[|payload|..], 0))
      else (Ok, Cell(payload + before.buffer[|payload|..], |payload|))
  }

  /** No caller starts a call while another, whose call is over, has yet to wake up. */
  ghost predicate Orderly(s: State, e: Event) {
    e.Acquire? && PhaseOf(s, e.i).Queued? && !s.m.active ==> forall i :: i in s.phases ==> !s.phases[i].Waiting?
  }

  ghost predicate OrderlyRun(es: seq<Event>)
    decreases |es|
  {
    es != [] ==> OrderlyRun(es[..|es| - 1]) && Orderly(Run(START, es[..|es| - 1]), es[|es| - 1])
  }

  /** The fields and the memory of the waiting caller follow its verdict. */
  ghost predicate Follows(m: Fields, c: Cell, w: Phase)
    requires w.Waiting?
  {
    && w.before.size == |w.before.buffer| && m.pendingId == w.id
    && match Verdict(w.id, w.signals)
       case None => m.active && c == w.before && m.status == 0 && m.received == 0
       case Some(sig) =>
         !m.active && c == Store(w.before, sig) && m.status == StatusOf(sig) && m.received == LengthOf(sig)
  }

  ghost predicate Inv(s: State) {
    && Safe(s)
    && (forall i :: i in s.phases && s.phases[i].Waiting? ==>
          s.m.target == Some(i) && Follows(s.m, s.cells[i], s.phases[i]))
    && (forall i :: i in s.phases && s.phases[i].Queued? ==> s.cells[i].size == |s.cells[i].buffer|)
    && (forall c :: c in s.calls ==> (c.result, c.after) == Expected(c.before, Verdict(c.id, c.signals)))
  }

  lemma FollowsSignal(m: Fields, c: Cell, w: Phase, sig: Signal)
    requires w.Waiting? && Follows(m, c, w)
    ensures var w' := w.(signals := w.signals + [sig]);
            if !m.active || (sig.Response? && sig.id != m.pendingId) then Follows(m, c, w')
            else Follows(m.(active := false, status := StatusOf(sig), received := LengthOf(sig)), Store(c, sig), w')
  {
    assert (w.signals + [sig])[..|w.signals|] == w.signals;
  }

  lemma SignalKeepsInv(s: State, sig: Signal)
    requires Inv(s)
    ensures Inv(Step(s, Receive(sig)))
  {
    hide Follows, Store, Expected, Verdict, StatusOf, LengthOf;
    StepKeepsSafe(s, Receive(sig));
    if s.m.target.Some? {
      var i := s.m.target.value;
      FollowsSignal(s.m, s.cells[i], s.phases[i], sig);
    }
  }

  lemma FinishKeepsInv(s: State, i: nat, done: bool)
    requires Inv(s) && PhaseOf(s, i).Waiting? && s.m.active == !done
    ensures Inv(Finish(s, i, done))
  {
    StepKeepsSafe(s, if done then Wake(i) else GiveUp(i));
  }

  lemma StepKeepsInv(s: State, e: Event)
    requires Inv(s) && Orderly(s, e)
    ensures Inv(Step(s, e))
  {
    StepKeepsSafe(s, e);
    match e
    case Receive(sig) => SignalKeepsInv(s, sig);
    case Wake(i) =>
      if PhaseOf(s, i).Waiting? && !s.m.active {
        FinishKeepsInv(s, i, true);
      }
    case GiveUp(i) =>
      if PhaseOf(s, i).Waiting? && s.m.active {
        FinishKeepsInv(s, i, false);
      }
    case _ =>
  }

  lemma {:induction false} OrderlyRunKeepsInv(es: seq<Event>)
    requires OrderlyRun(es)
    ensures Inv(Run(START, es))
    decreases |es|
  {
    if es != [] {
      OrderlyRunKeepsInv(es[..|es| - 1]);
      StepKeepsInv(Run(START, es[..|es| - 1]), es[|es| - 1]);
    }
  }

  lemma {:induction false} VerdictArrived(id: nat, signals: seq<Signal>)
    ensures var v := Verdict(id, signals);
            v.Some? ==> v.value in signals && (v.value.Response? ==> v.value.id == id)
    decreases |signals|
  {
    if signals != [] {
      VerdictArrived(id, signals[..|signals| - 1]);
    }
  }

  /** It is the first disconnect, or response under the call's own id, if there is one. */
  lemma {:induction false} VerdictIsFirst(id: nat, signals: seq<Signal>)
    ensures var v := Verdict(id, signals);
            if v.None? then forall k :: 0 <= k < |signals| ==> signals[k].Response? && signals[k].id != id
            else exists k :: 0 <= k < |signals| && v.value == signals[k]
                             && (signals[k].Response? ==> signals[k].id == id)
                             && forall j :: 0 <= j < k ==> signals[j].Response? && signals[j].id != id
    decreases |signals|
  {
    if signals != [] {
      var before := signals[..|signals| - 1];
      VerdictIsFirst(id, before);
      if Verdict(id, before).Some? {
        var k :| 0 <= k < |before| && Verdict(id, before).value == before[k]
                 && (before[k].Response? ==> before[k].id == id)
                 && forall j :: 0 <= j < k ==> before[j].Response? && before[j].id != id;
        assert signals[k] == before[k] && forall j :: 0 <= j < k ==> signals[j] == before[j];
      } else {
        assert forall j :: 0 <= j < |before| ==> signals[j] == before[j];
      }
    }
  }

  /**
   In an orderly run a call that returns OK has, in its buffer, exactly the payload of a successful
   response with its own id that arrived while it waited; it times out exactly if none arrived and
   the service stayed connected. Stale, oversized, late and failed responses change nothing in this.
   */
  lemma OkHoldsTheResponse(es: seq<Event>, c: Call)
    requires OrderlyRun(es) && c in Run(START, es).calls
    ensures c.result == Timeout <==> Verdict(c.id, c.signals).None?
    ensures c.result == Ok <==> var v := Verdict(c.id, c.signals);
                                v.Some? && v.value.Response? && v.value.status == 0
                                && |v.value.payload| <= |c.before.buffer|
    ensures c.result == Ok ==>
              exists payload :: Response(c.id, 0, payload) in c.signals && c.after.size == |payload|
                                && payload <= c.after.buffer && |c.after.buffer| == |c.before.buffer|
    ensures c.result != Ok ==> c.after.size == 0
  {
    OrderlyRunKeepsInv(es);
    VerdictArrived(c.id, c.signals);
    if c.result == Ok {
      var sig := Verdict(c.id, c.signals).value;
      assert Response(c.id, 0, sig.payload) in c.signals;
    }
  }

  // ---------------------------------------------------------------- one caller, two callers

  predicate By(e: Event, i: nat) {
    e.Receive? || e.i == i
  }

  lemma {:induction false} OneCallerIsOrderly(es: seq<Event>, i: nat)
    requires forall e :: e in es ==> By(e, i)
    ensures OrderlyRun(es) && Run(START, es).phases.Keys <= {i}
    decreases |es|
  {
    if es != [] {
      var before := es[..|es| - 1];
      assert es[|es| - 1] in es && forall e :: e in before ==> e in es;
      OneCallerIsOrderly(before, i);
    }
  }

  const ANSWER: Signal := Response(1, 0, [7])

  /** The second caller takes over before the first has seen its answer. */
  function Overtaking(): seq<Event> {
    [Enter(1, [0]), Acquire(1, true), Enter(2, [0]), Receive(ANSWER), Acquire(2, true)]
  }

  lemma AfterOvertaking()
    ensures Run(START, Overtaking())
         == State(Fields(true, 2, 2, 0, 0, Some(2)),
                  map[1 := Waiting(1, Cell([0], 1), [ANSWER]), 2 := Waiting(2, Cell([0], 1), [])],
                  map[1 := Cell([7], 1), 2 := Cell([0], 1)], [], false)
  {
    hide Run, Step;
    var es := Overtaking();
    NextStep(es, 0);
    NextStep(es, 1);
    NextStep(es, 2);
    NextStep(es, 3);
    NextStep(es, 4);
    BothEntered();
    FirstAnswered();
    SecondTakesOver();
  }

  const ENTERED: State :=
    State(Fields(true, 1, 1, 0, 0, Some(1)), map[1 := Waiting(1, Cell([0], 1), []), 2 := Queued],
          map[1 := Cell([0], 1), 2 := Cell([0], 1)], [], false)

  const ANSWERED: State :=
    State(Fields(false, 1, 1, 0, 1, Some(1)), map[1 := Waiting(1, Cell([0], 1), [ANSWER]), 2 := Queued],
          map[1 := Cell([7], 1), 2 := Cell([0], 1)], [], false)

  lemma BothEntered()
    ensures Step(Step(Step(START, Enter(1, [0])), Acquire(1, true)), Enter(2, [0])) == ENTERED
  {
    var s1 := START.(phases := map[1 := Queued], cells := map[1 := Cell([0], 1)]);
    var s2 := s1.(m := Fields(true, 1, 1, 0, 0, Some(1)), phases := map[1 := Waiting(1, Cell([0], 1), [])]);
    assert Step(START, Enter(1, [0])) == s1;
    assert Step(s1, Acquire(1, true)) == s2;
  }

  lemma SecondTakesOver()
    ensures Step(ANSWERED, Acquire(2, true))
         == State(Fields(true, 2, 2, 0, 0, Some(2)),
                  map[1 := Waiting(1, Cell([0], 1), [ANSWER]), 2 := Waiting(2, Cell([0], 1), [])],
                  map[1 := Cell([7], 1), 2 := Cell([0], 1)], [], false)
  {
  }

  lemma FirstAnswered()
    ensures Step(ENTERED, Receive(ANSWER)) == ANSWERED
  {
    assert [] + [ANSWER] == [ANSWER];
    assert Store(Cell([0], 1), ANSWER) == Cell([7] + [], 1) && [7] + [] == [7];
    assert ENTERED.cells[1 := Cell([7], 1)] == map[1 := Cell([7], 1), 2 := Cell([0], 1)];
  }

  /**
   The order is the exact boundary. Whenever, after an orderly run, caller `j` takes over while the
   call of `i` is over but `i` has not woken up, the run can go on so that `i` times out although its
   verdict is known.
   */
  lemma OvertakingBreaksCalls(es: seq<Event>, i: nat, j: nat)
    requires OrderlyRun(es)
    requires PhaseOf(Run(START, es), i).Waiting? && PhaseOf(Run(START, es), j).Queued?
    requires !Run(START, es).m.active
    ensures !Orderly(Run(START, es), Acquire(j, true))
    ensures var s, t := Run(START, es), Step(Step(Run(START, es), Acquire(j, true)), GiveUp(i));
            && |t.calls| == |s.calls| + 1 && t.calls[..|s.calls|] == s.calls
            && var c := t.calls[|s.calls|];
               c.id == s.phases[i].id && c.result == Timeout && Verdict(c.id, c.signals).Some?
               && (c.result, c.after) != Expected(c.before, Verdict(c.id, c.signals))
  {
    hide Run, Expected, Verdict, Follows;
    var s := Run(START, es);
    OrderlyRunKeepsInv(es);
    FollowsVerdict(s.m, s.cells[i], s.phases[i]);
    TimeoutIsWrong(s.phases[i].before, Verdict(s.phases[i].id, s.phases[i].signals));
  }

  lemma FollowsVerdict(m: Fields, c: Cell, w: Phase)
    requires w.Waiting? && Follows(m, c, w)
    ensures !m.active ==> Verdict(w.id, w.signals).Some?
  {
    hide Verdict;
  }

  lemma TimeoutIsWrong(before: Cell, verdict: Option<Signal>)
    ensures verdict.Some? ==> Expected(before, verdict).0 != Timeout
  {
  }

  /**
   When the sending of the overtaking call fails, the overtaken one wakes up to a cleared status: its
   result is wrong exactly if it was a disconnect or a refusal that fits the buffer.
   */
  lemma FailedOvertaking(es: seq<Event>, i: nat, j: nat)
    requires OrderlyRun(es)
    requires PhaseOf(Run(START, es), i).Waiting? && PhaseOf(Run(START, es), j).Queued?
    requires !Run(START, es).m.active
    ensures var s, t := Run(START, es), Step(Step(Run(START, es), Acquire(j, false)), Wake(i));
            && |t.calls| == |s.calls| + 1
            && var c := t.calls[|s.calls|];
               (c.result, c.after) == Expected(c.before, Verdict(c.id, c.signals))
               <==> s.m.status == 0 || s.m.received > |c.before.buffer|
  {
    OrderlyRunKeepsInv(es);
  }

  /** For example: the overtaken call ends the second one, which returns OK without any response. */
  lemma OvertakerReturnsNothing()
    ensures var calls := Step(Step(Run(START, Overtaking()), GiveUp(1)), Wake(2)).calls;
            && |calls| == 2
            && calls[0].result == Timeout && Verdict(calls[0].id, calls[0].signals).Some?
            && calls[1].result == Ok && calls[1].signals == [] && calls[1].after == Cell([0], 1)
  {
    hide Run, Verdict, Overtaking;
    AfterOvertaking();
    OneSignal(ANSWER);
  }

  lemma NextStep(es: seq<Event>, k: nat)
    requires k < |es|
    ensures Run(START, es[..k + 1]) == Step(Run(START, es[..k]), es[k])
    ensures k == 0 ==> Run(START, es[..k]) == START
    ensures k + 1 == |es| ==> es[..k + 1] == es
  {
    hide Step;
    assert es[..k + 1][..k] == es[..k];
  }

  lemma OneSignal(sig: Signal)
    requires sig.Response?
    ensures Verdict(sig.id, [sig]) == Some(sig)
  {
  }

  // ---------------------------------------------------------------- the code, on objects

  class RpcMonitor {
    var active: bool
    var pendingId: nat
    var counter: nat
    var status: nat
    var received: nat
    var target: Option<nat>
    /** The memory of the callers. */
    var cells: map<nat, Cell>
    ghost var phases: map<nat, Phase>
    ghost var calls: seq<Call>

    ghost function View(): State
      reads this
    {
      State(Fields(active, pendingId, counter, status, received, target), phases, cells, calls, false)
    }

    constructor ()
      ensures View() == START
    {
      active, pendingId, counter, status, received, target := false, 0, 0, 0, 0, None;
      cells, phases, calls := map[], map[], [];
    }

    /** The critical section of `SendRpc` up to its second wait. */
    method BeginCall(i: nat, sent: bool) returns (ok: bool)
      requires PhaseOf(View(), i).Queued? && i in cells && !active
      modifies this
      ensures View() == Step(old(View()), Acquire(i, sent)) && ok == sent
      ensures counter == pendingId == (old(counter) + 1) % 0x1_0000 && status == 0 && active == sent
      ensures sent ==> target == Some(i) && received == 0 && phases[i] == Waiting(pendingId, cells[i], [])
      ensures cells == old(cells) && calls == old(calls)
    {
      counter := (counter + 1) % U16;
      pendingId := counter;
      active := true;
      status := 0;
      if !sent {
        active := false;
        phases := phases[i := Outside];
        return false;
      }
      target := Some(i);
      received := 0;
      phases := phases[i := Waiting(pendingId, cells[i], [])];
      return true;
    }

    /** The rest of `SendRpc`, once its second wait is over. */
    method EndCall(i: nat, responseMax: nat) returns (result: Result)
      requires PhaseOf(View(), i).Waiting? && i in cells && responseMax == phases[i].before.size
      modifies this
      ensures View() == Step(old(View()), if old(active) then GiveUp(i) else Wake(i))
      ensures |calls| == |old(calls)| + 1 && result == calls[|old(calls)|].result
      ensures !active && target.None?
      ensures result == if old(active) then Timeout else if status != 0 || received > responseMax then Error else Ok
      ensures cells == if old(active) || status != 0 then old(cells)[i := old(cells)[i].(size := 0)] else old(cells)
    {
      ghost var w := phases[i];
      var done := !active;
      target := None;
      if !done {
        active := false;
        cells := cells[i := cells[i].(size := 0)];
        result := Timeout;
      } else if status != 0 {
        cells := cells[i := cells[i].(size := 0)];
        result := Error;
      } else if received > responseMax {
        assert cells == cells[i := cells[i]];
        result := Error;
      } else {
        assert cells == cells[i := cells[i]];
        result := Ok;
      }
      phases := phases[i := Outside];
      calls := calls + [Call(w.id, w.before, w.signals, result, cells[i])];
    }

    method OnRpcResponse(id: nat, status: nat, payload: seq<byte>)
      requires Safe(View())
      modifies this
      ensures View() == Step(old(View()), Receive(Response(id, status, payload)))
      ensures !old(active) || id != pendingId ==>
                active == old(active) && this.status == old(this.status) && received == old(received)
                && cells == old(cells)
      ensures old(active) && id == pendingId ==>
                && !active && this.status == status && received == |payload|
                && var i, c := target.value, old(cells)[target.value];
                   cells == old(cells)[i := if |payload| <= c.size
                                            then Cell(payload + c.buffer[|payload|..], |payload|) else c.(size := 0)]
    {
      phases := Note(phases, Response(id, status, payload));
      if !active || id != pendingId {
        return;
      }
      this.status := status;
      received := |payload|;
      var i := target.value;
      if |payload| <= cells[i].size {
        cells := cells[i := Cell(payload + cells[i].buffer[|payload|..], |payload|)];
      } else {
        cells := cells[i := cells[i].(size := 0)];
      }
      active := false;
    }

    method MarkServiceDisconnected()
      requires Safe(View())
      modifies this
      ensures View() == Step(old(View()), Receive(Disconnect))
      ensures !active && (old(active) ==> status == DISCONNECTED && received == 0)
      ensures !old(active) ==> status == old(status) && received == old(received) && cells == old(cells)
    {
      phases := Note(phases, Disconnect);
      if active {
        status := DISCONNECTED;
        received := 0;
        if target.Some? {
          cells := cells[target.value := cells[target.value].(size := 0)];
        }
        active := false;
      }
    }
  }
}
