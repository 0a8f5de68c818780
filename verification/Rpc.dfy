/**
 Remote calls of one client to one service over a network that loses, duplicates and reorders
 packets. Calls carry 16-bit ids; the serial numbers and acceptance numbers are history.
 */
module Rpc {
  import opened Wire

  const SUCCESS := 0
  const BUSY := 1
  const ERROR := 2

  // ---------------------------------------------------------------- the service's bookkeeping

  /** The fields that guard the one call a service executes at a time. */
  datatype Slot = Slot(inProgress: bool, pendingId: nat, maxSize: nat)

  const EMPTY_SLOT: Slot := Slot(false, 0, 0)

  datatype Reply = Reply(id: nat, status: nat, data: seq<byte>)

  function Transmit(claimed: bool, id: nat, status: nat, data: seq<byte>): Option<Reply> {
    if !claimed || HEADER_SIZE + |data| > MAX_PACKET_SIZE then None else Some(Reply(id, status, data))
  }

  predicate Expects(slot: Slot, id: nat) {
    slot.inProgress && id == slot.pendingId
  }

  /** What an answer puts on the wire: oversized values become errors, unexpected ids are ignored. */
  function Respond(slot: Slot, claimed: bool, id: nat, status: nat, data: seq<byte>): (Slot, Option<Reply>) {
    if !Expects(slot, id) then (slot, None)
    else if (status == SUCCESS && |data| > slot.maxSize) || HEADER_SIZE + |data| > MAX_PACKET_SIZE
    then (slot.(inProgress := false), Transmit(claimed, id, ERROR, []))
    else (slot.(inProgress := false), Transmit(claimed, id, status, data))
  }

  // ---------------------------------------------------------------- the protocol

  datatype Request = Request(function_: nat, params: seq<byte>)

  datatype CallPacket = CallPacket(serial: nat, id: nat, request: Request)

  datatype ReplyPacket = ReplyPacket(serial: nat, reply: Reply)

  /** One execution: which call the service believes to run, and what it was asked. */
  datatype Acceptance = Acceptance(serial: nat, id: nat, request: Request)

  datatype Phase = Idle | Accepted | Dispatched

  /** A value some worker passed on as the successful result of acceptance `acceptance`. */
  datatype Answer = Answer(acceptance: nat, data: seq<byte>)

  datatype Outcome = Returned(serial: nat, data: seq<byte>) | Failed(serial: nat)

  datatype State = State(
    // client
    issued: seq<Request>, waiting: Option<nat>, outcomes: seq<Outcome>,
    // network
    calls: set<CallPacket>, replies: set<ReplyPacket>,
    // service
    running: bool, claimed: bool, slot: Slot, phase: Phase,
    acceptances: seq<Acceptance>, answered: seq<nat>, answers: seq<Answer>)

  const START: State :=
    State([], None, [], {}, {}, false, false, EMPTY_SLOT, Idle, [], [], [])

  function Id(serial: nat): nat { serial % U16 }

  /** The request behind a serial number; serial numbers start at 1. */
  predicate Issued(s: State, serial: nat) {
    1 <= serial <= |s.issued|
  }

  datatype Event =
    | StartCall(request: Request)              // client: Call, up to its receive loop
    | SendOnly(request: Request)               // client: SendRPC
    | GiveUp                                   // client: Call times out
    | DeliverReply(packet: ReplyPacket)        // client: one packet read by the receive loop
    | DeliverCall(call: CallPacket)            // service: HandleRpcCall, up to dispatch
    | Dispatch(parsed: bool)                   // service: dispatchRpcCall
    | Answering(acceptance: nat, status: nat, data: seq<byte>)  // worker: SendRpcResponse
    | StopService
    | StartService
    | SetClaimed(owned: bool)

  function Send(s: State, request: Request): State {
    var serial := |s.issued| + 1;
    s.(issued := s.issued + [request], calls := s.calls + {CallPacket(serial, Id(serial), request)})
  }

  function Put(s: State, serial: nat, reply: Option<Reply>): State {
    match reply
    case None => s
    case Some(r) => s.(replies := s.replies + {ReplyPacket(serial, r)})
  }

  /** A worker of `acceptance` calls SendRpcResponse with the id it was given. */
  function AnswerStep(s: State, acceptance: nat, status: nat, data: seq<byte>): State
    requires acceptance < |s.acceptances|
  {
    var a := s.acceptances[acceptance];
    if !Expects(s.slot, a.id) then s
    else
      var (slot, reply) := Respond(s.slot, s.claimed, a.id, status, data);
      var s' := Put(s.(slot := slot, phase := Idle, answered := s.answered + [acceptance]), a.serial, reply);
      if status == SUCCESS then s'.(answers := s.answers + [Answer(acceptance, data)]) else s'
  }

  /** `declared` gives the size of each function's return type. */
  function Step(declared: nat -> nat, s: State, e: Event): State {
    match e
    case StartCall(request) =>
      if s.waiting.Some? then s else Send(s, request).(waiting := Some(|s.issued| + 1))
    case SendOnly(request) => Send(s, request)
    case GiveUp => s.(waiting := None)
    case DeliverReply(p) =>
      if p !in s.replies || s.waiting.None? || p.reply.id != Id(s.waiting.value) then s
      else if p.reply.status != SUCCESS then s.(waiting := None, outcomes := s.outcomes + [Failed(s.waiting.value)])
      else s.(waiting := None, outcomes := s.outcomes + [Returned(s.waiting.value, p.reply.data)])
    case DeliverCall(c) =>
      if c !in s.calls || !s.running || s.phase.Accepted? then s
      else if s.slot.inProgress then Put(s, c.serial, Transmit(s.claimed, c.id, BUSY, []))
      else s.(slot := s.slot.(inProgress := true, pendingId := c.id), phase := Accepted,
              acceptances := s.acceptances + [Acceptance(c.serial, c.id, c.request)])
    case Dispatch(parsed) =>
      if !s.phase.Accepted? || s.acceptances == [] then s
      else
        var n := |s.acceptances| - 1;
        if parsed then s.(phase := Dispatched, slot := s.slot.(maxSize := declared(s.acceptances[n].request.function_)))
        else AnswerStep(s, n, ERROR, [])
    case Answering(acceptance, status, data) =>
      if acceptance >= |s.acceptances| then s else AnswerStep(s, acceptance, status, data)
    case StopService =>
      if s.phase.Accepted? then s else s.(running := false, slot := EMPTY_SLOT, phase := Idle)
    case StartService => if s.phase.Accepted? then s else s.(running := true)
    case SetClaimed(owned) => s.(claimed := owned)
  }

  /** Serials that are less than 65536 apart, in either direction. */
  predicate Close(a: nat, b: nat) {
    -U16 < a - b < U16
  }

  /** A worker answers under an id the service expects only if it executes the expected call. */
  predicate Expected(s: State, e: Event) {
    e.Answering? && e.acceptance < |s.acceptances| && Expects(s.slot, s.acceptances[e.acceptance].id) ==>
      s.phase.Dispatched? && e.acceptance == |s.acceptances| - 1
  }

  /** Moreover, a reply that is taken belongs to a call less than 65536 ids away from the one that waits. */
  predicate Timely(s: State, e: Event) {
    && Expected(s, e)
    && (e.DeliverReply? && e.packet in s.replies && s.waiting.Some? && e.packet.reply.id == Id(s.waiting.value) ==>
          Close(e.packet.serial, s.waiting.value))
  }

  function Run(declared: nat -> nat, s: State, es: seq<Event>): State
    decreases |es|
  {
    if es == [] then s else Run(declared, Step(declared, s, es[0]), es[1..])
  }

  ghost predicate TimelyRun(declared: nat -> nat, s: State, es: seq<Event>)
    decreases |es|
  {
    es == [] || (Timely(s, es[0]) && TimelyRun(declared, Step(declared, s, es[0]), es[1..]))
  }

  ghost predicate ExpectedRun(declared: nat -> nat, s: State, es: seq<Event>)
    decreases |es|
  {
    es == [] || (Expected(s, es[0]) && ExpectedRun(declared, Step(declared, s, es[0]), es[1..]))
  }

  // ---------------------------------------------------------------- safety

  /** Some execution of call `serial` passed `data` on as its result, within the declared size. */
  ghost predicate Justified(declared: nat -> nat, s: State, serial: nat, data: seq<byte>) {
    Issued(s, serial) &&
    exists i :: 0 <= i < |s.answers| && Executed(s, s.answers[i], serial, data)
                && |data| <= declared(s.issued[serial - 1].function_)
  }

  /** `answer` came from executing the function and the parameters of call `serial`. */
  predicate Executed(s: State, answer: Answer, serial: nat, data: seq<byte>)
    requires Issued(s, serial)
  {
    && answer.data == data && answer.acceptance < |s.acceptances|
    && s.acceptances[answer.acceptance].serial == serial
    && s.acceptances[answer.acceptance].request == s.issued[serial - 1]
  }

  ghost predicate CallsGenuine(s: State) {
    && (forall c :: c in s.calls ==> Issued(s, c.serial) && c.id == Id(c.serial) && c.request == s.issued[c.serial - 1])
    && (forall i :: 0 <= i < |s.acceptances| ==>
          var a := s.acceptances[i];
          Issued(s, a.serial) && a.id == Id(a.serial) && a.request == s.issued[a.serial - 1])
  }

  ghost predicate RepliesGenuine(declared: nat -> nat, s: State) {
    forall p :: p in s.replies ==>
      && Issued(s, p.serial) && p.reply.id == Id(p.serial)
      && (p.reply.status == SUCCESS ==> Justified(declared, s, p.serial, p.reply.data))
  }

  ghost predicate OutcomesGenuine(declared: nat -> nat, s: State) {
    forall i :: 0 <= i < |s.outcomes| && s.outcomes[i].Returned? ==>
      Justified(declared, s, s.outcomes[i].serial, s.outcomes[i].data)
  }

  /** The slot belongs to the latest acceptance while a call is in progress, which is unanswered. */
  ghost predicate SlotConsistent(declared: nat -> nat, s: State) {
    && (s.slot.inProgress <==> !s.phase.Idle?)
    && (!s.phase.Idle? ==>
          && s.running && s.acceptances != []
          && s.slot.pendingId == s.acceptances[|s.acceptances| - 1].id
          && |s.acceptances| - 1 !in s.answered)
    && (s.phase.Dispatched? ==>
          s.slot.maxSize == declared(s.acceptances[|s.acceptances| - 1].request.function_))
  }

  /** No acceptance is answered twice. */
  predicate AnsweredOnce(s: State) {
    && (forall i :: 0 <= i < |s.answered| ==> s.answered[i] < |s.acceptances|)
    && forall i, j :: 0 <= i < j < |s.answered| ==> s.answered[i] != s.answered[j]
  }

  ghost predicate Inv(declared: nat -> nat, s: State) {
    && CallsGenuine(s) && RepliesGenuine(declared, s) && OutcomesGenuine(declared, s)
    && SlotConsistent(declared, s) && AnsweredOnce(s)
    && (s.waiting.Some? ==> Issued(s, s.waiting.value))
  }

  /** History only grows, so a justification stays one. */
  ghost predicate Extends(s: State, t: State) {
    s.issued <= t.issued && s.acceptances <= t.acceptances && s.answers <= t.answers
  }

  lemma JustifiedStays(declared: nat -> nat, s: State, t: State, serial: nat, data: seq<byte>)
    requires Justified(declared, s, serial, data) && Extends(s, t)
    ensures Justified(declared, t, serial, data)
  {
    var i :| 0 <= i < |s.answers| && Executed(s, s.answers[i], serial, data)
             && |data| <= declared(s.issued[serial - 1].function_);
    assert Executed(t, t.answers[i], serial, data);
  }

  lemma GenuineStays(declared: nat -> nat, s: State, t: State)
    requires Extends(s, t) && RepliesGenuine(declared, s) && OutcomesGenuine(declared, s)
    ensures forall p :: p in s.replies ==>
              Issued(t, p.serial) && (p.reply.status == SUCCESS ==> Justified(declared, t, p.serial, p.reply.data))
    ensures forall i :: 0 <= i < |s.outcomes| && s.outcomes[i].Returned? ==>
              Justified(declared, t, s.outcomes[i].serial, s.outcomes[i].data)
  {
    forall p | p in s.replies && p.reply.status == SUCCESS ensures Justified(declared, t, p.serial, p.reply.data) {
      JustifiedStays(declared, s, t, p.serial, p.reply.data);
    }
    forall i | 0 <= i < |s.outcomes| && s.outcomes[i].Returned?
      ensures Justified(declared, t, s.outcomes[i].serial, s.outcomes[i].data)
    {
      JustifiedStays(declared, s, t, s.outcomes[i].serial, s.outcomes[i].data);
    }
  }

  lemma AnswerKeepsInv(declared: nat -> nat, s: State, status: nat, data: seq<byte>)
    requires Inv(declared, s) && !s.phase.Idle? && (s.phase.Dispatched? || status != SUCCESS)
    ensures Inv(declared, AnswerStep(s, |s.acceptances| - 1, status, data))
  {
    var n := |s.acceptances| - 1;
    var a, t := s.acceptances[n], AnswerStep(s, n, status, data);
    GenuineStays(declared, s, t);
    var (_, reply) := Respond(s.slot, s.claimed, a.id, status, data);
    if reply.Some? && reply.value.status == SUCCESS {
      assert Executed(t, t.answers[|s.answers|], a.serial, data);
      assert Justified(declared, t, a.serial, data);
    }
    assert RepliesGenuine(declared, t);
  }

  /** Exactly between serials that are close does an id identify the serial. */
  lemma IdIdentifies(a: nat, b: nat)
    requires Id(a) == Id(b)
    ensures a == b <==> Close(a, b)
  {
  }

  lemma SendKeepsInv(declared: nat -> nat, s: State, request: Request, waiting: Option<nat>)
    requires Inv(declared, s)
    requires waiting == s.waiting || waiting == Some(|s.issued| + 1)
    ensures Inv(declared, Send(s, request).(waiting := waiting))
  {
    var t := Send(s, request).(waiting := waiting);
    GenuineStays(declared, s, t);
    hide Justified, Executed, Id;
    assert CallsGenuine(t);
    assert RepliesGenuine(declared, t) && OutcomesGenuine(declared, t);
  }

  /** A reply is taken, or not. */
  lemma DeliveryKeepsInv(declared: nat -> nat, s: State, p: ReplyPacket)
    requires Inv(declared, s) && Timely(s, DeliverReply(p))
    ensures Inv(declared, Step(declared, s, DeliverReply(p)))
  {
    hide Justified, Id, CallsGenuine, SlotConsistent, AnsweredOnce;
    var t := Step(declared, s, DeliverReply(p));
    if p in s.replies && s.waiting.Some? && p.reply.id == Id(s.waiting.value) {
      IdIdentifies(p.serial, s.waiting.value);
      GenuineStays(declared, s, t);
      TakenStays(declared, s, t);
    }
  }

  lemma TakenStays(declared: nat -> nat, s: State, t: State)
    requires t == s.(waiting := None, outcomes := t.outcomes)
    ensures CallsGenuine(s) ==> CallsGenuine(t)
    ensures SlotConsistent(declared, s) ==> SlotConsistent(declared, t)
    ensures AnsweredOnce(s) ==> AnsweredOnce(t)
  {
  }

  lemma SameCalls(s: State, t: State)
    requires CallsGenuine(s) && t.issued == s.issued && t.calls == s.calls && t.acceptances == s.acceptances
    ensures CallsGenuine(t)
  {
  }

  lemma CallKeepsInv(declared: nat -> nat, s: State, c: CallPacket)
    requires Inv(declared, s)
    ensures Inv(declared, Step(declared, s, DeliverCall(c)))
  {
    var t := Step(declared, s, DeliverCall(c));
    GenuineStays(declared, s, t);
    hide Justified, Executed, Id;
    assert OutcomesGenuine(declared, t) && CallsGenuine(t);
    assert RepliesGenuine(declared, t);
  }

  lemma ControlKeepsInv(declared: nat -> nat, s: State, e: Event)
    requires Inv(declared, s)
    requires e.StopService? || e.StartService? || e.SetClaimed? || e.GiveUp? || (e.Dispatch? && e.parsed)
    ensures Inv(declared, Step(declared, s, e))
  {
    hide Justified, Id, CallsGenuine, AnswerStep, Send, Put, Transmit;
    var t := Step(declared, s, e);
    GenuineStays(declared, s, t);
    SameCalls(s, t);
  }

  lemma StepKeepsInv(declared: nat -> nat, s: State, e: Event)
    requires Inv(declared, s) && Timely(s, e)
    ensures Inv(declared, Step(declared, s, e))
  {
    hide Inv;
    match e
    case Dispatch(false) =>
      if s.phase.Accepted? && s.acceptances != [] {
        AnswerKeepsInv(declared, s, ERROR, []);
      }
    case Answering(acceptance, status, data) =>
      if acceptance < |s.acceptances| && Expects(s.slot, s.acceptances[acceptance].id) {
        AnswerKeepsInv(declared, s, status, data);
      }
    case StartCall(request) => SendKeepsInv(declared, s, request, Some(|s.issued| + 1));
    case SendOnly(request) => SendKeepsInv(declared, s, request, s.waiting);
    case DeliverReply(p) => DeliveryKeepsInv(declared, s, p);
    case DeliverCall(c) => CallKeepsInv(declared, s, c);
    case _ => ControlKeepsInv(declared, s, e);
  }

  lemma {:induction false} RunKeepsInv(declared: nat -> nat, s: State, es: seq<Event>)
    requires Inv(declared, s) && TimelyRun(declared, s, es)
    ensures Inv(declared, Run(declared, s, es))
    decreases |es|
  {
    if es != [] {
      StepKeepsInv(declared, s, es[0]);
      RunKeepsInv(declared, Step(declared, s, es[0]), es[1..]);
    }
  }

  /**
   In every run a call that returns a payload returns what some execution of its own function and
   parameters passed on, no larger than declared, and no accepted call is answered twice.
   */
  lemma CallsReturnTheirOwnResult(declared: nat -> nat, es: seq<Event>)
    requires TimelyRun(declared, START, es)
    ensures var s := Run(declared, START, es);
            && OutcomesGenuine(declared, s)
            && AnsweredOnce(s)
            && (s.slot.inProgress ==> s.running)
  {
    RunKeepsInv(declared, START, es);
  }

  // ---------------------------------------------------------------- without any hypothesis

  /** Some execution of call `serial` passed `data` on as its result. */
  ghost predicate Passed(s: State, serial: nat, data: seq<byte>) {
    Issued(s, serial) && exists i :: 0 <= i < |s.answers| && Executed(s, s.answers[i], serial, data)
  }

  ghost predicate Traced(s: State, p: ReplyPacket) {
    && Issued(s, p.serial) && p.reply.id == Id(p.serial)
    && (p.reply.status == SUCCESS ==> Passed(s, p.serial, p.reply.data))
  }

  ghost predicate Provenance(s: State) {
    && CallsGenuine(s) && (forall p :: p in s.replies ==> Traced(s, p))
    && (s.waiting.Some? ==> Issued(s, s.waiting.value))
  }

  lemma TracedStays(s: State, t: State)
    requires Extends(s, t)
    ensures forall p :: Traced(s, p) ==> Traced(t, p)
  {
    forall p | Traced(s, p) ensures Traced(t, p) {
      if p.reply.status == SUCCESS {
        var i :| 0 <= i < |s.answers| && Executed(s, s.answers[i], p.serial, p.reply.data);
        assert Executed(t, t.answers[i], p.serial, p.reply.data);
      }
    }
  }

  /** Whichever worker answers, the reply belongs to the call that worker executed. */
  lemma AnswerIsTraced(s: State, acceptance: nat, status: nat, data: seq<byte>)
    requires CallsGenuine(s) && acceptance < |s.acceptances| && Expects(s.slot, s.acceptances[acceptance].id)
    ensures var t := AnswerStep(s, acceptance, status, data);
            && Extends(s, t) && t.issued == s.issued && t.acceptances == s.acceptances && t.waiting == s.waiting
            && t.calls == s.calls
            && forall p :: p in t.replies && p !in s.replies ==> Traced(t, p)
  {
    var a, t := s.acceptances[acceptance], AnswerStep(s, acceptance, status, data);
    if status == SUCCESS {
      assert Executed(t, t.answers[|s.answers|], a.serial, data);
    }
  }

  lemma AnswerKeepsProvenance(s: State, acceptance: nat, status: nat, data: seq<byte>)
    requires Provenance(s) && acceptance < |s.acceptances|
    ensures Provenance(AnswerStep(s, acceptance, status, data))
  {
    hide Traced;
    if Expects(s.slot, s.acceptances[acceptance].id) {
      hide AnswerStep;
      AnswerIsTraced(s, acceptance, status, data);
      TracedStays(s, AnswerStep(s, acceptance, status, data));
      SameCalls(s, AnswerStep(s, acceptance, status, data));
    }
  }

  lemma SendKeepsProvenance(s: State, request: Request, waiting: Option<nat>)
    requires Provenance(s) && (waiting == s.waiting || waiting == Some(|s.issued| + 1))
    ensures Provenance(Send(s, request).(waiting := waiting))
    ensures Send(s, request).(waiting := s.waiting) == Send(s, request)
  {
    hide Traced;
    TracedStays(s, Send(s, request).(waiting := waiting));
  }

  lemma CallKeepsProvenance(declared: nat -> nat, s: State, c: CallPacket)
    requires Provenance(s)
    ensures Provenance(Step(declared, s, DeliverCall(c)))
  {
    var t := Step(declared, s, DeliverCall(c));
    TracedStays(s, t);
    hide Passed;
    assert forall p :: p in t.replies && p !in s.replies ==> Traced(t, p);
  }

  lemma ControlKeepsProvenance(declared: nat -> nat, s: State, e: Event)
    requires Provenance(s)
    requires e.StopService? || e.StartService? || e.SetClaimed? || e.GiveUp? || e.DeliverReply? || e == Dispatch(true)
    ensures Provenance(Step(declared, s, e))
  {
    hide Traced, AnswerStep, Send, Put, Transmit, Id, CallsGenuine;
    TracedStays(s, Step(declared, s, e));
    SameCalls(s, Step(declared, s, e));
  }

  lemma StepKeepsProvenance(declared: nat -> nat, s: State, e: Event)
    requires Provenance(s)
    ensures Provenance(Step(declared, s, e))
  {
    hide Provenance, AnswerStep, Send, Put, Transmit;
    match e
    case StartCall(request) => SendKeepsProvenance(s, request, Some(|s.issued| + 1));
    case SendOnly(request) => SendKeepsProvenance(s, request, s.waiting);
    case Dispatch(false) =>
      if s.phase.Accepted? && s.acceptances != [] {
        AnswerKeepsProvenance(s, |s.acceptances| - 1, ERROR, []);
      }
    case Answering(acceptance, status, data) =>
      if acceptance < |s.acceptances| {
        AnswerKeepsProvenance(s, acceptance, status, data);
      }
    case DeliverCall(c) => CallKeepsProvenance(declared, s, c);
    case _ => ControlKeepsProvenance(declared, s, e);
  }

  lemma {:induction false} RunKeepsProvenance(declared: nat -> nat, s: State, es: seq<Event>)
    requires Provenance(s)
    ensures Provenance(Run(declared, s, es))
    decreases |es|
  {
    if es != [] {
      StepKeepsProvenance(declared, s, es[0]);
      RunKeepsProvenance(declared, Step(declared, s, es[0]), es[1..]);
    }
  }

  /** Whatever replies are taken, the ones under way are of the declared size if workers behave. */
  lemma {:induction false} RunKeepsReplies(declared: nat -> nat, s: State, es: seq<Event>)
    requires Inv(declared, s.(outcomes := [])) && ExpectedRun(declared, s, es)
    ensures RepliesGenuine(declared, Run(declared, s, es))
    decreases |es|
  {
    hide Timely, Step, RepliesGenuine, Inv;
    InvParts(declared, s);
    if es != [] {
      ForgetOutcomes(declared, s, es[0]);
      RunKeepsReplies(declared, Step(declared, s, es[0]), es[1..]);
    }
  }

  lemma InvParts(declared: nat -> nat, s: State)
    requires Inv(declared, s.(outcomes := []))
    ensures RepliesGenuine(declared, s)
  {
    GenuineStays(declared, s.(outcomes := []), s);
  }

  /** What is taken affects the outcomes and the waiting call only. */
  lemma ForgetOutcomes(declared: nat -> nat, s: State, e: Event)
    requires Inv(declared, s.(outcomes := [])) && Expected(s, e)
    ensures Inv(declared, Step(declared, s, e).(outcomes := []))
  {
    hide Inv;
    var u := s.(outcomes := []);
    StepForgets(declared, s, e);
    hide Step;
    if e.DeliverReply? {
      StepKeepsInv(declared, u, GiveUp);
    } else {
      StepKeepsInv(declared, u, e);
    }
  }

  lemma StepForgets(declared: nat -> nat, s: State, e: Event)
    ensures var u, t := s.(outcomes := []), Step(declared, s, e).(outcomes := []);
            if e.DeliverReply? then t == u || t == Step(declared, u, GiveUp) else t == Step(declared, u, e)
  {
    hide AnswerStep, Send, Put, Transmit, Id;
    var u := s.(outcomes := []);
    match e
    case StartCall(request) => SendForgets(s, request);
    case SendOnly(request) => SendForgets(s, request);
    case DeliverCall(c) => PutForgets(s, c.serial, Transmit(s.claimed, c.id, BUSY, []));
    case Dispatch(_) =>
      if s.acceptances != [] {
        AnswerForgets(s, |s.acceptances| - 1, ERROR, []);
      }
    case Answering(acceptance, status, data) =>
      if acceptance < |s.acceptances| {
        AnswerForgets(s, acceptance, status, data);
      }
    case _ =>
  }

  lemma SendForgets(s: State, request: Request)
    ensures Send(s, request).(outcomes := []) == Send(s.(outcomes := []), request)
    ensures Send(s, request).outcomes == s.outcomes
  {
  }

  lemma PutForgets(s: State, serial: nat, reply: Option<Reply>)
    ensures Put(s, serial, reply).(outcomes := []) == Put(s.(outcomes := []), serial, reply)
  {
  }

  lemma AnswerForgets(s: State, acceptance: nat, status: nat, data: seq<byte>)
    requires acceptance < |s.acceptances|
    ensures AnswerStep(s, acceptance, status, data).(outcomes := [])
         == AnswerStep(s.(outcomes := []), acceptance, status, data)
  {
    hide Respond, Transmit;
  }

  /**
   In every run at all, when the waiting call reads a reply with its id, what it returns was passed on by
   an execution of the call the reply belongs to, and that is the waiting call exactly if the two are
   less than 65536 ids apart.
   */
  lemma ReplyIsOwnIff(declared: nat -> nat, es: seq<Event>, p: ReplyPacket)
    requires var s := Run(declared, START, es);
             p in s.replies && s.waiting.Some? && p.reply.id == Id(s.waiting.value)
    ensures var s := Run(declared, START, es);
            var w, t := s.waiting.value, Step(declared, s, DeliverReply(p));
            && (p.reply.status == SUCCESS ==> Passed(s, p.serial, p.reply.data))
            && t.outcomes == s.outcomes + [if p.reply.status == SUCCESS then Returned(w, p.reply.data) else Failed(w)]
            && (p.serial == w <==> Close(p.serial, w))
    ensures p.reply.status == SUCCESS && ExpectedRun(declared, START, es) ==>
              Justified(declared, Run(declared, START, es), p.serial, p.reply.data)
  {
    RunKeepsProvenance(declared, START, es);
    if ExpectedRun(declared, START, es) {
      RunKeepsReplies(declared, START, es);
    }
    IdIdentifies(p.serial, Run(declared, START, es).waiting.value);
  }

  // ---------------------------------------------------------------- the client's receive loop

  /** What one read of the socket gives: a malformed packet is an error, heartbeats and the like are not. */
  datatype Incoming = Malformed | Unrelated | Response(packet: ReplyPacket)

  datatype CallResult = Payload(data: seq<byte>) | RpcError(status: nat) | ReadError | NoResponse

  /** The first response with the given id decides the call, unless a malformed packet comes first. */
  function Receive(id: nat, inbox: seq<Incoming>): CallResult {
    if inbox == [] then NoResponse
    else
      match inbox[0]
      case Malformed => ReadError
      case Unrelated => Receive(id, inbox[1..])
      case Response(packet) =>
        if packet.reply.id != id then Receive(id, inbox[1..])
        else if packet.reply.status != SUCCESS then RpcError(packet.reply.status)
        else Payload(packet.reply.data)
  }

  /** Packets of other kinds and responses to other calls decide nothing; what comes next does. */
  lemma {:induction false} FirstDecides(id: nat, inbox: seq<Incoming>, k: nat)
    requires k <= |inbox|
    requires forall j :: 0 <= j < k ==> inbox[j].Unrelated? || (inbox[j].Response? && inbox[j].packet.reply.id != id)
    ensures k == |inbox| ==> Receive(id, inbox) == NoResponse
    ensures k < |inbox| && inbox[k].Malformed? ==> Receive(id, inbox) == ReadError
    ensures k < |inbox| && inbox[k].Response? && inbox[k].packet.reply.id == id ==>
              var reply := inbox[k].packet.reply;
              Receive(id, inbox) == if reply.status == SUCCESS then Payload(reply.data) else RpcError(reply.status)
  {
    if k > 0 {
      FirstDecides(id, inbox[1..], k - 1);
    }
  }

  function Deliveries(inbox: seq<Incoming>): seq<Event> {
    if inbox == [] then []
    else
      match inbox[0]
      case Malformed => [GiveUp] + Deliveries(inbox[1..])
      case Unrelated => Deliveries(inbox[1..])
      case Response(packet) => [DeliverReply(packet)] + Deliveries(inbox[1..])
  }

  class Conn {
    /** An atomic uint32. */
    var callCounter: nat
    var sent: seq<(nat, Request)>

    constructor ()
      ensures callCounter == 0 && sent == []
    {
      callCounter, sent := 0, [];
    }

    method StartCall(request: Request) returns (id: nat)
      modifies this
      ensures callCounter == (old(callCounter) + 1) % U32 && id == Id(old(callCounter) + 1)
      ensures sent == old(sent) + [(id, request)]
    {
      callCounter := (callCounter + 1) % U32;
      id := callCounter % U16;
      sent := sent + [(id, request)];
    }

    /** `inbox` is what the socket gives before the deadline, in order. */
    method Call(request: Request, inbox: seq<Incoming>) returns (r: CallResult)
      modifies this
      ensures callCounter == (old(callCounter) + 1) % U32
      ensures sent == old(sent) + [(Id(old(callCounter) + 1), request)]
      ensures r == Receive(Id(old(callCounter) + 1), inbox)
    {
      var id := StartCall(request);
      var i := 0;
      while i < |inbox|
        invariant i <= |inbox| && Receive(id, inbox[i..]) == Receive(id, inbox)
      {
        if inbox[i].Malformed? {
          return ReadError;
        }
        if inbox[i].Response? && inbox[i].packet.reply.id == id {
          var reply := inbox[i].packet.reply;
          if reply.status != SUCCESS {
            return RpcError(reply.status);
          }
          return Payload(reply.data);
        }
        i := i + 1;
      }
      return NoResponse;
    }
  }

  /** The loop computes what the protocol does when the same packets are delivered one by one. */
  lemma {:induction false} LoopIsDelivery(declared: nat -> nat, s: State, inbox: seq<Incoming>)
    requires s.waiting.Some? && forall p :: p in inbox && p.Response? ==> p.packet in s.replies
    ensures var t := Run(declared, s, Deliveries(inbox));
            t.outcomes == s.outcomes + match Receive(Id(s.waiting.value), inbox)
                                       case NoResponse => []
                                       case ReadError => []
                                       case Payload(data) => [Returned(s.waiting.value, data)]
                                       case RpcError(_) => [Failed(s.waiting.value)]
    decreases |inbox|
  {
    if inbox != [] {
      var es := Deliveries(inbox);
      assert inbox[0] in inbox;
      if inbox[0].Unrelated? {
        LoopIsDelivery(declared, s, inbox[1..]);
      } else {
        var t := Step(declared, s, es[0]);
        assert es[1..] == Deliveries(inbox[1..]);
        if t.waiting.Some? {
          LoopIsDelivery(declared, t, inbox[1..]);
        } else {
          NotWaiting(declared, t, inbox[1..]);
        }
      }
    }
  }

  lemma {:induction false} NotWaiting(declared: nat -> nat, s: State, inbox: seq<Incoming>)
    requires s.waiting.None?
    ensures Run(declared, s, Deliveries(inbox)) == s
    decreases |inbox|
  {
    if inbox != [] {
      if !inbox[0].Unrelated? {
        assert Deliveries(inbox)[1..] == Deliveries(inbox[1..]);
      }
      NotWaiting(declared, s, inbox[1..]);
    }
  }

  // ---------------------------------------------------------------- the id bound is sharp

  function Calls(request: Request, n: nat): seq<Event> {
    seq(n, _ => SendOnly(request))
  }

  lemma {:induction false} AfterCalls(declared: nat -> nat, s: State, request: Request, n: nat, es: seq<Event>)
    ensures exists t :: Run(declared, s, Calls(request, n) + es) == Run(declared, t, es) && SameButIssued(s, t, n)
    decreases n
  {
    if n == 0 {
      assert Calls(request, 0) + es == es;
      assert Run(declared, s, es) == Run(declared, s, es) && SameButIssued(s, s, 0);
    } else {
      var s1 := Send(s, request);
      AfterCalls(declared, s1, request, n - 1, es);
      var all := Calls(request, n) + es;
      assert all[1..] == Calls(request, n - 1) + es && all[0] == SendOnly(request);
      var t :| Run(declared, s1, Calls(request, n - 1) + es) == Run(declared, t, es) && SameButIssued(s1, t, n - 1);
      assert Run(declared, s, all) == Run(declared, t, es) && SameButIssued(s, t, n);
    }
  }

  ghost predicate SameButIssued(s: State, t: State, n: nat) {
    |t.issued| == |s.issued| + n && t == s.(issued := t.issued, calls := t.calls)
  }

  /** The first call is executed and answered while nobody waits, 65535 more ids go by, then a call. */
  function StaleRun(request: Request, data: seq<byte>): seq<Event> {
    Executed1(request, data) + (Calls(request, U16 - 1) + [StartCall(request), DeliverReply(Stale(data))])
  }

  function Stale(data: seq<byte>): ReplyPacket { ReplyPacket(1, Reply(1, SUCCESS, data)) }

  function Executed1(request: Request, data: seq<byte>): seq<Event> {
    [StartService, SetClaimed(true), SendOnly(request), DeliverCall(CallPacket(1, 1, request)), Dispatch(true),
     Answering(0, SUCCESS, data)]
  }

  lemma {:induction false} RunAppend(declared: nat -> nat, s: State, a: seq<Event>, b: seq<Event>)
    ensures Run(declared, s, a + b) == Run(declared, Run(declared, s, a), b)
    decreases |a|
  {
    if a == [] {
      assert a + b == b;
    } else {
      assert (a + b)[1..] == a[1..] + b;
      RunAppend(declared, Step(declared, s, a[0]), a[1..], b);
    }
  }

  /** A reply that is 65536 ids old is taken for the answer to the current call. */
  lemma StaleReplyAccepted(declared: nat -> nat, request: Request, data: seq<byte>)
    requires |data| <= declared(request.function_) && HEADER_SIZE + |data| <= MAX_PACKET_SIZE
    ensures var s := Run(declared, START, StaleRun(request, data));
            s.outcomes == [Returned(U16 + 1, data)] && !Close(1, U16 + 1)
  {
    hide Run, Step, Calls, Executed1, SameButIssued;
    var es := Executed1(request, data);
    var tail := [StartCall(request), DeliverReply(Stale(data))];
    RunAppend(declared, START, es, Calls(request, U16 - 1) + tail);
    var s6 := Run(declared, START, es);
    FirstExecution(declared, request, data);
    AfterCalls(declared, s6, request, U16 - 1, tail);
    var t :| Run(declared, s6, Calls(request, U16 - 1) + tail) == Run(declared, t, tail)
             && SameButIssued(s6, t, U16 - 1);
    StaleEnd(declared, s6, t, request, data);
  }

  /** One more call, and the old reply arrives. */
  lemma StaleEnd(declared: nat -> nat, s: State, t: State, request: Request, data: seq<byte>)
    requires |s.issued| == 1 && s.replies == {Stale(data)} && s.waiting == None && s.outcomes == []
    requires SameButIssued(s, t, U16 - 1)
    ensures var r := Run(declared, t, [StartCall(request), DeliverReply(Stale(data))]);
            r.outcomes == [Returned(U16 + 1, data)]
  {
    var tail := [StartCall(request), DeliverReply(Stale(data))];
    var t1 := Step(declared, t, tail[0]);
    assert tail[1..] == [tail[1]] && [tail[1]][1..] == [];
    assert Run(declared, t, tail) == Run(declared, t1, [tail[1]]) == Step(declared, t1, tail[1]);
    assert t1.waiting == Some(U16 + 1) && Id(U16 + 1) == 1;
  }

  lemma FirstExecution(declared: nat -> nat, request: Request, data: seq<byte>)
    requires |data| <= declared(request.function_) && HEADER_SIZE + |data| <= MAX_PACKET_SIZE
    ensures var s := Run(declared, START, Executed1(request, data));
            |s.issued| == 1 && s.replies == {Stale(data)} && s.waiting == None && s.outcomes == []
  {
    hide Run, Step;
    FirstDispatched(declared, request, [Answering(0, SUCCESS, data)]);
    assert Executed1(request, data) == Dispatching(request) + [Answering(0, SUCCESS, data)];
    RunOne(declared, DispatchedState(declared, request), Answering(0, SUCCESS, data));
    FirstAnswered(declared, request, data);
  }

  function Dispatching(request: Request): seq<Event> {
    [StartService, SetClaimed(true), SendOnly(request), DeliverCall(CallPacket(1, 1, request)), Dispatch(true)]
  }

  function DispatchedState(declared: nat -> nat, request: Request): State {
    State([request], None, [], {CallPacket(1, 1, request)}, {}, true, true,
          Slot(true, 1, declared(request.function_)), Dispatched, [Acceptance(1, 1, request)], [], [])
  }

  lemma FirstDispatched(declared: nat -> nat, request: Request, es: seq<Event>)
    ensures Run(declared, START, Dispatching(request) + es) == Run(declared, DispatchedState(declared, request), es)
  {
    hide Run, Step;
    var all := Dispatching(request) + es;
    var s3 := SentState(request);
    FirstSent(declared, request);
    FirstAccepted(declared, request);
    RunSteps(declared, START, all[0], all[1], all[2], all[3..], s3);
    assert all == [all[0], all[1], all[2]] + all[3..];
    assert all[3..] == [all[3]] + ([all[4]] + es);
    RunCons(declared, s3, all[3], [all[4]] + es);
    RunCons(declared, Step(declared, s3, all[3]), all[4], es);
  }

  function SentState(request: Request): State {
    State([request], None, [], {CallPacket(1, 1, request)}, {}, true, true, EMPTY_SLOT, Idle, [], [], [])
  }

  lemma FirstSent(declared: nat -> nat, request: Request)
    ensures Step(declared, Step(declared, Step(declared, START, StartService), SetClaimed(true)), SendOnly(request))
         == SentState(request)
  {
    assert [] + [request] == [request] && {} + {CallPacket(1, 1, request)} == {CallPacket(1, 1, request)};
  }

  lemma FirstAccepted(declared: nat -> nat, request: Request)
    ensures Step(declared, Step(declared, SentState(request), DeliverCall(CallPacket(1, 1, request))), Dispatch(true))
         == DispatchedState(declared, request)
  {
    assert [] + [Acceptance(1, 1, request)] == [Acceptance(1, 1, request)];
  }

  lemma FirstAnswered(declared: nat -> nat, request: Request, data: seq<byte>)
    requires |data| <= declared(request.function_) && HEADER_SIZE + |data| <= MAX_PACKET_SIZE
    ensures var s := Step(declared, DispatchedState(declared, request), Answering(0, SUCCESS, data));
            |s.issued| == 1 && s.replies == {Stale(data)} && s.waiting == None && s.outcomes == []
  {
  }

  lemma RunCons(declared: nat -> nat, s: State, e: Event, es: seq<Event>)
    ensures Run(declared, s, [e] + es) == Run(declared, Step(declared, s, e), es)
  {
    assert ([e] + es)[1..] == es;
  }

  lemma RunOne(declared: nat -> nat, s: State, e: Event)
    ensures Run(declared, s, [e]) == Step(declared, s, e)
  {
    assert [e][1..] == [];
  }

  lemma RunSteps(declared: nat -> nat, s: State, a: Event, b: Event, c: Event, rest: seq<Event>, t: State)
    requires Step(declared, Step(declared, Step(declared, s, a), b), c) == t
    ensures Run(declared, s, [a, b, c] + rest) == Run(declared, t, rest)
  {
    assert ([a, b, c] + rest)[1..] == [b, c] + rest;
    assert ([b, c] + rest)[1..] == [c] + rest;
    assert ([c] + rest)[1..] == rest;
    var s1 := Step(declared, s, a);
    var s2 := Step(declared, s1, b);
    assert Run(declared, s, [a, b, c] + rest) == Run(declared, s1, [b, c] + rest);
    assert Run(declared, s1, [b, c] + rest) == Run(declared, s2, [c] + rest);
  }

  // ---------------------------------------------------------------- the worker's bound is sharp

  /** Up to the call that reuses the id, the service has been stopped while a worker was busy. */
  function Abandoned(request: Request): seq<Event> {
    [StartService, SetClaimed(true), SendOnly(request), DeliverCall(CallPacket(1, 1, request)), Dispatch(true),
     StopService]
  }

  /** The service is started again, accepts the new call, and the old worker answers. */
  function Revived(request: Request, data: seq<byte>): seq<Event> {
    [StartCall(request), StartService, DeliverCall(CallPacket(U16 + 1, 1, request)), Dispatch(true),
     Answering(0, SUCCESS, data), DeliverReply(Stale(data))]
  }

  lemma AfterAbandoned(declared: nat -> nat, request: Request)
    ensures var s := Run(declared, START, Abandoned(request));
            && |s.issued| == 1 && s.replies == {} && s.waiting == None && s.outcomes == [] && s.claimed
            && s.acceptances == [Acceptance(1, 1, request)] && s.slot == EMPTY_SLOT && s.phase == Idle
            && s.answers == []
  {
    hide Run;
    FirstDispatched(declared, request, [StopService]);
    assert Abandoned(request) == Dispatching(request) + [StopService];
    RunOne(declared, DispatchedState(declared, request), StopService);
  }

  /**
   Its worker must not outlive a stopped call by 65536 ids: although no reply at all is under way when the
   second request is sent, the call returns what was computed for the first.
   */
  lemma LateWorkerAnswers(declared: nat -> nat, first: Request, second: Request, data: seq<byte>)
    requires |data| <= declared(second.function_) && HEADER_SIZE + |data| <= MAX_PACKET_SIZE
    ensures var before := Run(declared, START, Abandoned(first) + Calls(first, U16 - 1));
            var s := Run(declared, before, Revived(second, data));
            && before.replies == {} && before.waiting.None?
            && s.outcomes == [Returned(U16 + 1, data)] && |s.issued| == U16 + 1 && s.issued[U16] == second
            && s.answers == [Answer(0, data)] && |s.acceptances| == 2 && s.acceptances[0].request == first
  {
    hide Run, Step, Calls, Abandoned, SameButIssued;
    var s6 := Run(declared, START, Abandoned(first));
    RunAppend(declared, START, Abandoned(first), Calls(first, U16 - 1));
    AfterAbandoned(declared, first);
    AfterCalls(declared, s6, first, U16 - 1, []);
    assert Calls(first, U16 - 1) + [] == Calls(first, U16 - 1);
    var t :| Run(declared, s6, Calls(first, U16 - 1) + []) == Run(declared, t, []) && SameButIssued(s6, t, U16 - 1);
    RunNothing(declared, t);
    LateWorkerEnd(declared, s6, t, first, second, data);
  }

  lemma RunNothing(declared: nat -> nat, s: State)
    ensures Run(declared, s, []) == s
  {
  }

  lemma LateWorkerEnd(declared: nat -> nat, s: State, t: State, first: Request, second: Request, data: seq<byte>)
    requires |data| <= declared(second.function_) && HEADER_SIZE + |data| <= MAX_PACKET_SIZE
    requires |s.issued| == 1 && s.replies == {} && s.waiting == None && s.outcomes == [] && s.claimed
    requires s.acceptances == [Acceptance(1, 1, first)] && s.slot == EMPTY_SLOT && s.phase == Idle && s.answers == []
    requires SameButIssued(s, t, U16 - 1)
    ensures t.replies == {} && t.waiting.None?
    ensures var r := Run(declared, t, Revived(second, data));
            && r.outcomes == [Returned(U16 + 1, data)] && |r.issued| == U16 + 1 && r.issued[U16] == second
            && r.answers == [Answer(0, data)] && |r.acceptances| == 2 && r.acceptances[0].request == first
  {
    hide Run;
    var es := Revived(second, data);
    var t3 := Step(declared, Step(declared, Step(declared, t, es[0]), es[1]), es[2]);
    SecondAccepted(declared, t, first, second, t3);
    var t6 := Step(declared, Step(declared, Step(declared, t3, es[3]), es[4]), es[5]);
    LateAnswer(declared, t3, first, second, data);
    RunSteps(declared, t, es[0], es[1], es[2], es[3..], t3);
    RunSteps(declared, t3, es[3], es[4], es[5], [], t6);
    RunNothing(declared, t6);
    assert es[3..] == [es[3], es[4], es[5]] + [];
    assert es == [es[0], es[1], es[2]] + es[3..];
  }

  predicate AcceptedAgain(s: State, first: Request, second: Request) {
    && s.slot == Slot(true, 1, 0) && s.phase == Accepted && s.waiting == Some(U16 + 1) && s.running && s.claimed
    && s.acceptances == [Acceptance(1, 1, first), Acceptance(U16 + 1, 1, second)]
    && s.replies == {} && s.answers == [] && s.outcomes == [] && |s.issued| == U16 + 1 && s.issued[U16] == second
  }

  lemma SecondAccepted(declared: nat -> nat, t: State, first: Request, second: Request, t3: State)
    requires |t.issued| == U16 && t.replies == {} && t.waiting == None && t.outcomes == [] && t.claimed
    requires t.acceptances == [Acceptance(1, 1, first)] && t.slot == EMPTY_SLOT && t.phase == Idle && t.answers == []
    requires t3 == Step(declared, Step(declared, Step(declared, t, StartCall(second)), StartService),
                        DeliverCall(CallPacket(U16 + 1, 1, second)))
    ensures AcceptedAgain(t3, first, second)
  {
    assert Id(U16 + 1) == 1;
  }

  lemma LateAnswer(declared: nat -> nat, s: State, first: Request, second: Request, data: seq<byte>)
    requires AcceptedAgain(s, first, second)
    requires |data| <= declared(second.function_) && HEADER_SIZE + |data| <= MAX_PACKET_SIZE
    ensures var r := Step(declared, Step(declared, Step(declared, s, Dispatch(true)), Answering(0, SUCCESS, data)),
                          DeliverReply(Stale(data)));
            && r.outcomes == [Returned(U16 + 1, data)] && |r.issued| == U16 + 1 && r.issued[U16] == second
            && r.answers == [Answer(0, data)] && |r.acceptances| == 2 && r.acceptances[0].request == first
  {
    var t4 := Step(declared, s, Dispatch(true));
    assert t4.slot == Slot(true, 1, declared(second.function_));
    var t5 := Step(declared, t4, Answering(0, SUCCESS, data));
    assert t5.replies == {Stale(data)};
  }
}
