/** The service's half of the remote call protocol is what the service does. */
module ServiceCalls {
  import opened Wire
  import opened Lifecycle
  import Rpc

  function CallOf(slot: Rpc.Slot): Option<Pending> {
    if slot.inProgress then Some(Pending(slot.pendingId, slot.maxSize)) else None
  }

  /** What is put on the wire in reply to call `serial`. */
  function Packets(claimed: bool, serial: nat, replies: seq<Rpc.Reply>): set<Rpc.ReplyPacket> {
    if claimed then set i | 0 <= i < |replies| :: Rpc.ReplyPacket(serial, replies[i]) else {}
  }

  lemma OnePacket(serial: nat, r: Rpc.Reply)
    ensures Packets(true, serial, [r]) == {Rpc.ReplyPacket(serial, r)} && Packets(true, serial, []) == {}
  {
    assert Rpc.ReplyPacket(serial, [r][0]) in Packets(true, serial, [r]);
  }

  /** The steps of the protocol that one received call causes. */
  function Called(c: Setup, declared: nat -> nat, s: Rpc.State, call: Rpc.CallPacket, m: Message): Rpc.State {
    var t := Rpc.Step(declared, s, Rpc.DeliverCall(call));
    if t.phase.Accepted? then Rpc.Step(declared, t, Rpc.Dispatch(Executes(c, m))) else t
  }

  /** A call that arrives does in the protocol what it does to the service. */
  lemma CallMatches(c: Setup, declared: nat -> nat, s: Rpc.State, call: Rpc.CallPacket, e: Event)
    requires call in s.calls && !s.phase.Accepted?
    requires IsCall(e) && e.m.arg2 == call.id && e.m.arg1 == call.request.function_
    requires Executes(c, e.m) ==> declared(e.m.arg1) == c.functions[e.m.arg1].returnSize
    ensures var t, was := Called(c, declared, s, call, e.m), CallOf(s.slot);
            && !t.phase.Accepted? && t.running == RunsOn(c, s.running, e)
            && CallOf(t.slot) == CallOn(c, s.running, was, e)
            && t.replies == s.replies + Packets(s.claimed, call.serial, Replied(c, s.running, was, e))
            && |t.acceptances| == |s.acceptances| + if s.running && was.None? then 1 else 0
  {
    hide Executes, Packets;
    OnePacket(call.serial, Rpc.Reply(call.id, Rpc.BUSY, []));
    OnePacket(call.serial, Rpc.Reply(call.id, Rpc.ERROR, []));
    NoPackets(call.serial, Replied(c, s.running, CallOf(s.slot), e));
  }

  lemma NoPackets(serial: nat, replies: seq<Rpc.Reply>)
    ensures Packets(false, serial, replies) == {}
  {
  }

  /** So does an answer of a worker. */
  lemma AnswerMatches(c: Setup, declared: nat -> nat, s: Rpc.State, acceptance: nat, status: nat, data: seq<byte>)
    requires acceptance < |s.acceptances| && !s.phase.Accepted?
    ensures var a, was := s.acceptances[acceptance], CallOf(s.slot);
            var e, t := AnswerEvent(a.id, status, data), Rpc.Step(declared, s, Rpc.Answering(acceptance, status, data));
            && t.running == RunsOn(c, s.running, e) && CallOf(t.slot) == CallOn(c, s.running, was, e)
            && t.replies == s.replies + Packets(s.claimed, a.serial, Replied(c, s.running, was, e))
  {
    hide Packets;
    var a := s.acceptances[acceptance];
    OnePacket(a.serial, Rpc.Reply(a.id, Rpc.ERROR, []));
    OnePacket(a.serial, Rpc.Reply(a.id, status, data));
    NoPackets(a.serial, Replied(c, s.running, CallOf(s.slot), AnswerEvent(a.id, status, data)));
  }

  /** And whatever stops a running service ends its call. */
  lemma StopMatches(c: Setup, declared: nat -> nat, s: Rpc.State, e: Event)
    requires ValidClaim(e) || IsConfiguration(e)
    requires !s.phase.Accepted?
    ensures var t := Rpc.Step(declared, s, Rpc.StopService);
            && CallOf(t.slot) == CallOn(c, s.running, CallOf(s.slot), e) && t.replies == s.replies
            && Replied(c, s.running, CallOf(s.slot), e) == [] && !t.running
  {
  }
}
