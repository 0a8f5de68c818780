/** The sending side of a service: transactions in a scratch buffer that advertisements use as well. */
module ServiceOutput {
  import opened Wire
  import opened Framing
  import Advertisement

  /** What the interface makes of a packet: it takes a transaction as data only if the header says so. */
  function Received(p: Packet): Option<seq<Chunk>> {
    match Read(p)
    case None => None
    case Some(payload) =>
      if p.messageType == TRANSACTION && p.arg1 == 0 then Some(Parse(payload).chunks) else None
  }

  /** The chunks that still fit, in order, when `fill` bytes of the scratch buffer are taken. */
  function FirstFit(fill: nat, cs: seq<Chunk>): seq<Chunk>
    decreases |cs|
  {
    if cs == [] then []
    else if fill + |cs[0].data| + DESCRIPTOR_SIZE <= SCRATCH_SIZE
    then [cs[0]] + FirstFit(fill + |cs[0].data| + DESCRIPTOR_SIZE, cs[1..])
    else FirstFit(fill, cs[1..])
  }

  lemma {:induction false} FirstFitSnoc(fill: nat, cs: seq<Chunk>, c: Chunk)
    ensures FirstFit(fill, cs + [c])
         == FirstFit(fill, cs) + if fill + FramedSize(FirstFit(fill, cs)) + |c.data| + DESCRIPTOR_SIZE <= SCRATCH_SIZE
                                 then [c] else []
    decreases |cs|
  {
    if cs == [] {
      assert [] + [c] == [c] && [c][1..] == [];
    } else {
      assert (cs + [c])[1..] == cs[1..] + [c];
      var size := |cs[0].data| + DESCRIPTOR_SIZE;
      if fill + size <= SCRATCH_SIZE {
        FirstFitSnoc(fill + size, cs[1..], c);
        assert ([cs[0]] + FirstFit(fill + size, cs[1..]))[1..] == FirstFit(fill + size, cs[1..]);
      } else {
        FirstFitSnoc(fill, cs[1..], c);
      }
    }
  }

  /** The bytes are the beginning of an advertisement. */
  ghost predicate Overwritten(b: seq<byte>) {
    exists sid: nat :: sid < U16 && b == Advertisement.Beginning(sid)
  }

  /** Read as a descriptor, an advertisement announces more bytes than there can be. */
  lemma NothingParsedAfterAll(b: seq<byte>)
    requires DESCRIPTOR_SIZE <= |b| <= SCRATCH_SIZE && Overwritten(b[..8])
    ensures Parse(b) == Parsed([], 0)
  {
    assert b[4..8] == b[..8][4..8];
    assert SizeAt(b, 0) >= 0x64 + 0x100 * 0x19;
  }

  lemma {:induction false} FramedSizeSnoc(cs: seq<Chunk>, c: Chunk)
    ensures FramedSize(cs + [c]) == FramedSize(cs) + |c.data| + DESCRIPTOR_SIZE
    ensures FramedSize(cs) == 0 <==> cs == []
  {
    if cs == [] {
      assert [] + [c] == [c] && [c][1..] == [];
    } else {
      assert (cs + [c])[1..] == cs[1..] + [c];
      FramedSizeSnoc(cs[1..], c);
    }
  }

  lemma SameBeginning(before: seq<byte>, more: seq<byte>, all: seq<byte>)
    ensures |before| >= 8 && before + more <= all ==> all[..8] == before[..8]
  {
  }

  class ServiceSender {
    const scratch: array<byte>
    var fill: nat
    var started: bool
    var claimed: bool
    /** Fields of the one header that every packet is sent with. */
    var arg1: nat
    var arg2: nat
    /** What was handed to the socket. */
    var sent: seq<Packet>
    /** The chunks of the open transaction, and whether an advertisement has been written over them. */
    ghost var accepted: seq<Chunk>
    ghost var spoiled: bool

    ghost predicate Valid()
      reads this, scratch
    {
      && scratch.Length == SCRATCH_SIZE && fill <= SCRATCH_SIZE && AllEncodable(accepted)
      && (started ==>
            && fill == FramedSize(accepted)
            && if spoiled then fill >= DESCRIPTOR_SIZE && Overwritten(scratch[..8])
               else scratch[..fill] == Frame(accepted))
    }

    constructor ()
      ensures Valid() && fresh(scratch) && !started && !claimed && sent == []
    {
      scratch := new byte[SCRATCH_SIZE](_ => 0);
      fill, started, claimed, arg1, arg2, sent := 0, false, false, 0, 0, [];
      accepted, spoiled := [], false;
    }

    method FillHeader()
      modifies this`arg1, this`arg2
      ensures arg1 == arg2 == 0
    {
      arg1, arg2 := 0, 0;
    }

    method StartTransaction() returns (ok: bool)
      requires Valid()
      modifies this
      ensures Valid() && claimed == old(claimed) && sent == old(sent) && started
      ensures ok == !old(started)
      ensures if ok then accepted == [] && fill == 0 && !spoiled && arg1 == 0
              else accepted == old(accepted) && fill == old(fill) && spoiled == old(spoiled) && arg1 == old(arg1)
    {
      if started {
        return false;
      }
      FillHeader();
      fill, accepted, spoiled := 0, [], false;
      started := true;
      return true;
    }

    /** Appends to the open transaction, or sends a single DATA packet. */
    method SendData(id: nat, data: seq<byte>) returns (ok: bool)
      requires Valid() && id < U16
      modifies this, scratch
      ensures Valid() && claimed == old(claimed) && started == old(started) && spoiled == old(spoiled)
      ensures started ==> ok == (old(fill) + |data| + DESCRIPTOR_SIZE <= SCRATCH_SIZE)
      ensures started ==> sent == old(sent) && arg1 == old(arg1)
      ensures started ==> accepted == old(accepted) + (if ok then [Chunk(id, data)] else [])
      ensures started ==> fill == old(fill) + (if ok then |data| + DESCRIPTOR_SIZE else 0)
      ensures !started ==> ok == claimed && accepted == old(accepted)
      ensures !started ==> sent == old(sent) + (if ok then [DataPacket(id, data)] else [])
    {
      hide Frame, FrameOne, FramedSize, Overwritten;
      if started {
        if fill + |data| + DESCRIPTOR_SIZE <= SCRATCH_SIZE {
          ghost var before := scratch[..fill];
          Append(id, data);
          FrameAppend(accepted, Chunk(id, data));
          FramedSizeSnoc(accepted, Chunk(id, data));
          if spoiled {
            assert before[..8] == old(scratch[..8]) && scratch[..fill] <= scratch[..];
            SameBeginning(before, FrameOne(Chunk(id, data)), scratch[..]);
          }
          accepted := accepted + [Chunk(id, data)];
          return true;
        }
        return false;
      }
      if !claimed {
        return false;
      }
      FillHeader();
      arg2 := id;
      sent := sent + [DataPacket(id, data)];
      return true;
    }

    /** A descriptor and its data, behind what is there. */
    method Append(id: nat, data: seq<byte>)
      requires scratch.Length == SCRATCH_SIZE && id < U16 && fill + |data| + DESCRIPTOR_SIZE <= SCRATCH_SIZE
      modifies this`fill, scratch
      ensures fill == old(fill) + |data| + DESCRIPTOR_SIZE
      ensures scratch[..fill] == old(scratch[..fill]) + FrameOne(Chunk(id, data))
    {
      hide Descriptor;
      ghost var before := scratch[..fill];
      Write(fill, Descriptor(id, |data|));
      Write(fill + DESCRIPTOR_SIZE, data);
      Assoc(before, Descriptor(id, |data|), data);
      fill := fill + |data| + DESCRIPTOR_SIZE;
    }

    method Write(at: nat, bytes: seq<byte>)
      requires scratch.Length == SCRATCH_SIZE && at + |bytes| <= SCRATCH_SIZE
      modifies scratch
      ensures scratch[..at] == old(scratch[..at])
      ensures scratch[at..at + |bytes|] == bytes
      ensures scratch[..at + |bytes|] == old(scratch[..at]) + bytes
    {
      forall i | 0 <= i < |bytes| {
        scratch[at + i] := bytes[i];
      }
    }

    /** An advertisement in between: it is put together in the scratch buffer, whatever that holds. */
    method Advertise(sid: nat, address: Option<seq<byte>>, port: nat, desc: seq<byte>)
      requires Valid() && sid < U16 && port < U16 && SCRATCH_SIZE > 80 + |desc|
      modifies this`sent, this`spoiled, scratch
      ensures Valid() && spoiled == (old(spoiled) || accepted != [])
      ensures if address.Some? && |address.value| < 16 then
                var message := Advertisement.Message(sid, address.value, port, desc);
                sent == old(sent) + [Packet(OTHER, 0, 0, |message|, message)]
              else sent == old(sent)
    {
      hide Frame, Parse, Advertisement.Message;
      ghost var before := scratch[..fill];
      FramedSizeSnoc(accepted, Chunk(0, []));
      var ok, size := Advertisement.AdvertiseServiceImpl(scratch, sid, address, port, desc);
      if ok {
        sent := sent + [Packet(OTHER, 0, 0, size, scratch[..size])];
      }
      spoiled := spoiled || accepted != [];
      if started && accepted == [] {
        assert scratch[..fill] == before;
      }
      assert Overwritten(scratch[..8]);
    }

    /** Any other packet in between: a heartbeat, an acknowledgement, an answer to a call. */
    method Emit(arg1: nat, arg2: nat, data: seq<byte>)
      requires Valid() && HEADER_SIZE + |data| <= MAX_PACKET_SIZE
      modifies this`arg1, this`arg2, this`sent
      ensures Valid() && this.arg1 == arg1 && sent == old(sent) + [Packet(OTHER, arg1, arg2, |data|, data)]
    {
      FillHeader();
      this.arg1, this.arg2 := arg1, arg2;
      sent := sent + [Packet(OTHER, arg1, arg2, |data|, data)];
    }

    /**
     A commit ends the transaction even when nobody is there to receive it. It goes out with what the
     header and the buffer hold by then.
     */
    method CommitTransaction() returns (ok: bool)
      requires Valid()
      modifies this
      ensures Valid() && !started && claimed == old(claimed) && ok == claimed
      ensures sent == old(sent)
                      + if ok then [Packet(TRANSACTION, old(arg1), old(arg2), old(fill), scratch[..old(fill)])] else []
      ensures old(started) && ok ==>
                var p := sent[|sent| - 1];
                && PacketSize(p) <= MAX_PACKET_SIZE && Deliverable(p)
                && Received(p) == if old(arg1) != 0 then None else if old(spoiled) then Some([])
                                  else Some(old(accepted))
    {
      hide Frame, Read, ParseFrom, Overwritten;
      RoundTrip(accepted);
      if started && spoiled {
        assert scratch[..fill][..8] == scratch[..8];
        NothingParsedAfterAll(scratch[..fill]);
      }
      started := false;
      if !claimed {
        return false;
      }
      DeliverableIff(Packet(TRANSACTION, arg1, arg2, fill, scratch[..fill]));
      sent := sent + [Packet(TRANSACTION, arg1, arg2, fill, scratch[..fill])];
      return true;
    }
  }

  // ---------------------------------------------------------------- a whole transaction

  /** What the thread that holds the lock may do between start and commit. */
  datatype Action =
    | Send(chunk: Chunk)
    | Advertise(sid: nat, address: Option<seq<byte>>, port: nat, desc: seq<byte>)
    | Emit(arg1: nat, arg2: nat, data: seq<byte>)

  predicate Possible(a: Action) {
    match a
    case Send(chunk) => Encodable(chunk)
    case Advertise(sid, _, port, desc) => sid < U16 && port < U16 && SCRATCH_SIZE > 80 + |desc|
    case Emit(_, _, data) => HEADER_SIZE + |data| <= MAX_PACKET_SIZE
  }

  function Chunks(actions: seq<Action>): seq<Chunk>
    decreases |actions|
  {
    if actions == [] then []
    else
      var last := actions[|actions| - 1];
      Chunks(actions[..|actions| - 1]) + if last.Send? then [last.chunk] else []
  }

  /** The header field that the last packet in between has left. */
  function LastArg1(actions: seq<Action>): nat
    decreases |actions|
  {
    if actions == [] then 0
    else
      var last := actions[|actions| - 1];
      if last.Emit? then last.arg1 else LastArg1(actions[..|actions| - 1])
  }

  /** An advertisement comes after the first chunk that was accepted. */
  predicate Spoils(actions: seq<Action>)
    decreases |actions|
  {
    actions != [] &&
    var before, last := actions[..|actions| - 1], actions[|actions| - 1];
    Spoils(before) || (last.Advertise? && FirstFit(0, Chunks(before)) != [])
  }

  lemma Snoc(actions: seq<Action>, a: Action)
    ensures Chunks(actions + [a]) == Chunks(actions) + if a.Send? then [a.chunk] else []
    ensures LastArg1(actions + [a]) == if a.Emit? then a.arg1 else LastArg1(actions)
    ensures Spoils(actions + [a]) == (Spoils(actions) || (a.Advertise? && FirstFit(0, Chunks(actions)) != []))
  {
    assert (actions + [a])[..|actions|] == actions;
  }

  lemma NoActions()
    ensures Chunks([]) == [] && LastArg1([]) == 0 && !Spoils([]) && FirstFit(0, []) == [] && Selected([], []) == []
  {
  }

  lemma {:induction false} SpoiledIsNotEmpty(actions: seq<Action>)
    requires Spoils(actions)
    ensures FirstFit(0, Chunks(actions)) != []
    decreases |actions|
  {
    var before, last := actions[..|actions| - 1], actions[|actions| - 1];
    if Spoils(before) {
      SpoiledIsNotEmpty(before);
    }
    if last.Send? {
      FirstFitSnoc(0, Chunks(before), last.chunk);
    } else {
      assert Chunks(actions) == Chunks(before) + [] == Chunks(before);
    }
  }

  function Selected(cs: seq<Chunk>, flags: seq<bool>): (r: seq<Chunk>)
    requires |cs| == |flags|
  {
    if cs == [] then []
    else Selected(cs[..|cs| - 1], flags[..|cs| - 1]) + (if flags[|cs| - 1] then [cs[|cs| - 1]] else [])
  }

  lemma SelectedSnoc(cs: seq<Chunk>, flags: seq<bool>, c: Chunk, flag: bool)
    requires |cs| == |flags|
    ensures Selected(cs + [c], flags + [flag]) == Selected(cs, flags) + (if flag then [c] else [])
  {
    assert (cs + [c])[..|cs|] == cs && (flags + [flag])[..|cs|] == flags;
  }

  /**
   Start, any actions, commit. Each send is accepted exactly if it fits, and the receiver gets exactly the
   pairs that were accepted, in order, if and only if nothing was advertised after the first of them and
   the last other packet had a zero in its header; else it gets nothing.
   */
  method SendTransaction(s: ServiceSender, actions: seq<Action>) returns (results: seq<bool>, ok: bool)
    requires s.Valid() && !s.started && forall a :: a in actions ==> Possible(a)
    modifies s, s.scratch
    ensures s.Valid() && !s.started && ok == old(s.claimed)
    ensures |results| == |Chunks(actions)| && Selected(Chunks(actions), results) == FirstFit(0, Chunks(actions))
    ensures |s.sent| >= |old(s.sent)| + (if ok then 1 else 0) && s.sent[..|old(s.sent)|] == old(s.sent)
    ensures ok ==>
              var received := Received(s.sent[|s.sent| - 1]);
              && (received == Some(Selected(Chunks(actions), results)) <==> LastArg1(actions) == 0 && !Spoils(actions))
              && (received in {None, Some([]), Some(Selected(Chunks(actions), results))})
  {
    hide FirstFit, Selected, Chunks, LastArg1, Spoils, Received, Possible;
    NoActions();
    var started := s.StartTransaction();
    results := [];
    assert actions[..0] == [];
    for i := 0 to |actions|
      invariant s.Valid() && s.started && s.claimed == old(s.claimed)
      invariant |s.sent| >= |old(s.sent)| && s.sent[..|old(s.sent)|] == old(s.sent)
      invariant s.arg1 == LastArg1(actions[..i]) && s.spoiled == Spoils(actions[..i])
      invariant s.accepted == FirstFit(0, Chunks(actions[..i]))
      invariant |results| == |Chunks(actions[..i])| && Selected(Chunks(actions[..i]), results) == s.accepted
    {
      var a := actions[i];
      assert actions[..i + 1] == actions[..i] + [a];
      Snoc(actions[..i], a);
      var more := Perform(s, a, Chunks(actions[..i]), results);
      results := results + more;
    }
    assert actions[..|actions|] == actions;
    if s.spoiled {
      SpoiledIsNotEmpty(actions);
    }
    ok := s.CommitTransaction();
  }

  /** One action between start and commit. */
  method Perform(s: ServiceSender, a: Action, ghost cs: seq<Chunk>, ghost results: seq<bool>) returns (more: seq<bool>)
    requires s.Valid() && s.started && Possible(a) && s.accepted == FirstFit(0, cs)
    requires |results| == |cs| && Selected(cs, results) == s.accepted
    modifies s, s.scratch
    ensures s.Valid() && s.started && s.claimed == old(s.claimed)
    ensures |s.sent| >= |old(s.sent)| && s.sent[..|old(s.sent)|] == old(s.sent)
    ensures s.arg1 == if a.Emit? then a.arg1 else old(s.arg1)
    ensures s.spoiled == (old(s.spoiled) || (a.Advertise? && old(s.accepted) != []))
    ensures var cs' := cs + if a.Send? then [a.chunk] else [];
            && s.accepted == FirstFit(0, cs')
            && |results + more| == |cs'| && Selected(cs', results + more) == s.accepted
  {
    hide FirstFit, Selected, Frame, Overwritten, FramedSize, Read;
    assert cs + [] == cs && results + [] == results;
    match a
    case Send(c) =>
      FirstFitSnoc(0, cs, c);
      var r := s.SendData(c.id, c.data);
      SelectedSnoc(cs, results, c, r);
      more := [r];
    case Advertise(sid, address, port, desc) =>
      s.Advertise(sid, address, port, desc);
      more := [];
    case Emit(arg1, arg2, data) =>
      s.Emit(arg1, arg2, data);
      more := [];
  }

  /** For example: a call refused, or an advertisement sent, after the first accepted chunk. */
  lemma LostTransactions(c: Chunk, status: nat, id: nat, sid: nat, address: Option<seq<byte>>, port: nat,
                         desc: seq<byte>)
    requires |c.data| + DESCRIPTOR_SIZE <= SCRATCH_SIZE && status != 0
    ensures LastArg1([Send(c), Emit(status, id, [])]) != 0
    ensures Spoils([Send(c), Advertise(sid, address, port, desc)])
  {
    NoActions();
    Snoc([], Send(c));
    Snoc([Send(c)], Emit(status, id, []));
    Snoc([Send(c)], Advertise(sid, address, port, desc));
    assert [] + [Send(c)] == [Send(c)] && [] + [c] == [c];
    FirstFitSnoc(0, [], c);
    assert [Send(c)] + [Emit(status, id, [])] == [Send(c), Emit(status, id, [])];
    assert [Send(c)] + [Advertise(sid, address, port, desc)] == [Send(c), Advertise(sid, address, port, desc)];
  }
}
