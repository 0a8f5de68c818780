/**
 Descriptor framing: how transactions, configurations and RPC parameters are built and parsed.
 The four parse loops and the three builders of the repository share the functions `Frame` and
 `ParseFrom`.
 */
module Framing {
  import opened Wire

  const DESCRIPTOR_SIZE := 8

  datatype Chunk = Chunk(id: nat, data: seq<byte>)

  /** What fits the fields of a DataDescriptor. */
  predicate Encodable(c: Chunk) {
    c.id < U16 && |c.data| < U32
  }

  predicate AllEncodable(cs: seq<Chunk>) {
    forall i :: 0 <= i < |cs| ==> Encodable(cs[i])
  }

  /** Chunk `j` is the last one with its id. */
  predicate LastChunk(cs: seq<Chunk>, j: int, id: nat) {
    0 <= j < |cs| && cs[j].id == id && forall m :: j < m < |cs| ==> cs[m].id != id
  }

  function Descriptor(id: nat, size: nat): (s: seq<byte>)
    requires id < U16 && size < U32
    ensures |s| == DESCRIPTOR_SIZE
  {
    PutU16(id) + [0, 0] + PutU32(size)
  }

  function FrameOne(c: Chunk): (s: seq<byte>)
    requires Encodable(c)
    ensures |s| == DESCRIPTOR_SIZE + |c.data|
  {
    Descriptor(c.id, |c.data|) + c.data
  }

  function Frame(cs: seq<Chunk>): seq<byte>
    requires AllEncodable(cs)
  {
    if cs == [] then [] else FrameOne(cs[0]) + Frame(cs[1..])
  }

  lemma {:induction false} FrameAppend(cs: seq<Chunk>, c: Chunk)
    requires AllEncodable(cs) && Encodable(c)
    ensures Frame(cs + [c]) == Frame(cs) + FrameOne(c)
  {
    if cs == [] {
      assert [] + [c] == [c];
      assert [c][1..] == [];
      assert FrameOne(c) + [] == FrameOne(c);
    } else {
      assert (cs + [c])[1..] == cs[1..] + [c];
      FrameAppend(cs[1..], c);
      Assoc(FrameOne(cs[0]), Frame(cs[1..]), FrameOne(c));
    }
  }

  /** The chunks a parser hands over, and the position at which it stops. */
  datatype Parsed = Parsed(chunks: seq<Chunk>, end: nat)

  function IdAt(b: seq<byte>, pos: nat): nat
    requires pos + DESCRIPTOR_SIZE <= |b|
  {
    GetU16(b[pos..pos + 2])
  }

  function SizeAt(b: seq<byte>, pos: nat): nat
    requires pos + DESCRIPTOR_SIZE <= |b|
  {
    GetU32(b[pos + 4..pos + 8])
  }

  function ChunkAt(b: seq<byte>, pos: nat): (c: Chunk)
    requires HasChunk(b, pos)
    ensures Encodable(c)
  {
    Chunk(IdAt(b, pos), b[pos + DESCRIPTOR_SIZE..pos + DESCRIPTOR_SIZE + SizeAt(b, pos)])
  }

  predicate HasChunk(b: seq<byte>, pos: nat) {
    pos + DESCRIPTOR_SIZE <= |b| && pos + DESCRIPTOR_SIZE + SizeAt(b, pos) <= |b|
  }

  function After(b: seq<byte>, pos: nat): (next: nat)
    requires HasChunk(b, pos)
    ensures pos < next <= |b|
  {
    pos + DESCRIPTOR_SIZE + SizeAt(b, pos)
  }

  function ParseFrom(b: seq<byte>, pos: nat): (p: Parsed)
    requires pos <= |b|
    ensures pos <= p.end <= |b| && AllEncodable(p.chunks)
    decreases |b| - pos
  {
    if HasChunk(b, pos) then
      var rest := ParseFrom(b, After(b, pos));
      Parsed([ChunkAt(b, pos)] + rest.chunks, rest.end)
    else Parsed([], pos)
  }

  function Parse(b: seq<byte>): Parsed {
    ParseFrom(b, 0)
  }

  // ---------------------------------------------------------------- on the wire

  /** The bytes that the framing of some chunks takes. */
  function FramedSize(cs: seq<Chunk>): nat {
    if cs == [] then 0 else DESCRIPTOR_SIZE + |cs[0].data| + FramedSize(cs[1..])
  }

  lemma {:induction false} FrameLength(cs: seq<Chunk>)
    requires AllEncodable(cs)
    ensures |Frame(cs)| == FramedSize(cs)
  {
    if cs != [] {
      FrameLength(cs[1..]);
    }
  }

  /** The bytes of a descriptor: the id, two reserved bytes, the size; least significant bytes come first. */
  ghost predicate Describes(s: seq<byte>, id: nat, size: nat) {
    && |s| == DESCRIPTOR_SIZE
    && id == s[0] + 0x100 * (s[1] as int)
    && size == s[4] + 0x100 * (s[5] as int) + 0x1_0000 * (s[6] as int) + 0x100_0000 * (s[7] as int)
  }

  lemma DescriptorBytes(id: nat, size: nat)
    requires id < U16 && size < U32
    ensures Describes(Descriptor(id, size), id, size)
    ensures Descriptor(id, size)[2] == Descriptor(id, size)[3] == 0
  {
    LittleEndian(PutU32(size));
    assert Descriptor(id, size)[4..] == PutU32(size);
  }

  /** On the wire, chunk `i` follows the chunks before it: its descriptor, then its data. */
  lemma {:induction false} FrameBytes(cs: seq<Chunk>, i: nat)
    requires AllEncodable(cs) && i < |cs|
    ensures var at, size := FramedSize(cs[..i]), |cs[i].data|;
            && at + DESCRIPTOR_SIZE + size <= |Frame(cs)|
            && Describes(Frame(cs)[at..at + DESCRIPTOR_SIZE], cs[i].id, size)
            && Frame(cs)[at + 2] == Frame(cs)[at + 3] == 0
            && Frame(cs)[at + DESCRIPTOR_SIZE..at + DESCRIPTOR_SIZE + size] == cs[i].data
  {
    hide Descriptor, Describes;
    var head, tail := FrameOne(cs[0]), Frame(cs[1..]);
    if i == 0 {
      DescriptorBytes(cs[0].id, |cs[0].data|);
      assert (head + tail)[..|head|] == head;
      assert Frame(cs)[0..DESCRIPTOR_SIZE] == Descriptor(cs[0].id, |cs[0].data|);
    } else {
      FrameBytes(cs[1..], i - 1);
      assert cs[..i][1..] == cs[1..][..i - 1];
      var at, size := FramedSize(cs[1..][..i - 1]), |cs[i].data|;
      SliceBehind(head, tail, at, at + DESCRIPTOR_SIZE);
      SliceBehind(head, tail, at + DESCRIPTOR_SIZE, at + DESCRIPTOR_SIZE + size);
    }
  }

  /** A parser reads an id, a size and as many bytes, the reserved bytes whatever they are. */
  lemma ChunkBytes(b: seq<byte>, pos: nat)
    requires HasChunk(b, pos)
    ensures var c := ChunkAt(b, pos);
            && Describes(b[pos..pos + DESCRIPTOR_SIZE], c.id, |c.data|)
            && c.data == b[pos + DESCRIPTOR_SIZE..After(b, pos)]
  {
    LittleEndian(b[pos + 4..pos + 8]);
    assert b[pos..pos + 2] == [b[pos], b[pos + 1]];
  }

  lemma SliceBehind(head: seq<byte>, tail: seq<byte>, i: nat, j: nat)
    requires i <= j <= |tail|
    ensures (head + tail)[|head| + i..|head| + j] == tail[i..j]
  {
  }

  // ---------------------------------------------------------------- what parsing means

  /** `cs` are well-formed chunks lying back to back in `b[pos..end]`. */
  ghost predicate Tiles(b: seq<byte>, pos: nat, end: nat, cs: seq<Chunk>)
    decreases |cs|
  {
    if cs == [] then pos == end
    else HasChunk(b, pos) && ChunkAt(b, pos) == cs[0] && Tiles(b, After(b, pos), end, cs[1..])
  }

  /** The parser returns a well-formed prefix, and every well-formed prefix is a prefix of it. */
  lemma {:induction false} ParseIsLongest(b: seq<byte>, pos: nat, end: nat, cs: seq<Chunk>)
    requires pos <= |b|
    ensures Tiles(b, pos, ParseFrom(b, pos).end, ParseFrom(b, pos).chunks)
    ensures Tiles(b, pos, end, cs) ==> cs <= ParseFrom(b, pos).chunks
    decreases |b| - pos
  {
    var p := ParseFrom(b, pos);
    if HasChunk(b, pos) {
      var rest := ParseFrom(b, After(b, pos));
      assert p.chunks[1..] == rest.chunks;
      if cs == [] {
        ParseIsLongest(b, After(b, pos), end, []);
      } else {
        ParseIsLongest(b, After(b, pos), end, cs[1..]);
      }
    }
  }

  /** Parsing a frame, whatever precedes it, gives back its chunks and consumes all of it. */
  lemma {:induction false} ParseFrame(b: seq<byte>, pos: nat, cs: seq<Chunk>)
    requires AllEncodable(cs) && pos <= |b| && b[pos..] == Frame(cs)
    ensures ParseFrom(b, pos) == Parsed(cs, |b|)
    decreases |cs|
  {
    hide HasChunk, ChunkAt, After, FrameOne, ParseFrom, Frame;
    FrameUnfold(cs);
    if cs == [] {
      assert |b[pos..]| == 0;
      AtEnd(b, pos);
      ParseUnfold(b, pos);
    } else {
      FrameHead(b, pos, cs[0], Frame(cs[1..]));
      ParseFrame(b, After(b, pos), cs[1..]);
      ParseUnfold(b, pos);
      assert cs == [cs[0]] + cs[1..];
    }
  }

  lemma FrameUnfold(cs: seq<Chunk>)
    ensures AllEncodable(cs) ==> (if cs == [] then Frame(cs) == [] else Frame(cs) == FrameOne(cs[0]) + Frame(cs[1..]))
  {
  }

  lemma ParseUnfold(b: seq<byte>, pos: nat)
    requires pos <= |b|
    ensures if HasChunk(b, pos) then
              var rest := ParseFrom(b, After(b, pos));
              ParseFrom(b, pos) == Parsed([ChunkAt(b, pos)] + rest.chunks, rest.end)
            else ParseFrom(b, pos) == Parsed([], pos)
  {
  }

  lemma FrameHead(b: seq<byte>, pos: nat, c: Chunk, tail: seq<byte>)
    requires Encodable(c) && pos <= |b| && b[pos..] == FrameOne(c) + tail
    ensures HasChunk(b, pos) && ChunkAt(b, pos) == c && b[After(b, pos)..] == tail
  {
    hide PutU16, PutU32, GetU16, GetU32, FrameOne, Descriptor;
    FrameSlices(c, tail);
    Slice(b, pos, 0, 2);
    Slice(b, pos, 4, 8);
    Slice(b, pos, 8, 8 + |c.data|);
    Slice(b, pos, 8 + |c.data|, |b| - pos);
  }

  lemma Slice(b: seq<byte>, pos: nat, i: nat, j: nat)
    requires i <= j && pos + j <= |b|
    ensures b[pos..][i..j] == b[pos + i..pos + j]
    ensures pos + j == |b| ==> b[pos..][i..j] == b[pos..][i..] && b[pos + i..pos + j] == b[pos + i..]
  {
  }

  lemma FrameSlices(c: Chunk, tail: seq<byte>)
    requires Encodable(c)
    ensures var s := FrameOne(c) + tail;
            && s[0..2] == PutU16(c.id) && s[4..8] == PutU32(|c.data|)
            && s[8..8 + |c.data|] == c.data && s[8 + |c.data|..] == tail
  {
    hide PutU16, PutU32, GetU16, GetU32;
  }

  lemma RoundTrip(cs: seq<Chunk>)
    requires AllEncodable(cs)
    ensures Parse(Frame(cs)) == Parsed(cs, |Frame(cs)|)
  {
    ParseFrame(Frame(cs), 0, cs);
  }

  /** The reserved field of each of the next `n` descriptors is zero. */
  ghost predicate ReservedZero(b: seq<byte>, pos: nat, n: nat)
    decreases n
  {
    n == 0 || (HasChunk(b, pos) && b[pos + 2] == b[pos + 3] == 0 && ReservedZero(b, After(b, pos), n - 1))
  }

  /** Framing what was parsed gives the bytes back exactly when the reserved fields were zero. */
  lemma {:induction false} FrameParsed(b: seq<byte>, pos: nat)
    requires pos <= |b|
    ensures var p := ParseFrom(b, pos);
            && |Frame(p.chunks)| == p.end - pos
            && (Frame(p.chunks) == b[pos..p.end] <==> ReservedZero(b, pos, |p.chunks|))
    decreases |b| - pos
  {
    if HasChunk(b, pos) {
      var p, next := ParseFrom(b, pos), After(b, pos);
      FrameParsed(b, next);
      var rest := ParseFrom(b, next);
      assert p.chunks[1..] == rest.chunks;
      FrameChunkAt(b, pos);
      assert Frame(p.chunks) == FrameOne(ChunkAt(b, pos)) + Frame(rest.chunks);
      assert b[pos..p.end] == b[pos..next] + b[next..p.end];
      assert Frame(p.chunks)[..next - pos] == FrameOne(ChunkAt(b, pos));
      assert Frame(p.chunks)[next - pos..] == Frame(rest.chunks);
      assert b[pos..p.end][..next - pos] == b[pos..next];
      assert b[pos..p.end][next - pos..] == b[next..p.end];
    }
  }

  lemma FrameChunkAt(b: seq<byte>, pos: nat)
    requires HasChunk(b, pos)
    ensures FrameOne(ChunkAt(b, pos)) == b[pos..After(b, pos)] <==> b[pos + 2] == b[pos + 3] == 0
  {
    var c, s := ChunkAt(b, pos), b[pos..After(b, pos)];
    PutGetU16(b[pos..pos + 2]);
    PutGetU32(b[pos + 4..pos + 8]);
    assert s == b[pos..pos + 2] + [b[pos + 2], b[pos + 3]] + b[pos + 4..pos + 8] + c.data;
    assert FrameOne(c) == b[pos..pos + 2] + [0, 0] + b[pos + 4..pos + 8] + c.data;
    assert s[2] == b[pos + 2] && s[3] == b[pos + 3] && FrameOne(c)[2] == FrameOne(c)[3] == 0;
  }

  // ---------------------------------------------------------------- the parse loops

  lemma NothingParsed(payload: seq<byte>)
    ensures var p := Parse(payload); Parsed([] + ParseFrom(payload, 0).chunks, p.end) == p
  {
  }

  lemma AtEnd(b: seq<byte>, pos: nat)
    ensures pos + DESCRIPTOR_SIZE > |b| ==> !HasChunk(b, pos)
  {
  }

  /** What a loop sees behind a descriptor. */
  lemma Behind(b: seq<byte>, pos: nat)
    requires pos + DESCRIPTOR_SIZE <= |b|
    ensures HasChunk(b, pos) <==> pos + DESCRIPTOR_SIZE + SizeAt(b, pos) <= |b|
    ensures HasChunk(b, pos) ==>
              var next := pos + DESCRIPTOR_SIZE + SizeAt(b, pos);
              After(b, pos) == next && ChunkAt(b, pos) == Chunk(IdAt(b, pos), b[pos + DESCRIPTOR_SIZE..next])
  {
  }

  lemma Stop(payload: seq<byte>, pos: nat, cs: seq<Chunk>)
    requires pos <= |payload| && !HasChunk(payload, pos)
    ensures ParseFrom(payload, pos) == Parsed([], pos) && cs + [] == cs
  {
  }

  lemma Consume(payload: seq<byte>, pos: nat, cs: seq<Chunk>)
    requires pos <= |payload| && HasChunk(payload, pos)
    ensures var rest, next := ParseFrom(payload, pos), ParseFrom(payload, After(payload, pos));
            cs + rest.chunks == cs + [ChunkAt(payload, pos)] + next.chunks && rest.end == next.end
  {
  }

  /** The loop of the C++ service and of the C++ interface: check first, then advance. */
  method ParseTransaction(payload: seq<byte>) returns (chunks: seq<Chunk>, processed: nat)
    ensures Parsed(chunks, processed) == Parse(payload)
  {
    hide ParseFrom;
    chunks, processed := [], 0;
    NothingParsed(payload);
    while processed + DESCRIPTOR_SIZE <= |payload|
      invariant processed <= |payload|
      invariant var rest := ParseFrom(payload, processed);
                Parsed(chunks + rest.chunks, rest.end) == Parse(payload)
      decreases |payload| - processed
    {
      var size := SizeAt(payload, processed);
      if processed + DESCRIPTOR_SIZE + size <= |payload| {
        Consume(payload, processed, chunks);
        chunks := chunks + [ChunkAt(payload, processed)];
      } else {
        break;
      }
      processed := processed + size + DESCRIPTOR_SIZE;
    }
    Stop(payload, processed, chunks);
  }

  /** The loop of the Python client: step over the descriptor, then check its size. */
  method HandleTransactionPython(payload: seq<byte>) returns (chunks: seq<Chunk>)
    ensures chunks == Parse(payload).chunks
  {
    hide ParseFrom, Parse, HasChunk, ChunkAt, After, IdAt, SizeAt;
    chunks := [];
    var offset := 0;
    NothingParsed(payload);
    while offset + DESCRIPTOR_SIZE <= |payload|
      invariant offset <= |payload|
      invariant chunks + ParseFrom(payload, offset).chunks == Parse(payload).chunks
      decreases |payload| - offset
    {
      ghost var start := offset;
      var id, size := IdAt(payload, offset), SizeAt(payload, offset);
      Behind(payload, start);
      offset := offset + DESCRIPTOR_SIZE;
      if offset + size > |payload| {
        Stop(payload, start, chunks);
        return;
      }
      Consume(payload, start, chunks);
      chunks := chunks + [Chunk(id, payload[offset..offset + size])];
      offset := offset + size;
    }
    AtEnd(payload, offset);
    Stop(payload, offset, chunks);
  }

  // ---------------------------------------------------------------- the builders

  /** The append loop of the Go client (transactions and RPC parameters) and of the Python client. */
  method BuildPayload(chunks: seq<Chunk>) returns (body: seq<byte>)
    requires AllEncodable(chunks)
    ensures body == Frame(chunks)
  {
    body := [];
    for i := 0 to |chunks|
      invariant body == Frame(chunks[..i])
    {
      FrameAppend(chunks[..i], chunks[i]);
      assert chunks[..i + 1] == chunks[..i] + [chunks[i]];
      Assoc(body, Descriptor(chunks[i].id, |chunks[i].data|), chunks[i].data);
      body := body + Descriptor(chunks[i].id, |chunks[i].data|);
      body := body + chunks[i].data;
    }
    assert chunks[..|chunks|] == chunks;
  }

  /** A transmitted packet: the header fields that matter here, and the bytes after the header. */
  datatype Packet = Packet(messageType: MessageType, arg1: nat, arg2: nat, payloadSize: nat, payload: seq<byte>)

  function PacketSize(p: Packet): nat {
    HEADER_SIZE + |p.payload|
  }

  /**
   What a receiver gets: it reads at most one packet buffer, the rest of the datagram is cut off, and a
   packet whose size is then not the one in its header is dropped.
   */
  function Read(p: Packet): Option<seq<byte>> {
    var arrived := p.payload[..Min(PacketSize(p), MAX_PACKET_SIZE) - HEADER_SIZE];
    if |arrived| == p.payloadSize then Some(arrived) else None
  }

  /** The packet arrives as it was sent. */
  predicate Deliverable(p: Packet) {
    Read(p) == Some(p.payload)
  }

  /** A packet that says how long it is arrives whole if it fits the buffer, and else not at all. */
  lemma DeliverableIff(p: Packet)
    requires p.payloadSize == |p.payload|
    ensures Deliverable(p) <==> PacketSize(p) <= MAX_PACKET_SIZE
    ensures !Deliverable(p) ==> Read(p).None?
  {
    if PacketSize(p) <= MAX_PACKET_SIZE {
      assert p.payload[..|p.payload|] == p.payload;
    }
  }

  /** Data that does not fit a packet is not appended to it, without notice. */
  function DataPacket(id: nat, data: seq<byte>): Packet {
    Packet(DATA, 0, id, |data|, if HEADER_SIZE + |data| <= MAX_PACKET_SIZE then data else [])
  }

  /** So a single value arrives if and only if it fits. */
  lemma DataPacketDeliverable(id: nat, data: seq<byte>)
    ensures Deliverable(DataPacket(id, data)) <==> HEADER_SIZE + |data| <= MAX_PACKET_SIZE
    ensures Deliverable(DataPacket(id, data)) ==> DataPacket(id, data).payload == data
    ensures PacketSize(DataPacket(id, data)) <= MAX_PACKET_SIZE
  {
    if HEADER_SIZE + |data| <= MAX_PACKET_SIZE {
      DeliverableIff(DataPacket(id, data));
    }
  }

  /** The sending side of an interface: a growing buffer, and no mix of configuration and data. */
  class InterfaceSender {
    var buffer: seq<byte>
    var started: bool
    var isConfiguration: bool
    var discovered: bool
    var sent: seq<Packet>
    ghost var accepted: seq<Chunk>

    ghost predicate Valid()
      reads this
    {
      AllEncodable(accepted) && (started ==> buffer == Frame(accepted))
    }

    constructor ()
      ensures Valid() && !started && !discovered && sent == []
    {
      buffer, started, isConfiguration, discovered, sent, accepted := [], false, false, false, [], [];
    }

    method StartTransaction(configuration: bool) returns (ok: bool)
      requires Valid()
      modifies this
      ensures Valid() && started && discovered == old(discovered) && sent == old(sent)
      ensures ok == !old(started)
      ensures if ok then isConfiguration == configuration && accepted == []
              else isConfiguration == old(isConfiguration) && accepted == old(accepted) && buffer == old(buffer)
    {
      if started {
        return false;
      }
      started := true;
      isConfiguration := configuration;
      buffer, accepted := [], [];
      return true;
    }

    method SendData(id: nat, data: seq<byte>, configuration: bool) returns (ok: bool)
      requires Valid() && Encodable(Chunk(id, data))
      modifies this
      ensures Valid() && started == old(started) && discovered == old(discovered)
      ensures isConfiguration == old(isConfiguration)
      ensures ok == (discovered && if started then configuration == isConfiguration else !configuration)
      ensures started ==> sent == old(sent) && accepted == old(accepted) + (if ok then [Chunk(id, data)] else [])
      ensures !started ==> sent == old(sent) + (if ok then [Packet(DATA, 0, id, |data|, data)] else [])
      ensures !started && ok ==>
                Read(sent[|sent| - 1]) == if HEADER_SIZE + |data| <= MAX_PACKET_SIZE then Some(data) else None
    {
      DeliverableIff(Packet(DATA, 0, id, |data|, data));
      if !discovered {
        return false;
      }
      if started {
        if configuration != isConfiguration {
          return false;
        }
        FrameAppend(accepted, Chunk(id, data));
        Assoc(buffer, Descriptor(id, |data|), data);
        buffer := buffer + Descriptor(id, |data|) + data;
        accepted := accepted + [Chunk(id, data)];
        return true;
      }
      if configuration {
        return false;
      }
      buffer := data;
      sent := sent + [Packet(DATA, 0, id, |data|, data)];
      return true;
    }

    /** The buffer grows without limit: what arrives is the whole transaction if it fits, and else nothing. */
    method CommitTransaction() returns (ok: bool)
      requires Valid()
      modifies this
      ensures Valid() && !started && discovered == old(discovered)
      ensures ok == (old(started) && discovered)
      ensures !ok ==> sent == old(sent)
      ensures ok ==>
                && |sent| == |old(sent)| + 1 && sent[..|old(sent)|] == old(sent)
                && var p := sent[|sent| - 1];
                   && p.messageType == TRANSACTION && p.arg1 == (if old(isConfiguration) then 1 else 0)
                   && PacketSize(p) == HEADER_SIZE + FramedSize(old(accepted))
                   && if FramedSize(old(accepted)) <= SCRATCH_SIZE
                      then Deliverable(p) && Parse(p.payload) == Parsed(old(accepted), |p.payload|)
                      else Read(p).None?
    {
      if !started {
        return false;
      }
      RoundTrip(accepted);
      FrameLength(accepted);
      DeliverableIff(Packet(TRANSACTION, if isConfiguration then 1 else 0, 0, |buffer|, buffer));
      started := false;
      if !discovered {
        return false;
      }
      sent := sent + [Packet(TRANSACTION, if isConfiguration then 1 else 0, 0, |buffer|, buffer)];
      return true;
    }
  }

  /**
   Start, any sends of the same kind, commit: every call succeeds if the service is known, whatever the
   size, but the service gets the chunks if and only if they fit one packet.
   */
  method SendThroughInterface(s: InterfaceSender, chunks: seq<Chunk>, configuration: bool)
      returns (results: seq<bool>, ok: bool)
    requires s.Valid() && !s.started && AllEncodable(chunks)
    modifies s
    ensures ok == old(s.discovered) && |results| == |chunks| && forall i :: 0 <= i < |chunks| ==> results[i] == ok
    ensures !ok ==> s.sent == old(s.sent)
    ensures ok ==>
              && |s.sent| == |old(s.sent)| + 1 && s.sent[..|old(s.sent)|] == old(s.sent)
              && var received := Read(s.sent[|old(s.sent)|]);
                 && (received.Some? <==> FramedSize(chunks) <= SCRATCH_SIZE)
                 && (received.Some? ==> Parse(received.value) == Parsed(chunks, |received.value|))
                 && PacketSize(s.sent[|old(s.sent)|]) == HEADER_SIZE + FramedSize(chunks)
  {
    hide Frame, ParseFrom, FramedSize, Read;
    ok := s.StartTransaction(configuration);
    results := [];
    for i := 0 to |chunks|
      invariant s.Valid() && s.started && s.isConfiguration == configuration
      invariant s.discovered == old(s.discovered) && s.sent == old(s.sent)
      invariant |results| == i && forall j :: 0 <= j < i ==> results[j] == s.discovered
      invariant s.accepted == if s.discovered then chunks[..i] else []
    {
      var r := s.SendData(chunks[i].id, chunks[i].data, configuration);
      assert chunks[..i + 1] == chunks[..i] + [chunks[i]];
      results := results + [r];
    }
    assert chunks[..|chunks|] == chunks;
    ok := s.CommitTransaction();
  }

  /** For example: two values of 1000 bytes are lost without notice. */
  method OversizedConfiguration(s: InterfaceSender, first: seq<byte>, second: seq<byte>)
    requires s.Valid() && !s.started && s.discovered && |first| == |second| == 1000
    modifies s
    ensures |s.sent| == |old(s.sent)| + 1
    ensures PacketSize(s.sent[|old(s.sent)|]) == 2040 && Read(s.sent[|old(s.sent)|]).None?
  {
    var chunks := [Chunk(0, first), Chunk(1, second)];
    assert chunks[1..] == [Chunk(1, second)] && FramedSize(chunks[1..]) == 1008;
    var results, ok := SendThroughInterface(s, chunks, true);
  }
}
