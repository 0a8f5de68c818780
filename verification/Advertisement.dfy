/** The advertisement that the generated service writes byte by byte, and what it decodes to. */
module Advertisement {
  import opened Wire
  import opened Cbor

  /** The bytes of a literal. */
  function Ascii(s: string): (b: seq<byte>)
    ensures |b| == |s|
  {
    seq(|s|, i requires 0 <= i < |s| => s[i] as int % 256)
  }

  function Pair(n: nat): seq<byte>
    requires n < U16
  {
    [0x19, n / 256, n % 256]
  }

  function Key(s: string): seq<byte>
    requires |s| < 24
  {
    [0x60 + |s|] + Ascii(s)
  }

  /** The message, in the order of the code. */
  function Message(sid: nat, address: seq<byte>, port: nat, desc: seq<byte>): seq<byte>
    requires sid < U16 && port < U16 && |address| < 16
  {
    [0xA3] + (Key("sid") + (Pair(sid) + (Key("endpoint") + (Location(address, port, Key("desc") + desc)))))
  }

  function Location(address: seq<byte>, port: nat, tail: seq<byte>): seq<byte>
    requires port < U16 && |address| < 16
  {
    [0xA2] + (Key("ip") + ([0x60 + |address|] + (address + (Key("port") + (Pair(port) + tail)))))
  }

  function Endpoint(address: seq<byte>, port: nat): Item {
    Dict([Entry(Ascii("ip"), Text(address)), Entry(Ascii("port"), Int(port))])
  }

  function Advertised(sid: nat, address: seq<byte>, port: nat, desc: Item): Item {
    Dict([Entry(Ascii("sid"), Int(sid)), Entry(Ascii("endpoint"), Endpoint(address, port)), Entry(Ascii("desc"), desc)])
  }

  lemma KeyDecodes(s: string, tail: seq<byte>)
    requires |s| < 24
    ensures Decode(Key(s) + tail) == Some((Text(Ascii(s)), tail))
  {
    ShortText(Ascii(s), tail);
  }

  lemma ShortText(utf8: seq<byte>, tail: seq<byte>)
    requires |utf8| < 24
    ensures Decode([0x60 + |utf8|] + utf8 + tail) == Some((Text(utf8), tail))
    ensures Decode([0x60 + |utf8|] + (utf8 + tail)) == Some((Text(utf8), tail))
  {
    hide Decode;
    assert PutHead(3, |utf8|) == [0x60 + |utf8|] + [] == [0x60 + |utf8|];
    TextRoundTrip(utf8, tail);
    Assoc([0x60 + |utf8|], utf8, tail);
  }

  lemma PairDecodes(n: nat, tail: seq<byte>)
    requires n < U16
    ensures Decode(Pair(n) + tail) == Some((Int(n), tail))
  {
    TwoByteHead(0, n, tail);
  }

  lemma DictDecodes(k: nat, body: seq<byte>)
    requires k < 24 && DecodeEntries(k, body).Some?
    ensures Decode([0xA0 + k] + body) == Some((Dict(DecodeEntries(k, body).value.0), DecodeEntries(k, body).value.1))
  {
    hide Decode, DecodeEntries;
    assert PutHead(5, k) == [0xA0 + k] + [] == [0xA0 + k];
    HeadRoundTrip(5, k, body);
    DecodeOne([0xA0 + k] + body);
  }

  lemma NoMoreEntries(tail: seq<byte>)
    ensures DecodeEntries(0, tail) == Some(([], tail))
  {
  }

  lemma LocationDecodes(address: seq<byte>, port: nat, tail: seq<byte>)
    requires port < U16 && |address| < 16
    ensures Decode(Location(address, port, tail)) == Some((Endpoint(address, port), tail))
  {
    hide Decode, DecodeEntries, Key, Pair, Ascii;
    var t1 := Pair(port) + tail;
    var t2 := Key("port") + t1;
    var t3 := [0x60 + |address|] + (address + t2);
    var t4 := Key("ip") + t3;
    NoMoreEntries(tail);
    PairDecodes(port, tail);
    KeyDecodes("port", t1);
    DecodeMoreEntries(1, t2, Ascii("port"), t1, Int(port), tail);
    ShortText(address, t2);
    KeyDecodes("ip", t3);
    DecodeMoreEntries(2, t4, Ascii("ip"), t3, Text(address), t2);
    DictDecodes(2, t4);
    assert [Entry(Ascii("port"), Int(port))] + [] == [Entry(Ascii("port"), Int(port))];
    assert [Entry(Ascii("ip"), Text(address))] + [Entry(Ascii("port"), Int(port))]
        == [Entry(Ascii("ip"), Text(address)), Entry(Ascii("port"), Int(port))];
  }

  /** The message decodes to exactly the id, the endpoint and the description. */
  lemma MessageDecodes(sid: nat, address: seq<byte>, port: nat, desc: seq<byte>, item: Item)
    requires sid < U16 && port < U16 && |address| < 16
    requires Decode(desc) == Some((item, []))
    ensures Decode(Message(sid, address, port, desc)) == Some((Advertised(sid, address, port, item), []))
  {
    hide Decode, DecodeEntries, Key, Pair, Ascii, Location, Endpoint;
    var t1 := Key("desc") + desc;
    var t2 := Location(address, port, t1);
    var t3 := Key("endpoint") + t2;
    var t4 := Pair(sid) + t3;
    var t5 := Key("sid") + t4;
    NoMoreEntries([]);
    KeyDecodes("desc", desc);
    DecodeMoreEntries(1, t1, Ascii("desc"), desc, item, []);
    LocationDecodes(address, port, t1);
    KeyDecodes("endpoint", t2);
    DecodeMoreEntries(2, t3, Ascii("endpoint"), t2, Endpoint(address, port), t1);
    PairDecodes(sid, t3);
    KeyDecodes("sid", t4);
    DecodeMoreEntries(3, t5, Ascii("sid"), t4, Int(sid), t3);
    DictDecodes(3, t5);
    var e1, e2 := Entry(Ascii("sid"), Int(sid)), Entry(Ascii("endpoint"), Endpoint(address, port));
    var e3 := Entry(Ascii("desc"), item);
    assert [e3] + [] == [e3] && [e2] + [e3] == [e2, e3] && [e1] + [e2, e3] == [e1, e2, e3];
  }

  // ---------------------------------------------------------------- the code

  method Append(scratch: array<byte>, index: nat, bytes: seq<byte>) returns (index': nat)
    requires index + |bytes| <= scratch.Length
    modifies scratch
    ensures index' == index + |bytes| && scratch[..index'] == old(scratch[..index]) + bytes
  {
    forall i | 0 <= i < |bytes| {
      scratch[index + i] := bytes[i];
    }
    index' := index + |bytes|;
    assert scratch[..index] == old(scratch[..index]) && scratch[index..index'] == bytes;
    assert scratch[..index'] == scratch[..index] + scratch[index..index'];
  }

  /** What every message begins with, and what is written even when no address is known. */
  function Beginning(sid: nat): (b: seq<byte>)
    requires sid < U16
    ensures |b| == 8 && b[4] == 0x64 && b[5] == 0x19
  {
    assert Ascii("sid")[2] == 0x64;
    [0xA3] + Key("sid") + Pair(sid)
  }

  /** `address` is what the socket reports, if it reports anything. */
  method AdvertiseServiceImpl(scratch: array<byte>, sid: nat, address: Option<seq<byte>>, port: nat, desc: seq<byte>)
      returns (ok: bool, size: nat)
    requires scratch.Length == SCRATCH_SIZE && scratch.Length > 80 + |desc|
    requires sid < U16 && port < U16
    modifies scratch
    ensures ok == (address.Some? && |address.value| < 16)
    ensures ok ==> size == 35 + |address.value| + |desc| <= scratch.Length
                   && scratch[..size] == Message(sid, address.value, port, desc)
    ensures scratch[..8] == Beginning(sid)
  {
    hide Message, Key, Pair, Ascii;
    Sizes();
    var index := 0;
    index := Append(scratch, index, [0xA3]);
    index := Append(scratch, index, Key("sid"));
    index := Append(scratch, index, Pair(sid));
    assert scratch[..8] == Beginning(sid) by {
      assert [] + [0xA3] == [0xA3];
    }
    ghost var begun := scratch[..8];
    index := Append(scratch, index, Key("endpoint"));
    assert scratch[..17][..8] == begun;
    if address.None? || |address.value| >= 16 {
      return false, 0;
    }
    var ip := address.value;
    index := Append(scratch, index, [0xA2]);
    index := Append(scratch, index, Key("ip"));
    index := Append(scratch, index, [0x60 + |ip|]);
    index := Append(scratch, index, ip);
    index := Append(scratch, index, Key("port"));
    index := Append(scratch, index, Pair(port));
    index := Append(scratch, index, Key("desc"));
    index := Append(scratch, index, desc);
    Flatten(sid, ip, port, desc);
    Begins(sid, ip, port, desc);
    assert scratch[..index][..8] == scratch[..8];
    return true, index;
  }

  lemma Begins(sid: nat, ip: seq<byte>, port: nat, desc: seq<byte>)
    requires sid < U16 && port < U16 && |ip| < 16
    ensures |Message(sid, ip, port, desc)| >= 8 && Message(sid, ip, port, desc)[..8] == Beginning(sid)
  {
    hide Location, Ascii;
    Sizes();
  }

  lemma Sizes()
    ensures |Key("sid")| == 4 && |Key("endpoint")| == 9 && |Key("ip")| == 3 && |Key("port")| == 5 && |Key("desc")| == 5
    ensures forall n: nat :: n < U16 ==> |Pair(n)| == 3
  {
  }

  lemma Flatten(sid: nat, ip: seq<byte>, port: nat, desc: seq<byte>)
    requires sid < U16 && port < U16 && |ip| < 16
    ensures [] + [0xA3] + Key("sid") + Pair(sid) + Key("endpoint") + [0xA2] + Key("ip") + [0x60 + |ip|] + ip
            + Key("port") + Pair(port) + Key("desc") + desc
         == Message(sid, ip, port, desc)
  {
  }
}
