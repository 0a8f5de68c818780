/** Bytes, little-endian integers and the optional type that every other module uses. */
module Wire {
  type byte = x: int | 0 <= x < 256

  const U16: int := 0x1_0000
  const U32: int := 0x1_0000_0000

  /** A header is 24 bytes, a packet fits one Ethernet frame, and the scratch buffer holds its payload. */
  const HEADER_SIZE := 24
  const MAX_PACKET_SIZE := 1472
  const SCRATCH_SIZE := 1448

  /** Times are in microseconds. */
  const HEARTBEAT_JITTER := 100_000
  const DEFAULT_HEARTBEAT := 1_000_000

  /** The types of messages that matter here. */
  datatype MessageType = DATA | CLAIM | TRANSACTION | RPC_CALL | DESCRIPTION_REQUEST | DESCRIPTION_PART | OTHER

  datatype Option<+T> = None | Some(value: T)

  function Min(a: int, b: int): int {
    if a < b then a else b
  }

  /** Packed little-endian encodings of uint16_t and uint32_t fields. */
  function PutU16(v: nat): (s: seq<byte>)
    requires v < U16
    ensures |s| == 2 && GetU16(s) == v
  {
    [v % 256, v / 256]
  }

  function GetU16(s: seq<byte>): (v: nat)
    requires |s| == 2
    ensures v < U16
  {
    (s[0] as int) + 256 * (s[1] as int)
  }

  function PutU32(v: nat): (s: seq<byte>)
    requires v < U32
    ensures |s| == 4 && GetU32(s) == v
  {
    PutU16(v % U16) + PutU16(v / U16)
  }

  function GetU32(s: seq<byte>): (v: nat)
    requires |s| == 4
    ensures v < U32
  {
    GetU16(s[..2]) + U16 * GetU16(s[2..])
  }

  /** The least significant byte comes first. */
  lemma LittleEndian(s: seq<byte>)
    requires |s| == 4
    ensures GetU32(s) == s[0] + 0x100 * (s[1] as int) + 0x1_0000 * (s[2] as int) + 0x100_0000 * (s[3] as int)
    ensures GetU16(s[..2]) == s[0] + 0x100 * (s[1] as int)
  {
    assert s[..2] == [s[0], s[1]] && s[2..] == [s[2], s[3]];
  }

  lemma PutGetU16(s: seq<byte>)
    requires |s| == 2
    ensures PutU16(GetU16(s)) == s
  {
    assert GetU16(s) % 256 == s[0] && GetU16(s) / 256 == s[1];
  }

  lemma PutGetU32(s: seq<byte>)
    requires |s| == 4
    ensures PutU32(GetU32(s)) == s
  {
    PutGetU16(s[..2]);
    PutGetU16(s[2..]);
    assert GetU32(s) % U16 == GetU16(s[..2]) && GetU32(s) / U16 == GetU16(s[2..]);
    assert s == s[..2] + s[2..];
  }

  lemma Assoc<T>(a: seq<T>, b: seq<T>, c: seq<T>)
    ensures (a + b) + c == a + (b + c)
  {
  }
}
