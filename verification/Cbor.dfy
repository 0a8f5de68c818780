/** The part of RFC 8949 that a service description needs: encoding, decoding, and their round trip. */
module Cbor {
  import opened Wire

  /** A JSON-like value; text is UTF-8 bytes, a float its 64 bits. */
  datatype Item =
    | Int(n: int)
    | Text(utf8: seq<byte>)
    | List(items: seq<Item>)
    | Dict(entries: seq<Entry>)
    | Simple(code: nat)
    | Float(bits: nat)

  datatype Entry = Entry(key: seq<byte>, value: Item)

  // ---------------------------------------------------------------- big-endian integers

  function Pow256(k: nat): (p: nat)
    ensures p > 0
  {
    if k == 0 then 1 else 256 * Pow256(k - 1)
  }

  function PutBE(n: nat, k: nat): (s: seq<byte>)
    ensures |s| == k
  {
    if k == 0 then [] else PutBE(n / 256, k - 1) + [n % 256]
  }

  function GetBE(s: seq<byte>): nat {
    if s == [] then 0 else 256 * GetBE(s[..|s| - 1]) + s[|s| - 1]
  }

  lemma {:induction false} PutGetBE(n: nat, k: nat)
    requires n < Pow256(k)
    ensures GetBE(PutBE(n, k)) == n
  {
    if k > 0 {
      PutGetBE(n / 256, k - 1);
      assert PutBE(n, k)[..k - 1] == PutBE(n / 256, k - 1);
    }
  }

  // ---------------------------------------------------------------- section 3: the head

  const LIMIT: int := 0x1_0000_0000_0000_0000

  /** How many bytes follow the initial byte for additional information `info`. */
  function Extra(info: nat): nat {
    match info
    case 24 => 1
    case 25 => 2
    case 26 => 4
    case 27 => 8
    case _ => 0
  }

  /** The shortest head for argument `n`. */
  function InfoFor(n: nat): nat {
    if n < 24 then n else if n < 256 then 24 else if n < U16 then 25 else if n < U32 then 26 else 27
  }

  function PutHead(major: nat, n: nat): (s: seq<byte>)
    requires major < 8 && n < LIMIT
    ensures |s| > 0
  {
    [32 * major + InfoFor(n)] + PutBE(n, Extra(InfoFor(n)))
  }

  datatype Head = Head(major: nat, info: nat, n: nat, rest: seq<byte>)

  /** Reserved and indefinite lengths are not decoded. */
  function GetHead(b: seq<byte>): (r: Option<Head>)
    ensures r.Some? ==> |r.value.rest| < |b| && r.value.major < 8
  {
    if b == [] then None
    else
      var major, info := b[0] / 32, b[0] % 32;
      if info >= 28 || |b| < 1 + Extra(info) then None
      else
        var n := if info < 24 then info else GetBE(b[1..1 + Extra(info)]);
        Some(Head(major, info, n, b[1 + Extra(info)..]))
  }

  lemma Pow256Values()
    ensures Pow256(1) == 256 && Pow256(2) == U16 && Pow256(4) == U32 && Pow256(8) == LIMIT
  {
    assert Pow256(3) == 256 * U16;
    assert Pow256(5) == 256 * U32;
    assert Pow256(6) == U16 * U32;
    assert Pow256(7) == 256 * U16 * U32;
  }

  lemma Infos(n: nat)
    requires n < LIMIT
    ensures n >= 24 ==> n < Pow256(Extra(InfoFor(n)))
    ensures if n < 24 then InfoFor(n) == n && Extra(n) == 0 else 24 <= InfoFor(n) < 28
  {
    Pow256Values();
  }

  lemma HeadRoundTrip(major: nat, n: nat, tail: seq<byte>)
    requires major < 8 && n < LIMIT
    ensures GetHead(PutHead(major, n) + tail) == Some(Head(major, InfoFor(n), n, tail))
  {
    hide PutBE, GetBE, Pow256, Extra, InfoFor;
    var b := PutHead(major, n) + tail;
    var k := Extra(InfoFor(n));
    Infos(n);
    assert b[1..1 + k] == PutBE(n, k) && b[1 + k..] == tail;
    assert b[0] / 32 == major && b[0] % 32 == InfoFor(n);
    if n >= 24 {
      PutGetBE(n, k);
    }
  }

  /** A two-byte argument decodes the same whether or not it would fit a shorter head. */
  lemma TwoByteHead(major: nat, n: nat, tail: seq<byte>)
    requires major < 8 && n < U16
    ensures GetHead([32 * major + 25, n / 256, n % 256] + tail) == Some(Head(major, 25, n, tail))
  {
    var b: seq<byte> := [32 * major + 25, n / 256, n % 256] + tail;
    assert b[1..3] == [n / 256, n % 256] && b[3..] == tail;
    assert b[1..3][..1] == [n / 256] && GetBE([n / 256]) == n / 256;
  }

  /** The major type is in the top three bits; the argument takes as few bytes as it can, highest first. */
  lemma HeadBytes(major: nat, n: nat)
    requires major < 8 && n < LIMIT
    ensures PutHead(major, n)[0] / 32 == major
    ensures n < 24 ==> PutHead(major, n) == [32 * major + n]
    ensures 24 <= n < 0x100 ==> PutHead(major, n) == [32 * major + 24, n]
    ensures 0x100 <= n < 0x1_0000 ==> PutHead(major, n) == [32 * major + 25, n / 0x100, n % 0x100]
    ensures 0x1_0000 <= n < 0x1_0000_0000 ==>
              PutHead(major, n)
              == [32 * major + 26, n / 0x100_0000, n / 0x1_0000 % 0x100, n / 0x100 % 0x100, n % 0x100]
    ensures n >= 0x1_0000_0000 ==> |PutHead(major, n)| == 9 && PutHead(major, n)[0] == 32 * major + 27
  {
    if 24 <= n < 0x100 {
      PutOne(n);
    } else if 0x100 <= n < 0x1_0000 {
      PutTwo(n);
    } else if 0x1_0000 <= n < 0x1_0000_0000 {
      PutTwo(n / 0x1_0000);
      PutTwo(n);
      assert PutBE(n, 4) == PutBE(n / 0x100 / 0x100, 2) + [n / 0x100 % 0x100] + [n % 0x100];
    }
  }

  lemma PutOne(n: nat)
    ensures n < 0x100 ==> PutBE(n, 1) == [n]
  {
    if n < 0x100 {
      assert PutBE(n / 256, 0) == [];
    }
  }

  lemma PutTwo(n: nat)
    ensures n < 0x1_0000 ==> PutBE(n, 2) == [n / 0x100, n % 0x100]
  {
    if n < 0x1_0000 {
      PutOne(n / 0x100);
    }
  }

  // ---------------------------------------------------------------- section 3.1: items

  predicate Encodable(item: Item)
    decreases item
  {
    match item
    case Int(n) => -LIMIT <= n < LIMIT
    case Text(utf8) => |utf8| < LIMIT
    case List(items) => |items| < LIMIT && forall i :: 0 <= i < |items| ==> Encodable(items[i])
    case Dict(entries) => |entries| < LIMIT && EncodableEntries(entries)
    case Simple(code) => code < 24
    case Float(bits) => bits < LIMIT
  }

  predicate EncodableEntries(entries: seq<Entry>)
    decreases entries
  {
    forall i :: 0 <= i < |entries| ==> |entries[i].key| < LIMIT && Encodable(entries[i].value)
  }

  function Encode(item: Item): (s: seq<byte>)
    requires Encodable(item)
    ensures |s| > 0
    decreases item
  {
    match item
    case Int(n) => if n >= 0 then PutHead(0, n) else PutHead(1, -1 - n)
    case Text(utf8) => PutHead(3, |utf8|) + utf8
    case List(items) => PutHead(4, |items|) + EncodeItems(items)
    case Dict(entries) => PutHead(5, |entries|) + EncodeEntries(entries)
    case Simple(code) => [0xE0 + code]
    case Float(bits) => [0xFB] + PutBE(bits, 8)
  }

  function EncodeItems(items: seq<Item>): seq<byte>
    requires forall i :: 0 <= i < |items| ==> Encodable(items[i])
    decreases items
  {
    if items == [] then [] else Encode(items[0]) + EncodeItems(items[1..])
  }

  function EncodeEntries(entries: seq<Entry>): seq<byte>
    requires EncodableEntries(entries)
    decreases entries
  {
    if entries == [] then []
    else PutHead(3, |entries[0].key|) + entries[0].key + Encode(entries[0].value) + EncodeEntries(entries[1..])
  }

  /** One item, and the bytes after it. */
  function Decode(b: seq<byte>): (r: Option<(Item, seq<byte>)>)
    ensures r.Some? ==> |r.value.1| < |b|
    decreases |b|, 0
  {
    var head := GetHead(b);
    if head.None? then None
    else
      var Head(major, info, n, rest) := head.value;
      match major
      case 0 => Some((Int(n), rest))
      case 1 => Some((Int(-1 - n), rest))
      case 3 => if |rest| < n then None else Some((Text(rest[..n]), rest[n..]))
      case 4 => (match DecodeItems(n, rest)
                 case None => None
                 case Some((items, rest')) => Some((List(items), rest')))
      case 5 => (match DecodeEntries(n, rest)
                 case None => None
                 case Some((entries, rest')) => Some((Dict(entries), rest')))
      case 7 => if info < 24 then Some((Simple(n), rest)) else if info == 27 then Some((Float(n), rest)) else None
      case _ => None
  }

  function DecodeItems(k: nat, b: seq<byte>): (r: Option<(seq<Item>, seq<byte>)>)
    ensures r.Some? ==> |r.value.1| <= |b|
    decreases |b|, k + 1
  {
    if k == 0 then Some(([], b))
    else
      var first := Decode(b);
      if first.None? then None
      else
        match DecodeItems(k - 1, first.value.1)
        case None => None
        case Some((items, rest)) => Some(([first.value.0] + items, rest))
  }

  /** Keys are text. */
  function DecodeEntries(k: nat, b: seq<byte>): (r: Option<(seq<Entry>, seq<byte>)>)
    ensures r.Some? ==> |r.value.1| <= |b|
    decreases |b|, k + 1
  {
    if k == 0 then Some(([], b))
    else
      var key := Decode(b);
      if key.None? || !key.value.0.Text? then None
      else
        var value := Decode(key.value.1);
        if value.None? then None
        else
          match DecodeEntries(k - 1, value.value.1)
          case None => None
          case Some((entries, rest)) => Some(([Entry(key.value.0.utf8, value.value.0)] + entries, rest))
  }

  lemma DecodeOne(b: seq<byte>)
    requires GetHead(b).Some?
    ensures var Head(major, info, n, rest) := GetHead(b).value;
            && (major == 3 && n <= |rest| ==> Decode(b) == Some((Text(rest[..n]), rest[n..])))
            && (major == 4 && DecodeItems(n, rest).Some? ==>
                  Decode(b) == Some((List(DecodeItems(n, rest).value.0), DecodeItems(n, rest).value.1)))
            && (major == 5 && DecodeEntries(n, rest).Some? ==>
                  Decode(b) == Some((Dict(DecodeEntries(n, rest).value.0), DecodeEntries(n, rest).value.1)))
  {
  }

  lemma DecodeMore(k: nat, b: seq<byte>, x: Item, rest: seq<byte>)
    requires k > 0 && Decode(b) == Some((x, rest)) && DecodeItems(k - 1, rest).Some?
    ensures DecodeItems(k, b)
         == Some(([x] + DecodeItems(k - 1, rest).value.0, DecodeItems(k - 1, rest).value.1))
  {
  }

  lemma DecodeMoreEntries(k: nat, b: seq<byte>, key: seq<byte>, b': seq<byte>, x: Item, rest: seq<byte>)
    requires k > 0 && Decode(b) == Some((Text(key), b')) && Decode(b') == Some((x, rest))
    requires DecodeEntries(k - 1, rest).Some?
    ensures DecodeEntries(k, b)
         == Some(([Entry(key, x)] + DecodeEntries(k - 1, rest).value.0, DecodeEntries(k - 1, rest).value.1))
  {
  }

  lemma TextRoundTrip(utf8: seq<byte>, tail: seq<byte>)
    requires |utf8| < LIMIT
    ensures Decode(PutHead(3, |utf8|) + utf8 + tail) == Some((Text(utf8), tail))
  {
    hide Decode, DecodeItems, DecodeEntries, GetHead, PutHead;
    HeadRoundTrip(3, |utf8|, utf8 + tail);
    Assoc(PutHead(3, |utf8|), utf8, tail);
    DecodeOne(PutHead(3, |utf8|) + utf8 + tail);
    assert (utf8 + tail)[..|utf8|] == utf8 && (utf8 + tail)[|utf8|..] == tail;
  }

  lemma SimpleHead(code: nat, tail: seq<byte>)
    ensures code < 24 ==> GetHead([0xE0 + code] + tail) == Some(Head(7, code, code, tail))
  {
    if code < 24 {
      assert ([0xE0 + code] + tail)[1..] == tail;
    }
  }

  lemma FloatHead(bits: nat, tail: seq<byte>)
    requires bits < LIMIT
    ensures GetHead([0xFB] + PutBE(bits, 8) + tail) == Some(Head(7, 27, bits, tail))
  {
    hide PutBE, GetBE;
    Pow256Values();
    PutGetBE(bits, 8);
    var b: seq<byte> := [0xFB] + PutBE(bits, 8) + tail;
    assert b[1..9] == PutBE(bits, 8) && b[9..] == tail;
  }

  lemma SimpleRoundTrip(item: Item, tail: seq<byte>)
    requires Encodable(item) && (item.Int? || item.Simple? || item.Float?)
    ensures Decode(Encode(item) + tail) == Some((item, tail))
  {
    hide PutBE, GetBE, PutHead, GetHead, Extra, InfoFor;
    match item
    case Int(n) => HeadRoundTrip(if n >= 0 then 0 else 1, if n >= 0 then n else -1 - n, tail);
    case Simple(code) => SimpleHead(code, tail);
    case Float(bits) => FloatHead(bits, tail);
  }

  /** The major type of the kinds of items. */
  lemma MajorTypes(item: Item)
    requires Encodable(item)
    ensures Encode(item)[0] / 32
         == match item
            case Int(n) => (if n >= 0 then 0 else 1)
            case Text(_) => 3
            case List(_) => 4
            case Dict(_) => 5
            case Simple(_) => 7
            case Float(_) => 7
  {
    hide PutHead, PutBE, InfoFor, Extra, EncodeItems, EncodeEntries, EncodableEntries;
    match item
    case Int(n) => HeadBytes(if n >= 0 then 0 else 1, if n >= 0 then n else -1 - n);
    case Text(utf8) => HeadBytes(3, |utf8|);
    case List(items) => HeadBytes(4, |items|);
    case Dict(entries) => HeadBytes(5, |entries|);
    case _ =>
  }

  lemma EncodeOne(item: Item)
    requires Encodable(item)
    ensures item.Text? ==> |item.utf8| < LIMIT && Encode(item) == PutHead(3, |item.utf8|) + item.utf8
    ensures item.List? ==> |item.items| < LIMIT && (forall i :: 0 <= i < |item.items| ==> Encodable(item.items[i]))
                           && Encode(item) == PutHead(4, |item.items|) + EncodeItems(item.items)
    ensures item.Dict? ==> |item.entries| < LIMIT && EncodableEntries(item.entries)
                           && Encode(item) == PutHead(5, |item.entries|) + EncodeEntries(item.entries)
  {
  }

  /** Decoding the encoding of an item, followed by anything, gives the item and what follows. */
  lemma {:induction false} RoundTrip(item: Item, tail: seq<byte>)
    requires Encodable(item)
    ensures Decode(Encode(item) + tail) == Some((item, tail))
    decreases item
  {
    hide Decode, DecodeItems, DecodeEntries, GetHead, PutHead;
    hide Encode, EncodeItems, EncodeEntries, Encodable, EncodableEntries;
    EncodeOne(item);
    match item
    case Text(utf8) => TextRoundTrip(utf8, tail);
    case List(items) =>
      var head, body := PutHead(4, |items|), EncodeItems(items);
      HeadRoundTrip(4, |items|, body + tail);
      Assoc(head, body, tail);
      ItemsRoundTrip(items, tail);
      DecodeOne(Encode(item) + tail);
    case Dict(entries) =>
      var head, body := PutHead(5, |entries|), EncodeEntries(entries);
      HeadRoundTrip(5, |entries|, body + tail);
      Assoc(head, body, tail);
      EntriesRoundTrip(entries, tail);
      DecodeOne(Encode(item) + tail);
    case _ => SimpleRoundTrip(item, tail);
  }

  lemma {:induction false} ItemsRoundTrip(items: seq<Item>, tail: seq<byte>)
    requires forall i :: 0 <= i < |items| ==> Encodable(items[i])
    ensures DecodeItems(|items|, EncodeItems(items) + tail) == Some((items, tail))
    decreases items
  {
    hide Decode, Encode, Encodable;
    if items == [] {
      assert EncodeItems(items) + tail == tail;
    } else {
      var more := EncodeItems(items[1..]);
      Assoc(Encode(items[0]), more, tail);
      RoundTrip(items[0], more + tail);
      ItemsRoundTrip(items[1..], tail);
      assert [items[0]] + items[1..] == items;
      DecodeMore(|items|, EncodeItems(items) + tail, items[0], more + tail);
    }
  }

  lemma {:induction false} EntriesRoundTrip(entries: seq<Entry>, tail: seq<byte>)
    requires EncodableEntries(entries)
    ensures DecodeEntries(|entries|, EncodeEntries(entries) + tail) == Some((entries, tail))
    decreases entries
  {
    hide Decode, Encode, Encodable, PutHead;
    if entries == [] {
      assert EncodeEntries(entries) + tail == tail;
    } else {
      var Entry(key, value) := entries[0];
      var k, v, more := PutHead(3, |key|) + key, Encode(value), EncodeEntries(entries[1..]);
      Assoc(k + v, more, tail);
      Assoc(k, v, more + tail);
      TextRoundTrip(key, v + (more + tail));
      RoundTrip(value, more + tail);
      EntriesRoundTrip(entries[1..], tail);
      assert [entries[0]] + entries[1..] == entries;
      DecodeMoreEntries(|entries|, EncodeEntries(entries) + tail, key, v + (more + tail), value, more + tail);
    }
  }
}
