/**
 Splitting a service's schema into the part that is advertised and the part that is served on request,
 and merging the two again. A dictionary is the sequence of its entries in insertion order.
 */
module Schema {
  import opened Wire
  import opened Cbor
  import opened Advertisement

  const BUDGET := 1368
  const MAX_OMITTED := 0xFFFF

  const TYPE: seq<byte> := Ascii("type")
  const VERSION: seq<byte> := Ascii("version")
  const OMITTED: seq<byte> := Ascii("omitted")

  /** The blocks that may be left out, in the order in which they are. */
  const DROPPABLE: seq<seq<byte>> := [ENUMS, FUNCTIONS, Ascii("registers"), Ascii("outputs"), Ascii("inputs")]
  const ENUMS: seq<byte> := Ascii("enums")
  const FUNCTIONS: seq<byte> := Ascii("functions")

  // ---------------------------------------------------------------- dictionaries

  type Dictionary = seq<Entry>

  function Get(d: Dictionary, key: seq<byte>): Option<Item> {
    if d == [] then None else if d[0].key == key then Some(d[0].value) else Get(d[1..], key)
  }

  /** Equality of dictionaries does not depend on the order of their entries. */
  ghost predicate SameDictionary(a: Dictionary, b: Dictionary) {
    forall key :: Get(a, key) == Get(b, key)
  }

  /** Assignment: in place if the key is there, else at the end. */
  function Put(d: Dictionary, key: seq<byte>, value: Item): Dictionary {
    if d == [] then [Entry(key, value)]
    else if d[0].key == key then [Entry(key, value)] + d[1..]
    else [d[0]] + Put(d[1..], key, value)
  }

  function Update(d: Dictionary, other: Dictionary): Dictionary
    decreases |other|
  {
    if other == [] then d else Update(Put(d, other[0].key, other[0].value), other[1..])
  }

  function Without(d: Dictionary, skip: seq<seq<byte>>): Dictionary {
    if d == [] then []
    else if d[0].key in skip then Without(d[1..], skip)
    else [d[0]] + Without(d[1..], skip)
  }

  lemma {:induction false} GetAppend(a: Dictionary, b: Dictionary, key: seq<byte>)
    ensures Get(a + b, key) == if Get(a, key).Some? then Get(a, key) else Get(b, key)
  {
    if a == [] {
      assert a + b == b;
    } else {
      assert (a + b)[1..] == a[1..] + b;
      GetAppend(a[1..], b, key);
    }
  }

  lemma {:induction false} GetPut(d: Dictionary, k: seq<byte>, value: Item, key: seq<byte>)
    ensures Get(Put(d, k, value), key) == if key == k then Some(value) else Get(d, key)
  {
    if d != [] && d[0].key != k {
      GetPut(d[1..], k, value, key);
      GetAppend([d[0]], Put(d[1..], k, value), key);
      assert Get([d[0]], key) == if d[0].key == key then Some(d[0].value) else Get([], key);
    } else if d != [] {
      GetAppend([Entry(k, value)], d[1..], key);
    }
  }

  lemma {:induction false} GetWithout(d: Dictionary, skip: seq<seq<byte>>, key: seq<byte>)
    ensures Get(Without(d, skip), key) == if key in skip then None else Get(d, key)
  {
    if d != [] {
      GetWithout(d[1..], skip, key);
      if d[0].key !in skip {
        GetAppend([d[0]], Without(d[1..], skip), key);
      }
    }
  }

  // ---------------------------------------------------------------- the two parts

  function Names(names: seq<seq<byte>>): Item {
    List(seq(|names|, i requires 0 <= i < |names| => Text(names[i])))
  }

  predicate HasIdentity(schema: Dictionary) {
    Get(schema, TYPE).Some? && Get(schema, VERSION).Some?
  }

  /** Everything but the named blocks, `type` and `version` first, with a list of what is missing. */
  function Kept(schema: Dictionary, names: seq<seq<byte>>): Dictionary
    requires HasIdentity(schema)
  {
    var rest := Without(schema, [TYPE, VERSION] + names);
    var kept := [Entry(TYPE, Get(schema, TYPE).value), Entry(VERSION, Get(schema, VERSION).value)] + rest;
    if names == [] then kept else Put(kept, OMITTED, Names(names))
  }

  predicate AllIn(schema: Dictionary, names: seq<seq<byte>>) {
    forall n :: n in names ==> Get(schema, n).Some?
  }

  function Left(schema: Dictionary, names: seq<seq<byte>>): Dictionary
    requires AllIn(schema, names)
  {
    seq(|names|, i requires 0 <= i < |names| => Entry(names[i], Get(schema, names[i]).value))
  }

  /** The droppable blocks that the schema has. */
  function Present(schema: Dictionary, blocks: seq<seq<byte>>): (r: seq<seq<byte>>)
    ensures AllIn(schema, r)
  {
    if blocks == [] then []
    else (if Get(schema, blocks[0]).Some? then [blocks[0]] else []) + Present(schema, blocks[1..])
  }

  // ---------------------------------------------------------------- merging

  predicate Truthy(value: Item) {
    match value
    case Int(n) => n != 0
    case Text(utf8) => utf8 != []
    case List(items) => items != []
    case Dict(entries) => entries != []
    case Simple(code) => code == 21
    case Float(bits) => bits % (LIMIT / 2) != 0
  }

  predicate Incomplete(desc: Dictionary) {
    Get(desc, OMITTED).Some? && Truthy(Get(desc, OMITTED).value)
  }

  /** What becomes of an advertised description, given the fetched blocks if there are any. */
  function Merge(desc: Dictionary, details: Option<Dictionary>): Dictionary {
    if Incomplete(desc) then
      if details.None? then desc else Update(Without(desc, [OMITTED]), details.value)
    else Without(desc, [OMITTED])
  }

  lemma {:induction false} GetUpdate(d: Dictionary, schema: Dictionary, names: seq<seq<byte>>, key: seq<byte>)
    requires AllIn(schema, names)
    ensures Get(Update(d, Left(schema, names)), key) == if key in names then Get(schema, key) else Get(d, key)
    decreases |names|
  {
    if names != [] {
      var left := Left(schema, names);
      var value := left[0].value;
      assert left[1..] == Left(schema, names[1..]);
      assert key in names <==> key == names[0] || key in names[1..];
      GetUpdate(Put(d, names[0], value), schema, names[1..], key);
      GetPut(d, names[0], value, key);
    }
  }

  lemma GetKept(schema: Dictionary, names: seq<seq<byte>>, key: seq<byte>)
    requires HasIdentity(schema)
    ensures Get(Kept(schema, names), key)
         == if names != [] && key == OMITTED then Some(Names(names))
            else if key == TYPE || key == VERSION then Get(schema, key)
            else if key in names then None else Get(schema, key)
    ensures Names(names).List? && |Names(names).items| == |names|
    ensures forall i :: 0 <= i < |names| ==> Names(names).items[i] == Text(names[i])
  {
    hide Get, Put, Without;
    var skip := [TYPE, VERSION] + names;
    var rest := Without(schema, skip);
    assert key in skip <==> key == TYPE || key == VERSION || key in names;
    var e1, e2 := Entry(TYPE, Get(schema, TYPE).value), Entry(VERSION, Get(schema, VERSION).value);
    GetWithout(schema, skip, key);
    Identity(e1, e2, key);
    GetAppend([e1, e2], rest, key);
    GetPut([e1, e2] + rest, OMITTED, Names(names), key);
  }

  lemma Identity(e1: Entry, e2: Entry, key: seq<byte>)
    requires e1.key == TYPE && e2.key == VERSION
    ensures Get([e1, e2], key)
         == if key == TYPE then Some(e1.value) else if key == VERSION then Some(e2.value) else None
    ensures TYPE != VERSION && TYPE != OMITTED && VERSION != OMITTED
  {
    assert |TYPE| == 4 && |VERSION| == 7 && |OMITTED| == 7 && VERSION[0] == 118 && OMITTED[0] == 111;
    assert [e1, e2][1..] == [e2] && [e2][1..] == [];
    assert Get([e2], key) == if key == VERSION then Some(e2.value) else None;
  }

  /** The two parts make up the original schema, unless that has a block named "omitted" itself. */
  lemma MergeRestores(schema: Dictionary, names: seq<seq<byte>>)
    requires HasIdentity(schema) && AllIn(schema, names) && Get(schema, OMITTED).None?
    ensures SameDictionary(Merge(Kept(schema, names), Some(Left(schema, names))), schema)
    ensures Incomplete(Kept(schema, names)) <==> names != []
  {
    hide Get, Put, Without, Update;
    var kept, left := Kept(schema, names), Left(schema, names);
    GetKept(schema, names, OMITTED);
    Identity(Entry(TYPE, Int(0)), Entry(VERSION, Int(0)), OMITTED);
    forall key ensures Get(Merge(kept, Some(left)), key) == Get(schema, key) {
      GetKept(schema, names, key);
      GetWithout(kept, [OMITTED], key);
      GetUpdate(Without(kept, [OMITTED]), schema, names, key);
    }
  }

  // ---------------------------------------------------------------- what can be encoded

  lemma {:induction false} WithoutEncodable(d: Dictionary, skip: seq<seq<byte>>)
    requires EncodableEntries(d)
    ensures EncodableEntries(Without(d, skip)) && |Without(d, skip)| <= |d|
  {
    if d != [] {
      WithoutEncodable(d[1..], skip);
    }
  }

  lemma {:induction false} PutEncodable(d: Dictionary, key: seq<byte>, value: Item)
    requires EncodableEntries(d) && |key| < LIMIT && Encodable(value)
    ensures EncodableEntries(Put(d, key, value)) && |Put(d, key, value)| <= |d| + 1
  {
    if d != [] && d[0].key != key {
      PutEncodable(d[1..], key, value);
    }
  }

  lemma {:induction false} GetEncodable(d: Dictionary, key: seq<byte>)
    requires EncodableEntries(d) && Get(d, key).Some?
    ensures Encodable(Get(d, key).value)
  {
    if d[0].key != key {
      GetEncodable(d[1..], key);
    }
  }

  /** A schema that can be encoded at all, with room for three more entries. */
  predicate Representable(schema: Dictionary) {
    HasIdentity(schema) && EncodableEntries(schema) && |schema| + 3 < LIMIT
  }

  predicate ShortNames(names: seq<seq<byte>>) {
    |names| <= 5 && forall i :: 0 <= i < |names| ==> |names[i]| < 16
  }

  lemma PartsEncodable(schema: Dictionary, names: seq<seq<byte>>)
    requires Representable(schema) && AllIn(schema, names) && ShortNames(names)
    ensures Encodable(Dict(Kept(schema, names))) && Encodable(Dict(Left(schema, names)))
  {
    hide Get, Put, Without;
    var rest := Without(schema, [TYPE, VERSION] + names);
    WithoutEncodable(schema, [TYPE, VERSION] + names);
    GetEncodable(schema, TYPE);
    GetEncodable(schema, VERSION);
    var kept := [Entry(TYPE, Get(schema, TYPE).value), Entry(VERSION, Get(schema, VERSION).value)] + rest;
    assert EncodableEntries(kept);
    PutEncodable(kept, OMITTED, Names(names));
    forall i | 0 <= i < |names| ensures Encodable(Left(schema, names)[i].value) {
      GetEncodable(schema, names[i]);
    }
  }

  lemma {:induction false} PresentShort(schema: Dictionary, blocks: seq<seq<byte>>)
    requires forall i :: 0 <= i < |blocks| ==> |blocks[i]| < 16
    ensures var r := Present(schema, blocks); |r| <= |blocks| && forall i :: 0 <= i < |r| ==> |r[i]| < 16
  {
    if blocks != [] {
      PresentShort(schema, blocks[1..]);
    }
  }

  // ---------------------------------------------------------------- the split

  function Droppable(schema: Dictionary): seq<seq<byte>> {
    Present(schema, DROPPABLE)
  }

  lemma {:induction false} PresentIff(schema: Dictionary, blocks: seq<seq<byte>>, key: seq<byte>)
    ensures key in Present(schema, blocks) <==> key in blocks && Get(schema, key).Some?
  {
    if blocks != [] {
      PresentIff(schema, blocks[1..], key);
    }
  }

  /** These five blocks may be left out, if the schema has them, and no others. */
  lemma DroppableIff(schema: Dictionary, key: seq<byte>)
    ensures key in Droppable(schema)
       <==> Get(schema, key).Some?
            && (|| key == Ascii("enums") || key == Ascii("functions") || key == Ascii("registers")
                || key == Ascii("outputs") || key == Ascii("inputs"))
  {
    hide Ascii, Get;
    PresentIff(schema, DROPPABLE, key);
  }

  lemma PrefixParts(schema: Dictionary, k: nat)
    requires Representable(schema) && k <= |Droppable(schema)|
    ensures var names := Droppable(schema)[..k];
            && AllIn(schema, names) && ShortNames(names)
            && Encodable(Dict(Kept(schema, names))) && Encodable(Dict(Left(schema, names)))
  {
    PresentShort(schema, DROPPABLE);
    PartsEncodable(schema, Droppable(schema)[..k]);
  }

  /** What is advertised, and what is served, when the first `k` droppable blocks are left out. */
  function AdvertisedBytes(schema: Dictionary, k: nat): seq<byte>
    requires Representable(schema) && k <= |Droppable(schema)|
  {
    PrefixParts(schema, k);
    Encode(Dict(Kept(schema, Droppable(schema)[..k])))
  }

  function OmittedBytes(schema: Dictionary, k: nat): seq<byte>
    requires Representable(schema) && k <= |Droppable(schema)|
  {
    PrefixParts(schema, k);
    Encode(Dict(Left(schema, Droppable(schema)[..k])))
  }

  predicate Fits(schema: Dictionary, k: nat)
    requires Representable(schema) && k <= |Droppable(schema)|
  {
    |AdvertisedBytes(schema, k)| <= BUDGET
  }

  /** The shortest prefix of the droppable blocks whose omission makes the rest fit. */
  ghost predicate ShortestPrefix(schema: Dictionary, k: nat)
    requires Representable(schema)
  {
    k <= |Droppable(schema)| && Fits(schema, k) && forall j: nat :: j < k ==> !Fits(schema, j)
  }

  datatype SplitResult =
    | Split(advertised: seq<byte>, omitted: seq<byte>, names: seq<seq<byte>>)
    | MissingIdentity
    | OmittedTooLarge
    | DoesNotFit

  ghost predicate SplitOf(schema: Dictionary, k: nat, r: SplitResult)
    requires Representable(schema)
  {
    ShortestPrefix(schema, k)
    && if |OmittedBytes(schema, k)| > MAX_OMITTED then r == OmittedTooLarge
       else r == Split(AdvertisedBytes(schema, k), OmittedBytes(schema, k), Droppable(schema)[..k])
  }

  predicate DistinctKeys(d: Dictionary) {
    forall i, j :: 0 <= i < j < |d| ==> d[i].key != d[j].key
  }

  /** The search. Either every prefix is too large, or the shortest that fits is used. */
  method SplitDescription(schema: Dictionary) returns (r: SplitResult)
    requires DistinctKeys(schema) && EncodableEntries(schema) && |schema| + 3 < LIMIT
    ensures r == MissingIdentity <==> !HasIdentity(schema)
    ensures HasIdentity(schema) ==>
              if r == DoesNotFit then forall k: nat :: k <= |Droppable(schema)| ==> !Fits(schema, k)
              else exists k: nat :: SplitOf(schema, k, r)
  {
    hide Get, Present, Encode, Kept, Left;
    if Get(schema, TYPE).None? || Get(schema, VERSION).None? {
      return MissingIdentity;
    }
    var droppable := Droppable(schema);
    var dropped := 0;
    while dropped <= |droppable|
      invariant dropped <= |droppable| + 1
      invariant forall j: nat :: j < dropped ==> !Fits(schema, j)
    {
      var names := droppable[..dropped];
      PrefixParts(schema, dropped);
      var advertised := BuildAdvertised(schema, names);
      var bytes := Encode(Dict(advertised));
      if |bytes| <= BUDGET {
        var omitted := Encode(Dict(Left(schema, names)));
        r := if |omitted| > MAX_OMITTED then OmittedTooLarge else Split(bytes, omitted, names);
        assert SplitOf(schema, dropped, r);
        return;
      }
      dropped := dropped + 1;
    }
    return DoesNotFit;
  }

  lemma {:induction false} WithoutAppend(d: Dictionary, e: Entry, skip: seq<seq<byte>>)
    ensures Without(d + [e], skip) == Without(d, skip) + (if e.key in skip then [] else [e])
  {
    if d == [] {
      assert d + [e] == [e] && [e][1..] == [];
    } else {
      assert (d + [e])[1..] == d[1..] + [e];
      WithoutAppend(d[1..], e, skip);
    }
  }

  lemma {:induction false} PutFresh(d: Dictionary, key: seq<byte>, value: Item)
    requires Get(d, key).None?
    ensures Put(d, key, value) == d + [Entry(key, value)]
  {
    if d != [] {
      PutFresh(d[1..], key, value);
    }
  }

  lemma {:induction false} GetNone(d: Dictionary, key: seq<byte>)
    requires forall i :: 0 <= i < |d| ==> d[i].key != key
    ensures Get(d, key).None?
  {
    if d != [] {
      GetNone(d[1..], key);
    }
  }

  /** The dictionary is filled entry by entry. */
  method BuildAdvertised(schema: Dictionary, names: seq<seq<byte>>) returns (advertised: Dictionary)
    requires DistinctKeys(schema) && HasIdentity(schema)
    ensures advertised == Kept(schema, names)
  {
    hide Get, Put, Without;
    ghost var e1, e2 := Entry(TYPE, Get(schema, TYPE).value), Entry(VERSION, Get(schema, VERSION).value);
    ghost var skip := [TYPE, VERSION] + names;
    advertised := [Entry(TYPE, Get(schema, TYPE).value), Entry(VERSION, Get(schema, VERSION).value)];
    NothingKept(skip);
    var i := 0;
    while i < |schema|
      invariant i <= |schema| && advertised == [e1, e2] + Without(schema[..i], skip)
    {
      var Entry(key, value) := schema[i];
      assert schema[..i + 1] == schema[..i] + [schema[i]];
      WithoutAppend(schema[..i], schema[i], skip);
      if key != TYPE && key != VERSION && key !in names {
        GetNone(schema[..i], key);
        GetWithout(schema[..i], skip, key);
        Identity(e1, e2, key);
        GetAppend([e1, e2], Without(schema[..i], skip), key);
        PutFresh(advertised, key, value);
        Assoc([e1, e2], Without(schema[..i], skip), [schema[i]]);
        advertised := Put(advertised, key, value);
      }
      i := i + 1;
    }
    assert schema[..i] == schema;
    if names != [] {
      advertised := Put(advertised, OMITTED, Names(names));
    }
  }

  lemma NothingKept(skip: seq<seq<byte>>)
    ensures Without([], skip) == []
  {
  }
}
