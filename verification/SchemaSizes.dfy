/** How many bytes an advertised description takes, whatever is left out of it. */
module SchemaSizes {
  import opened Wire
  import opened Cbor
  import opened Advertisement
  import opened Schema

  function HeadSize(n: nat): nat {
    1 + Extra(InfoFor(n))
  }

  lemma HeadSizeGrows(m: nat, n: nat)
    ensures m <= n ==> HeadSize(m) <= HeadSize(n)
  {
  }

  lemma DictSize(d: Dictionary)
    requires Encodable(Dict(d))
    ensures EncodableEntries(d) && |Encode(Dict(d))| == HeadSize(|d|) + |EncodeEntries(d)|
  {
    EncodeOne(Dict(d));
  }

  /** What one entry takes. */
  function EntryLength(key: seq<byte>, value: Item): nat
    requires Encodable(value)
  {
    HeadSize(|key|) + |key| + |Encode(value)|
  }

  lemma EntriesCons(e: Entry, d: Dictionary)
    requires |e.key| < LIMIT && Encodable(e.value) && EncodableEntries(d)
    ensures EncodableEntries([e] + d)
    ensures |EncodeEntries([e] + d)| == EntryLength(e.key, e.value) + |EncodeEntries(d)|
  {
    assert ([e] + d)[1..] == d;
    forall i | 0 <= i < |d| + 1
      ensures |([e] + d)[i].key| < LIMIT && Encodable(([e] + d)[i].value)
    {
      assert i > 0 ==> ([e] + d)[i] == d[i - 1];
    }
  }

  lemma {:induction false} PutSize(d: Dictionary, key: seq<byte>, value: Item)
    requires EncodableEntries(d) && |key| < LIMIT && Encodable(value)
    ensures Get(d, key).Some? ==> Encodable(Get(d, key).value)
    ensures EncodableEntries(Put(d, key, value))
    ensures |EncodeEntries(Put(d, key, value))|
         == |EncodeEntries(d)| + if Get(d, key).Some? then |Encode(value)| - |Encode(Get(d, key).value)|
                                 else EntryLength(key, value)
    ensures |Put(d, key, value)| == |d| + if Get(d, key).Some? then 0 else 1
  {
    hide Encode, EncodeEntries, Encodable, EntryLength;
    if d == [] {
      assert [Entry(key, value)] + d == [Entry(key, value)];
      EntriesCons(Entry(key, value), d);
    } else {
      assert d == [d[0]] + d[1..] && EncodableEntries(d[1..]);
      EntriesCons(d[0], d[1..]);
      if d[0].key == key {
        EntriesCons(Entry(key, value), d[1..]);
        EntryLengths(key, value, d[0].value);
      } else {
        PutSize(d[1..], key, value);
        EntriesCons(d[0], Put(d[1..], key, value));
      }
    }
  }

  lemma EntryLengths(key: seq<byte>, a: Item, b: Item)
    ensures Encodable(a) && Encodable(b) ==> EntryLength(key, a) - EntryLength(key, b) == |Encode(a)| - |Encode(b)|
  {
  }

  /** Leaving out one more key saves its entry. */
  lemma {:induction false} WithoutSize(d: Dictionary, skip: seq<seq<byte>>, more: seq<seq<byte>>, n: seq<byte>)
    requires EncodableEntries(d) && DistinctKeys(d)
    requires n !in skip && forall x :: x in more <==> x in skip || x == n
    ensures Get(d, n).Some? ==> Encodable(Get(d, n).value)
    ensures EncodableEntries(Without(d, skip)) && EncodableEntries(Without(d, more))
    ensures |EncodeEntries(Without(d, skip))|
         == |EncodeEntries(Without(d, more))| + if Get(d, n).Some? then EntryLength(n, Get(d, n).value) else 0
    ensures |Without(d, skip)| == |Without(d, more)| + if Get(d, n).Some? then 1 else 0
  {
    hide Encode, EncodeEntries, Encodable, EntryLength;
    if d != [] {
      var tail := d[1..];
      assert EncodableEntries(tail) && DistinctKeys(tail);
      WithoutSize(tail, skip, more, n);
      EntriesCons(d[0], Without(tail, skip));
      EntriesCons(d[0], Without(tail, more));
      if d[0].key == n {
        GetNone(tail, n);
      }
    }
  }

  // ---------------------------------------------------------------- the blocks that are left out

  predicate Distinct(names: seq<seq<byte>>) {
    names == [] || (names[0] !in names[1..] && Distinct(names[1..]))
  }

  /** Names of droppable blocks of the schema. */
  predicate Blocks(schema: Dictionary, names: seq<seq<byte>>) {
    && Distinct(names) && AllIn(schema, names) && |names| <= 5
    && forall n :: n in names ==> |n| < 16 && n != TYPE && n != VERSION && n != OMITTED
  }

  lemma BlocksShort(schema: Dictionary, names: seq<seq<byte>>)
    ensures Blocks(schema, names) ==> ShortNames(names)
  {
  }

  /** What the names take in the list of omitted blocks. */
  function ListLength(names: seq<seq<byte>>): nat {
    if names == [] then 0 else HeadSize(|names[0]|) + |names[0]| + ListLength(names[1..])
  }

  lemma {:induction false} TextsSize(names: seq<seq<byte>>)
    requires forall i :: 0 <= i < |names| ==> |names[i]| < LIMIT
    ensures forall i :: 0 <= i < |names| ==> Encodable(Names(names).items[i])
    ensures |EncodeItems(Names(names).items)| == ListLength(names)
  {
    if names != [] {
      assert Names(names).items[1..] == Names(names[1..]).items;
      TextsSize(names[1..]);
      EncodeOne(Text(names[0]));
      assert forall i :: 0 < i < |names| ==> Names(names).items[i] == Names(names[1..]).items[i - 1];
    }
  }

  lemma NamesSize(names: seq<seq<byte>>)
    requires ShortNames(names)
    ensures Encodable(Names(names)) && |Encode(Names(names))| == 1 + ListLength(names)
  {
    TextsSize(names);
    EncodeOne(Names(names));
  }

  // ---------------------------------------------------------------- the droppable blocks

  const INPUTS: seq<byte> := Ascii("inputs")

  lemma KeysDiffer()
    ensures |TYPE| == 4 && |VERSION| == 7 && |OMITTED| == 7 && |ENUMS| == 5 && |FUNCTIONS| == 9
    ensures |DROPPABLE| == 5 && |DROPPABLE[2]| == 9 && |DROPPABLE[3]| == 7 && |DROPPABLE[4]| == 6
    ensures VERSION != OMITTED && FUNCTIONS != DROPPABLE[2] && VERSION != DROPPABLE[3]
    ensures OMITTED != DROPPABLE[3]
  {
    assert VERSION[0] == 118 && OMITTED[0] == 111 && FUNCTIONS[0] == 102 && OMITTED[1] == 109;
    assert DROPPABLE[2][0] == 114 && DROPPABLE[3][0] == 111 && DROPPABLE[3][1] == 117;
  }

  lemma {:induction false} PresentDistinct(schema: Dictionary, blocks: seq<seq<byte>>)
    requires Distinct(blocks)
    ensures var r := Present(schema, blocks); Distinct(r) && |r| <= |blocks| && forall n :: n in r ==> n in blocks
  {
    if blocks != [] {
      var rest := Present(schema, blocks[1..]);
      PresentDistinct(schema, blocks[1..]);
      assert ([blocks[0]] + rest)[1..] == rest && [] + rest == rest;
    }
  }

  lemma {:induction false} PrefixDistinct(names: seq<seq<byte>>, k: nat)
    requires Distinct(names) && k <= |names|
    ensures Distinct(names[..k])
  {
    if k > 0 {
      PrefixDistinct(names[1..], k - 1);
      assert names[..k][1..] == names[1..][..k - 1];
    }
  }

  lemma {:induction false} PairwiseDistinct(names: seq<seq<byte>>)
    requires forall i, j :: 0 <= i < j < |names| ==> names[i] != names[j]
    ensures Distinct(names)
  {
    if names != [] {
      PairwiseDistinct(names[1..]);
    }
  }

  lemma DroppableNames()
    ensures Distinct(DROPPABLE) && |DROPPABLE| == 5
    ensures forall n :: n in DROPPABLE ==> |n| < 16 && n != TYPE && n != VERSION && n != OMITTED
  {
    hide Distinct;
    KeysDiffer();
    var d := DROPPABLE;
    assert |d[0]| == 5 && |d[1]| == 9 && d[1] != d[2];
    PairwiseDistinct(d);
    forall n | n in DROPPABLE ensures |n| < 16 && n != TYPE && n != VERSION && n != OMITTED {
      var i :| 0 <= i < |d| && d[i] == n;
    }
  }

  lemma DroppableBlocks(schema: Dictionary, k: nat)
    requires k <= |Droppable(schema)|
    ensures Blocks(schema, Droppable(schema)[..k])
  {
    hide Distinct, Get, Present, Ascii;
    DroppableNames();
    PresentDistinct(schema, DROPPABLE);
    PrefixDistinct(Droppable(schema), k);
    assert forall n :: n in Droppable(schema)[..k] ==> n in Droppable(schema);
  }

  // ---------------------------------------------------------------- the description

  /** What an advertised part takes apart from the blocks it keeps and the names it lists. */
  function Overhead(schema: Dictionary): int
    requires Representable(schema)
  {
    GetEncodable(schema, TYPE);
    GetEncodable(schema, VERSION);
    EntryLength(TYPE, Get(schema, TYPE).value) + EntryLength(VERSION, Get(schema, VERSION).value)
    + if Get(schema, OMITTED).Some? then (GetEncodable(schema, OMITTED); -|Encode(Get(schema, OMITTED).value)|)
      else HeadSize(|OMITTED|) + |OMITTED|
  }

  /** How the size of an advertised part with something left out is made up. */
  lemma KeptSize(schema: Dictionary, names: seq<seq<byte>>)
    requires Representable(schema) && Blocks(schema, names) && names != []
    ensures ShortNames(names) && EncodableEntries(Kept(schema, names))
    ensures EncodableEntries(Without(schema, [TYPE, VERSION] + names)) && Encodable(Names(names))
    ensures |EncodeEntries(Kept(schema, names))|
         == Overhead(schema) + |EncodeEntries(Without(schema, [TYPE, VERSION] + names))| + |Encode(Names(names))|
    ensures |Kept(schema, names)|
         == 2 + |Without(schema, [TYPE, VERSION] + names)| + if Get(schema, OMITTED).Some? then 0 else 1
  {
    hide Get, Put, Without, Encode, EncodeEntries, Encodable;
    var skip := [TYPE, VERSION] + names;
    var rest := Without(schema, skip);
    var e1, e2 := Entry(TYPE, Get(schema, TYPE).value), Entry(VERSION, Get(schema, VERSION).value);
    BlocksShort(schema, names);
    NamesSize(names);
    GetEncodable(schema, TYPE);
    GetEncodable(schema, VERSION);
    WithoutEncodable(schema, skip);
    Identity(e1, e2, OMITTED);
    assert [e1, e2] + rest == [e1] + ([e2] + rest);
    EntriesCons(e2, rest);
    EntriesCons(e1, [e2] + rest);
    GetWithout(schema, skip, OMITTED);
    GetAppend([e1, e2], rest, OMITTED);
    assert OMITTED !in skip;
    PutSize([e1, e2] + rest, OMITTED, Names(names));
  }

  /** The size of the description when exactly `names` are left out. */
  function AdvertisedSize(schema: Dictionary, names: seq<seq<byte>>): nat
    requires Representable(schema) && Blocks(schema, names)
  {
    BlocksShort(schema, names);
    PartsEncodable(schema, names);
    |Encode(Dict(Kept(schema, names)))|
  }

  /** What the values of some blocks take. */
  function Value(schema: Dictionary, names: seq<seq<byte>>): nat
    requires Representable(schema) && AllIn(schema, names)
  {
    if names == [] then 0
    else
      GetEncodable(schema, names[0]);
      |Encode(Get(schema, names[0]).value)| + Value(schema, names[1..])
  }

  /** The entries, and the bytes, that a description would have if nothing had to be left out of it. */
  function Entries(schema: Dictionary): nat {
    2 + |Without(schema, [TYPE, VERSION])| + if Get(schema, OMITTED).Some? then 0 else 1
  }

  function Base(schema: Dictionary): int
    requires Representable(schema)
  {
    WithoutEncodable(schema, [TYPE, VERSION]);
    Overhead(schema) + |EncodeEntries(Without(schema, [TYPE, VERSION]))| + 1
  }

  lemma {:induction false} WithoutNames(schema: Dictionary, names: seq<seq<byte>>)
    requires Representable(schema) && DistinctKeys(schema) && Blocks(schema, names)
    ensures var skip := [TYPE, VERSION];
            && EncodableEntries(Without(schema, skip)) && EncodableEntries(Without(schema, skip + names))
            && |EncodeEntries(Without(schema, skip))|
               == |EncodeEntries(Without(schema, skip + names))| + ListLength(names) + Value(schema, names)
            && |Without(schema, skip)| == |Without(schema, skip + names)| + |names|
    decreases |names|
  {
    hide Get, Without, Encode, EncodeEntries, Encodable, HeadSize;
    var skip := [TYPE, VERSION];
    WithoutEncodable(schema, skip);
    WithoutEncodable(schema, skip + names);
    if names == [] {
      assert skip + names == skip;
    } else {
      assert forall n :: n in names <==> n == names[0] || n in names[1..];
      WithoutNames(schema, names[1..]);
      WithoutSize(schema, skip + names[1..], skip + names, names[0]);
    }
  }

  /** The size of a description depends on what is left out only through the values and their number. */
  lemma ChoiceSize(schema: Dictionary, names: seq<seq<byte>>)
    requires Representable(schema) && DistinctKeys(schema) && Blocks(schema, names) && names != []
    ensures |names| <= Entries(schema) && |Kept(schema, names)| == Entries(schema) - |names|
    ensures AdvertisedSize(schema, names)
         == HeadSize(Entries(schema) - |names|) + Base(schema) - Value(schema, names)
  {
    hide Get, Put, Without, Kept, Encode, EncodeEntries, Encodable, HeadSize, Overhead, Value, ListLength;
    BlocksShort(schema, names);
    KeptSize(schema, names);
    WithoutNames(schema, names);
    NamesSize(names);
    PartsEncodable(schema, names);
    DictSize(Kept(schema, names));
  }
}
