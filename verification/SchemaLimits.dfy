/** When the split of a schema fills the packet as far as possible, and when the result compiles. */
module SchemaLimits {
  import opened Wire
  import opened Cbor
  import opened Advertisement
  import opened Schema
  import opened SchemaSizes

  function Filler(n: nat): (b: seq<byte>)
    ensures |b| == n
  {
    seq(n, _ => 0)
  }

  lemma SmallSizes(n: nat)
    requires 256 <= n < U16
    ensures |Encode(Int(1))| == 1 && |Encode(Text(Filler(n)))| == 3 + n && |Encode(List([]))| == 1
    ensures |PutHead(5, 2)| == 1 && |PutHead(5, 4)| == 1 && |EncodeEntries([])| == 0
  {
    assert EncodeItems([]) == [];
  }

  /** The generated code's static assertion about the size of the description. */
  predicate Compiles(schema: Dictionary, k: nat)
    requires Representable(schema) && k <= |Droppable(schema)|
  {
    SCRATCH_SIZE > 80 + |AdvertisedBytes(schema, k)|
  }

  /**
   Exactly the descriptions that use up the budget are accepted by the split and refused by the
   compiler; there are such schemas.
   */
  lemma ExactBudgetDoesNotCompile()
    ensures forall schema, k: nat :: Representable(schema) && ShortestPrefix(schema, k) ==>
              (Compiles(schema, k) <==> |AdvertisedBytes(schema, k)| != BUDGET)
    ensures var schema := [Entry(TYPE, Text(Filler(1350))), Entry(VERSION, Int(1))];
            && Representable(schema) && ShortestPrefix(schema, 0)
            && |AdvertisedBytes(schema, 0)| == BUDGET && !Compiles(schema, 0)
  {
    hide Get, Put, Without, Kept, Filler, Present, Encode, EncodeEntries, Encodable, EncodableEntries, Ascii;
    var e1, e2 := Entry(TYPE, Text(Filler(1350))), Entry(VERSION, Int(1));
    var schema := [e1, e2];
    Identity(e1, e2, TYPE);
    Identity(e1, e2, VERSION);
    KeysDiffer();
    SmallSizes(1350);
    NoEntries();
    assert schema == [e1] + [e2] && [e2] == [e2] + [];
    EntriesCons(e2, []);
    EntriesCons(e1, [e2]);
    OnlyIdentity(e1, e2);
    assert Droppable(schema)[..0] == [];
    PrefixParts(schema, 0);
    DictSize(schema);
  }

  lemma OnlyIdentity(e1: Entry, e2: Entry)
    requires e1.key == TYPE && e2.key == VERSION
    ensures HasIdentity([e1, e2]) && Kept([e1, e2], []) == [e1, e2]
  {
    hide Ascii;
    Identity(e1, e2, TYPE);
    Identity(e1, e2, VERSION);
    assert [TYPE, VERSION] + [] == [TYPE, VERSION];
    assert [e1, e2][1..] == [e2] && [e2][1..] == [];
    assert Without([e2], [TYPE, VERSION]) == [];
    assert [e1, e2] + [] == [e1, e2];
  }

  // ---------------------------------------------------------------- other choices

  /** Some of the droppable blocks, to be left out. */
  predicate Choice(schema: Dictionary, names: seq<seq<byte>>) {
    names != [] && Blocks(schema, names) && forall n :: n in names ==> n in Droppable(schema)
  }

  /** What leaving out some blocks saves: their values, less the step of the head of the dictionary. */
  function Saving(schema: Dictionary, names: seq<seq<byte>>): int
    requires Representable(schema) && DistinctKeys(schema) && Blocks(schema, names) && names != []
  {
    ChoiceSize(schema, names);
    Value(schema, names) - HeadSize(Entries(schema) - |names|)
  }

  /** Leaving out these blocks instead of the first `k` would fit as well, and fill the packet further. */
  predicate Better(schema: Dictionary, k: nat, names: seq<seq<byte>>)
    requires Representable(schema) && k <= |Droppable(schema)|
  {
    && k > 0 && Choice(schema, names)
    && |AdvertisedBytes(schema, k)| < AdvertisedSize(schema, names) <= BUDGET
  }

  lemma PrefixIsChoice(schema: Dictionary, k: nat)
    requires Representable(schema) && 0 < k <= |Droppable(schema)|
    ensures var names := Droppable(schema)[..k];
            Choice(schema, names) && |AdvertisedBytes(schema, k)| == AdvertisedSize(schema, names)
  {
    hide Get, Present, Kept, Encode;
    DroppableBlocks(schema, k);
  }

  /** Leaving out these blocks saves as much as is necessary, and less than the split does. */
  predicate SavesLess(schema: Dictionary, k: nat, names: seq<seq<byte>>)
    requires Representable(schema) && DistinctKeys(schema) && k <= |Droppable(schema)|
  {
    && k > 0 && Choice(schema, names)
    && (PrefixIsChoice(schema, k);
        Base(schema) - BUDGET <= Saving(schema, names) < Saving(schema, Droppable(schema)[..k]))
  }

  lemma BetterIff(schema: Dictionary, k: nat, names: seq<seq<byte>>)
    requires Representable(schema) && DistinctKeys(schema) && k <= |Droppable(schema)|
    ensures Better(schema, k, names) <==> SavesLess(schema, k, names)
  {
    hide Get, Present, Kept, Encode, Value, Blocks, Base;
    if k > 0 && Choice(schema, names) {
      PrefixIsChoice(schema, k);
      ChoiceSize(schema, names);
      ChoiceSize(schema, Droppable(schema)[..k]);
    }
  }

  /**
   Among all choices of blocks to leave out, the split fills the packet as far as possible exactly if no
   choice saves as much as is necessary and less than the split does.
   */
  lemma FilledIff(schema: Dictionary, k: nat)
    requires Representable(schema) && DistinctKeys(schema) && ShortestPrefix(schema, k)
    ensures (exists names :: Better(schema, k, names)) <==> exists names :: SavesLess(schema, k, names)
  {
    hide Better, SavesLess;
    ShortestIsPrefix(schema, k);
    forall names ensures Better(schema, k, names) <==> SavesLess(schema, k, names) {
      BetterIff(schema, k, names);
    }
  }

  // ---------------------------------------------------------------- putting blocks back

  /** The names that are still left out when the blocks in `back` are put back. */
  function Rest(names: seq<seq<byte>>, back: set<seq<byte>>): (r: seq<seq<byte>>)
    ensures forall x :: x in r <==> x in names && x !in back
    ensures |r| <= |names|
  {
    if names == [] then [] else (if names[0] in back then [] else [names[0]]) + Rest(names[1..], back)
  }

  lemma {:induction false} RestDistinct(names: seq<seq<byte>>, back: set<seq<byte>>)
    requires Distinct(names)
    ensures Distinct(Rest(names, back))
  {
    if names != [] {
      var rest := Rest(names[1..], back);
      RestDistinct(names[1..], back);
      assert ([names[0]] + rest)[1..] == rest && [] + rest == rest;
    }
  }

  lemma RestBlocks(schema: Dictionary, names: seq<seq<byte>>, back: set<seq<byte>>)
    requires Blocks(schema, names)
    ensures Blocks(schema, Rest(names, back)) && ShortNames(Rest(names, back))
  {
    hide Rest, Get;
    RestDistinct(names, back);
  }

  lemma {:induction false} RestValue(schema: Dictionary, names: seq<seq<byte>>, back: set<seq<byte>>, n: seq<byte>)
    requires Representable(schema) && Distinct(names) && AllIn(schema, names) && n in names && n !in back
    ensures Encodable(Get(schema, n).value)
    ensures AllIn(schema, Rest(names, back)) && AllIn(schema, Rest(names, back + {n}))
    ensures Value(schema, Rest(names, back)) == Value(schema, Rest(names, back + {n})) + |Encode(Get(schema, n).value)|
    ensures |Rest(names, back)| == |Rest(names, back + {n})| + 1
  {
    hide Get, Encode, Encodable;
    GetEncodable(schema, n);
    var r, r' := Rest(names[1..], back), Rest(names[1..], back + {n});
    assert ([names[0]] + r)[1..] == r && ([names[0]] + r')[1..] == r';
    assert [] + r == r && [] + r' == r';
    assert forall x :: x in names <==> x == names[0] || x in names[1..];
    if names[0] == n {
      SameRest(names[1..], back, n);
    } else {
      RestValue(schema, names[1..], back, n);
    }
  }

  lemma {:induction false} SameRest(names: seq<seq<byte>>, back: set<seq<byte>>, n: seq<byte>)
    requires n !in names
    ensures Rest(names, back) == Rest(names, back + {n})
  {
    if names != [] {
      SameRest(names[1..], back, n);
    }
  }

  lemma {:induction false} RestNone(names: seq<seq<byte>>)
    ensures Rest(names, {}) == names
  {
    if names != [] {
      RestNone(names[1..]);
    }
  }

  /** What it costs to put block `n` back where `names` are left out. */
  function PutBackCost(schema: Dictionary, names: seq<seq<byte>>, n: seq<byte>): nat
    requires Representable(schema) && Get(schema, n).Some?
  {
    var entries := |Kept(schema, names)|;
    HeadSizeGrows(entries, entries + 1);
    GetEncodable(schema, n);
    |Encode(Get(schema, n).value)| + (HeadSize(entries + 1) - HeadSize(entries))
  }

  /** Putting one more block back costs its value: its name moves from the list to the entry. */
  lemma PutOneBack(schema: Dictionary, names: seq<seq<byte>>, back: set<seq<byte>>, n: seq<byte>)
    requires Representable(schema) && DistinctKeys(schema) && Blocks(schema, names)
    requires n in names && n !in back && Rest(names, back + {n}) != []
    ensures Blocks(schema, Rest(names, back)) && Blocks(schema, Rest(names, back + {n}))
    ensures AdvertisedSize(schema, Rest(names, back + {n}))
         == AdvertisedSize(schema, Rest(names, back)) + PutBackCost(schema, Rest(names, back), n)
    ensures |Kept(schema, Rest(names, back + {n}))| == |Kept(schema, Rest(names, back))| + 1
  {
    hide Get, Put, Without, Kept, Encode, HeadSize, Rest, Distinct, Value, Base, Entries;
    RestBlocks(schema, names, back);
    RestBlocks(schema, names, back + {n});
    RestValue(schema, names, back, n);
    ChoiceSize(schema, Rest(names, back));
    ChoiceSize(schema, Rest(names, back + {n}));
  }

  /** The more blocks are put back, the larger the description gets. */
  lemma {:induction false} PuttingBackGrows(schema: Dictionary, names: seq<seq<byte>>, back: set<seq<byte>>,
                                           n: seq<byte>)
    requires Representable(schema) && DistinctKeys(schema) && Blocks(schema, names)
    requires n in back && (forall x :: x in back ==> x in names) && Rest(names, back) != []
    ensures Blocks(schema, Rest(names, back))
    ensures AdvertisedSize(schema, Rest(names, back)) >= AdvertisedSize(schema, names) + PutBackCost(schema, names, n)
    ensures back == {n} ==>
              AdvertisedSize(schema, Rest(names, back)) == AdvertisedSize(schema, names) + PutBackCost(schema, names, n)
    ensures |Kept(schema, Rest(names, back))| >= |Kept(schema, names)| + 1
    decreases |back|
  {
    hide Get, Put, Without, Kept, Encode, EncodeEntries, Encodable, HeadSize, Rest, Distinct;
    RestBlocks(schema, names, back);
    if back == {n} {
      RestNone(names);
      assert {} + {n} == back;
      PutOneBack(schema, names, {}, n);
    } else {
      var m :| m in back && m != n;
      var less := back - {m};
      assert less + {m} == back;
      PutOneBack(schema, names, less, m);
      PuttingBackGrows(schema, names, less, n);
    }
  }

  lemma {:induction false} RestOfLast(names: seq<seq<byte>>)
    requires names != [] && Distinct(names)
    ensures Rest(names, {names[|names| - 1]}) == names[..|names| - 1]
  {
    var last := names[|names| - 1];
    if |names| > 1 {
      RestOfLast(names[1..]);
      assert names[..|names| - 1] == [names[0]] + names[1..][..|names| - 2];
      assert names[0] != last;
    }
  }

  /** Of the blocks that the split leaves out, those in `back` would fit as well. */
  ghost predicate WouldFit(schema: Dictionary, k: nat, back: set<seq<byte>>)
    requires Representable(schema) && k <= |Droppable(schema)|
  {
    var names := Droppable(schema)[..k];
    && back != {} && (forall n :: n in back ==> n in names)
    && Blocks(schema, Rest(names, back)) && AdvertisedSize(schema, Rest(names, back)) <= BUDGET
  }

  /** There is room for block `i` of those left out, at the cost of its value. */
  predicate RoomFor(schema: Dictionary, k: nat, i: nat)
    requires Representable(schema) && i < k <= |Droppable(schema)|
  {
    var names := Droppable(schema)[..k];
    assert names[i] in names;
    |AdvertisedBytes(schema, k)| + PutBackCost(schema, names, names[i]) <= BUDGET
  }

  lemma WouldFitOne(schema: Dictionary, k: nat, i: nat)
    requires Representable(schema) && DistinctKeys(schema) && i + 1 < k <= |Droppable(schema)|
    ensures RoomFor(schema, k, i) <==> WouldFit(schema, k, {Droppable(schema)[i]})
  {
    hide Get, Present, Kept, Encode, Rest, Distinct;
    var names := Droppable(schema)[..k];
    DroppableBlocks(schema, k);
    OthersStay(names, i);
    PuttingBackGrows(schema, names, {names[i]}, names[i]);
  }

  lemma OthersStay(names: seq<seq<byte>>, i: nat)
    requires i + 1 < |names| && Distinct(names)
    ensures Rest(names, {names[i]}) != []
  {
    DistinctLast(names, i);
    assert names[|names| - 1] in Rest(names, {names[i]});
  }

  lemma {:induction false} DistinctLast(names: seq<seq<byte>>, i: nat)
    requires i + 1 < |names| && Distinct(names)
    ensures names[i] != names[|names| - 1]
  {
    if i > 0 {
      DistinctLast(names[1..], i - 1);
    } else {
      assert names[|names| - 1] == names[1..][|names| - 2];
    }
  }

  /** To put back everything, or the last block only, is to leave out a shorter prefix. */
  lemma ShorterPrefixes(schema: Dictionary, k: nat, back: set<seq<byte>>)
    requires Representable(schema) && 0 < k <= |Droppable(schema)|
    requires Blocks(schema, Rest(Droppable(schema)[..k], back))
    ensures var names := Droppable(schema)[..k];
            && (Rest(names, back) == [] ==>
                  AdvertisedSize(schema, Rest(names, back)) == |AdvertisedBytes(schema, 0)|)
            && (back == {names[k - 1]} ==>
                  AdvertisedSize(schema, Rest(names, back)) == |AdvertisedBytes(schema, k - 1)|)
  {
    hide Get, Present, Kept, Encode, Rest, Distinct;
    var names := Droppable(schema)[..k];
    DroppableBlocks(schema, k);
    RestOfLast(names);
    assert Droppable(schema)[..0] == [] && names[..k - 1] == Droppable(schema)[..k - 1];
  }

  /** Whatever would fit includes a block other than the last that fits on its own. */
  lemma SomeRoom(schema: Dictionary, k: nat, back: set<seq<byte>>)
    requires Representable(schema) && DistinctKeys(schema) && ShortestPrefix(schema, k)
    ensures WouldFit(schema, k, back) ==> exists i: nat :: i + 1 < k && RoomFor(schema, k, i)
  {
    hide Get, Present, Kept, Encode, Rest, Distinct;
    if WouldFit(schema, k, back) {
      var names := Droppable(schema)[..k];
      DroppableBlocks(schema, k);
      ShorterPrefixes(schema, k, back);
      assert !Fits(schema, 0) && !Fits(schema, k - 1);
      assert back != {names[k - 1]};
      var n := OtherThan(back, names[k - 1]);
      var i: nat :| i < k && names[i] == n;
      PuttingBackGrows(schema, names, back, n);
      assert i + 1 < k && RoomFor(schema, k, i);
    }
  }

  lemma OtherThan(back: set<seq<byte>>, last: seq<byte>) returns (n: seq<byte>)
    requires back != {} && back != {last}
    ensures n in back && n != last
  {
    var m :| m in back;
    assert back <= {last} ==> back == {last};
    n :| n in back && n != last;
  }

  /**
   None of the blocks that the split leaves out could be put back, unless there is room for one of them
   other than the last. In particular none could if at most one is left out.
   */
  lemma NothingPutBackUnlessRoom(schema: Dictionary, k: nat)
    requires Representable(schema) && DistinctKeys(schema) && ShortestPrefix(schema, k)
    ensures (exists back :: WouldFit(schema, k, back)) <==> exists i: nat :: i + 1 < k && RoomFor(schema, k, i)
    ensures k <= 1 ==> !exists back :: WouldFit(schema, k, back)
  {
    hide RoomFor, WouldFit, ShortestPrefix;
    ShortestIsPrefix(schema, k);
    if back :| WouldFit(schema, k, back) {
      SomeRoom(schema, k, back);
    }
    forall i: nat | i + 1 < k && RoomFor(schema, k, i) ensures WouldFit(schema, k, {Droppable(schema)[i]}) {
      WouldFitOne(schema, k, i);
    }
  }

  lemma ShortestIsPrefix(schema: Dictionary, k: nat)
    requires Representable(schema) && ShortestPrefix(schema, k)
    ensures k <= |Droppable(schema)|
  {
  }

  // ---------------------------------------------------------------- two schemas

  /** A schema with two droppable blocks, the first of them enums. */
  function TwoBlocks(v1: Item, n2: seq<byte>, v2: Item): Dictionary {
    [Entry(TYPE, Int(1)), Entry(VERSION, Int(1)), Entry(ENUMS, v1), Entry(n2, v2)]
  }

  predicate Second(n2: seq<byte>) {
    n2 == FUNCTIONS || n2 == INPUTS
  }

  lemma TwoGet(v1: Item, n2: seq<byte>, v2: Item, key: seq<byte>)
    requires Second(n2)
    ensures Get(TwoBlocks(v1, n2, v2), key)
         == if key == TYPE then Some(Int(1)) else if key == VERSION then Some(Int(1))
            else if key == ENUMS then Some(v1) else if key == n2 then Some(v2) else None
  {
    hide Get;
    var e1, e2, e3, e4 := Entry(TYPE, Int(1)), Entry(VERSION, Int(1)), Entry(ENUMS, v1), Entry(n2, v2);
    assert TwoBlocks(v1, n2, v2) == [e1, e2] + ([e3] + [e4]);
    Identity(e1, e2, key);
    GetAppend([e1, e2], [e3] + [e4], key);
    GetAppend([e3], [e4], key);
    GetOne(e3, key);
    GetOne(e4, key);
    KeysDiffer();
  }

  lemma GetOne(e: Entry, key: seq<byte>)
    ensures Get([e], key) == if key == e.key then Some(e.value) else None
  {
  }

  lemma TwoPresent(v1: Item, n2: seq<byte>, v2: Item)
    requires Second(n2)
    ensures Droppable(TwoBlocks(v1, n2, v2)) == [ENUMS, n2]
  {
    hide Get, TwoBlocks;
    var d := TwoBlocks(v1, n2, v2);
    KeysDiffer();
    TwoGet(v1, n2, v2, ENUMS);
    TwoGet(v1, n2, v2, FUNCTIONS);
    TwoGet(v1, n2, v2, DROPPABLE[2]);
    TwoGet(v1, n2, v2, DROPPABLE[3]);
    TwoGet(v1, n2, v2, INPUTS);
    assert Present(d, DROPPABLE[5..]) == [];
    assert Present(d, DROPPABLE[4..]) == if n2 == INPUTS then [INPUTS] else [];
    assert Present(d, DROPPABLE[3..]) == if n2 == INPUTS then [INPUTS] else [];
    assert Present(d, DROPPABLE[2..]) == if n2 == INPUTS then [INPUTS] else [];
    assert Present(d, DROPPABLE[1..]) == [n2];
  }

  lemma TwoRepresentable(v1: Item, n2: seq<byte>, v2: Item)
    requires Second(n2) && Encodable(v1) && Encodable(v2)
    ensures Representable(TwoBlocks(v1, n2, v2)) && DistinctKeys(TwoBlocks(v1, n2, v2))
  {
    hide Get, Ascii;
    var d := TwoBlocks(v1, n2, v2);
    TwoGet(v1, n2, v2, TYPE);
    TwoGet(v1, n2, v2, VERSION);
    KeysDiffer();
    assert Encodable(Int(1));
    assert |d[0].key| == 4 && |d[1].key| == 7 && |d[2].key| == 5 && |d[3].key| in {6, 9};
  }

  /** Its droppable blocks may be left out together or one at a time. */
  lemma TwoChoices(v1: Item, n2: seq<byte>, v2: Item)
    requires Second(n2)
    ensures var d := TwoBlocks(v1, n2, v2); Choice(d, [ENUMS, n2]) && Choice(d, [ENUMS]) && Choice(d, [n2])
  {
    hide Get, Ascii, Present, TwoBlocks;
    var d := TwoBlocks(v1, n2, v2);
    TwoPresent(v1, n2, v2);
    DroppableBlocks(d, 2);
    assert Droppable(d)[..2] == [ENUMS, n2];
    assert n2 in [ENUMS, n2];
    OneBlock(ENUMS);
    OneBlock(n2);
  }

  lemma OneBlock(n: seq<byte>)
    ensures Distinct([n])
  {
    assert [n][1..] == [];
  }

  /** All sizes of such a schema. */
  lemma TwoSizes(v1: Item, n2: seq<byte>, v2: Item)
    requires Second(n2) && Encodable(v1) && Encodable(v2)
    requires Representable(TwoBlocks(v1, n2, v2)) && DistinctKeys(TwoBlocks(v1, n2, v2))
    ensures var d, a, b := TwoBlocks(v1, n2, v2), |Encode(v1)|, |Encode(v2)|;
            && Choice(d, [ENUMS, n2]) && Choice(d, [ENUMS]) && Choice(d, [n2])
            && Droppable(d) == [ENUMS, n2] && |AdvertisedBytes(d, 0)| == 23 + |n2| + a + b
            && AdvertisedSize(d, [ENUMS]) == 32 + |n2| + b && AdvertisedSize(d, [n2]) == 32 + |n2| + a
            && AdvertisedSize(d, [ENUMS, n2]) == 32 + |n2| && |Kept(d, [ENUMS, n2])| == 3
  {
    hide Get, Put, Kept, Present, Encode, EncodeEntries, Base, Entries, TwoBlocks, Value, Blocks, Encodable, Ascii;
    var d := TwoBlocks(v1, n2, v2);
    TwoPresent(v1, n2, v2);
    TwoChoices(v1, n2, v2);
    TwoBase(v1, n2, v2);
    TwoValues(v1, n2, v2);
    ChoiceSize(d, [ENUMS, n2]);
    ChoiceSize(d, [ENUMS]);
    ChoiceSize(d, [n2]);
    TwoWhole(v1, n2, v2);
  }

  lemma TwoValues(v1: Item, n2: seq<byte>, v2: Item)
    requires Second(n2) && Encodable(v1) && Encodable(v2) && Representable(TwoBlocks(v1, n2, v2))
    ensures var d := TwoBlocks(v1, n2, v2);
            && AllIn(d, [ENUMS, n2]) && AllIn(d, [ENUMS]) && AllIn(d, [n2])
            && Value(d, [ENUMS]) == |Encode(v1)| && Value(d, [n2]) == |Encode(v2)|
            && Value(d, [ENUMS, n2]) == |Encode(v1)| + |Encode(v2)|
  {
    hide Get, TwoBlocks, Encode, Encodable, Ascii;
    var d := TwoBlocks(v1, n2, v2);
    KeysDiffer();
    TwoGet(v1, n2, v2, ENUMS);
    TwoGet(v1, n2, v2, n2);
    assert [ENUMS, n2][1..] == [n2] && [n2][1..] == [] && [ENUMS][1..] == [];
  }

  lemma TwoBase(v1: Item, n2: seq<byte>, v2: Item)
    requires Second(n2) && Encodable(v1) && Encodable(v2) && Representable(TwoBlocks(v1, n2, v2))
    ensures var d := TwoBlocks(v1, n2, v2);
            Base(d) == 31 + |n2| + |Encode(v1)| + |Encode(v2)| && Entries(d) == 5
  {
    hide Get, Encode, EncodeEntries, Encodable, Ascii;
    var d, skip := TwoBlocks(v1, n2, v2), [TYPE, VERSION];
    KeysDiffer();
    TwoGet(v1, n2, v2, TYPE);
    TwoGet(v1, n2, v2, VERSION);
    TwoGet(v1, n2, v2, OMITTED);
    var e3, e4 := Entry(ENUMS, v1), Entry(n2, v2);
    assert Without(d[4..], skip) == [];
    assert Without(d[3..], skip) == [e4];
    assert Without(d[2..], skip) == [e3] + [e4];
    assert Without(d[1..], skip) == [e3] + [e4];
    NoEntries();
    assert [e4] == [e4] + [];
    EntriesCons(e4, []);
    EntriesCons(e3, [e4]);
    SmallSizes(300);
  }

  lemma NoEntries()
    ensures EncodableEntries([]) && EncodeEntries([]) == []
  {
  }

  lemma TwoWhole(v1: Item, n2: seq<byte>, v2: Item)
    requires Second(n2) && Encodable(v1) && Encodable(v2) && Representable(TwoBlocks(v1, n2, v2))
    ensures |AdvertisedBytes(TwoBlocks(v1, n2, v2), 0)| == 23 + |n2| + |Encode(v1)| + |Encode(v2)|
  {
    hide Get, Encode, EncodeEntries, Encodable, Ascii, Present;
    var d, skip := TwoBlocks(v1, n2, v2), [TYPE, VERSION];
    KeysDiffer();
    TwoGet(v1, n2, v2, TYPE);
    TwoGet(v1, n2, v2, VERSION);
    var e1, e2, e3, e4 := d[0], d[1], d[2], d[3];
    assert Without(d[4..], skip) == [];
    assert Without(d[3..], skip) == [e4];
    assert Without(d[2..], skip) == [e3] + [e4];
    assert Without(d[1..], skip) == [e3] + [e4];
    assert skip + [] == skip && Droppable(d)[..0] == [];
    assert Kept(d, []) == [e1] + ([e2] + ([e3] + [e4]));
    NoEntries();
    assert [e4] == [e4] + [];
    EntriesCons(e4, []);
    EntriesCons(e3, [e4]);
    EntriesCons(e2, [e3] + [e4]);
    EntriesCons(e1, [e2] + ([e3] + [e4]));
    SmallSizes(300);
    PrefixParts(d, 0);
    DictSize(Kept(d, []));
  }

  /**
   For example: with 1300 bytes under enums and 300 under inputs the split leaves out the enums, although
   leaving out the inputs alone would do.
   */
  lemma NotFilledAsFarAsPossible()
    ensures var d := TwoBlocks(Text(Filler(1300)), INPUTS, Text(Filler(300)));
            && Representable(d) && DistinctKeys(d) && ShortestPrefix(d, 1) && Droppable(d) == [ENUMS, INPUTS]
            && |AdvertisedBytes(d, 1)| == 341 && Better(d, 1, [INPUTS]) && AdvertisedSize(d, [INPUTS]) == 1341
  {
    hide Get, Kept, Encode, Present, Filler, TwoBlocks, Ascii, Blocks;
    var v1, v2 := Text(Filler(1300)), Text(Filler(300));
    SmallSizes(1300);
    SmallSizes(300);
    TwoRepresentable(v1, INPUTS, v2);
    TwoSizes(v1, INPUTS, v2);
    KeysDiffer();
    PrefixIsChoice(TwoBlocks(v1, INPUTS, v2), 1);
    assert Droppable(TwoBlocks(v1, INPUTS, v2))[..1] == [ENUMS];
  }

  /** For example: an empty block of enums is left out before a huge block of functions, and could stay. */
  lemma CouldBePutBack()
    ensures var d := TwoBlocks(List([]), FUNCTIONS, Text(Filler(1400)));
            && Representable(d) && DistinctKeys(d) && ShortestPrefix(d, 2) && Droppable(d) == [ENUMS, FUNCTIONS]
            && |AdvertisedBytes(d, 2)| == 41 && RoomFor(d, 2, 0) && WouldFit(d, 2, {ENUMS})
  {
    hide Get, Kept, Encode, Present, Filler, TwoBlocks, Ascii, Blocks;
    var v1, v2 := List([]), Text(Filler(1400));
    var d := TwoBlocks(v1, FUNCTIONS, v2);
    SmallSizes(1400);
    TwoRepresentable(v1, FUNCTIONS, v2);
    TwoSizes(v1, FUNCTIONS, v2);
    KeysDiffer();
    PrefixIsChoice(d, 1);
    PrefixIsChoice(d, 2);
    assert Droppable(d)[..1] == [ENUMS] && Droppable(d)[..2] == [ENUMS, FUNCTIONS];
    TwoGet(v1, FUNCTIONS, v2, ENUMS);
    WouldFitOne(d, 2, 0);
  }
}
