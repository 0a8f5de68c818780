/** What the Python client makes of advertisements: its cache of fetched blocks, and the merged schemas. */
module SchemaClient {
  import opened Wire
  import opened Cbor
  import opened Advertisement
  import opened Schema
  import opened Fetch

  /** The id alone is not enough: another service may reuse it. */
  datatype CacheKey = CacheKey(kind: Item, id: nat, version: Item)

  /** The blocks of a successful fetch, or when to try again. */
  datatype Cached = Cached(blocks: Option<Dictionary>, retryAt: nat)

  datatype Known = Known(address: Address, desc: Dictionary)

  datatype State = State(cache: map<CacheKey, Cached>, services: map<nat, Known>)

  /** One advertisement, and the packets and times of the fetch it may cause. */
  datatype Event = Packet(payload: seq<byte>, inbox: seq<Datagram>, now: nat, later: nat)

  function OrElse(value: Option<Item>, default: Item): Item {
    if value.Some? then value.value else default
  }

  function KeyOf(id: nat, desc: Dictionary): CacheKey {
    CacheKey(OrElse(Get(desc, TYPE), Text([])), id, OrElse(Get(desc, VERSION), Int(0)))
  }

  /** A decoded blob must be a dictionary. */
  function Blocks(f: Fetched): Option<Dictionary> {
    match f
    case Failed => None
    case Nothing => Some([])
    case Complete(data) =>
      var d := Decode(data);
      if d.Some? && d.value.0.Dict? then Some(d.value.0.entries) else None
  }

  function FetchBlocks(src: Source, inbox: seq<Datagram>): Option<Dictionary> {
    Blocks(Collect(src, inbox, [], None, 0))
  }

  /** Successes are cached for good, failures for a while. */
  function Resolve(cache: map<CacheKey, Cached>, key: CacheKey, fetched: Option<Dictionary>, now: nat, later: nat)
      : (map<CacheKey, Cached>, Option<Dictionary>)
  {
    if key in cache && cache[key].blocks.Some? then (cache, cache[key].blocks)
    else if key in cache && now < cache[key].retryAt then (cache, None)
    else (cache[key := Cached(fetched, if fetched.None? then later + RETRY else 0)], fetched)
  }

  /** The advertisement's id, endpoint and description, if they are there and usable. */
  datatype Advert = Advert(id: nat, address: Address, desc: Dictionary)

  function Read(payload: seq<byte>): Option<Advert> {
    var d := Decode(payload);
    if d.None? || !d.value.0.Dict? then None
    else
      var msg := d.value.0.entries;
      var id, endpoint, desc := Get(msg, Ascii("sid")), OrElse(Get(msg, Ascii("endpoint")), Dict([])),
                                OrElse(Get(msg, Ascii("desc")), Dict([]));
      if id.None? || !id.value.Int? || id.value.n < 0 || !endpoint.Dict? || !desc.Dict? then None
      else
        var ip := OrElse(Get(endpoint.entries, Ascii("ip")), Text([]));
        var port := OrElse(Get(endpoint.entries, Ascii("port")), Int(0));
        if !ip.Text? || ip.utf8 == [] || !port.Int? || port.n == 0 then None
        else Some(Advert(id.value.n, Address(ip.utf8, port.n), desc.entries))
  }

  function Handle(s: State, e: Event): State {
    match Read(e.payload)
    case None => s
    case Some(Advert(id, address, desc)) =>
      if Incomplete(desc) then
        var (cache, details) :=
          Resolve(s.cache, KeyOf(id, desc), FetchBlocks(Source(address, id), e.inbox), e.now, e.later);
        State(cache, s.services[id := Known(address, Merge(desc, details))])
      else s.(services := s.services[id := Known(address, Merge(desc, None))])
  }

  function Run(s: State, es: seq<Event>): State
    decreases |es|
  {
    if es == [] then s else Handle(Run(s, es[..|es| - 1]), es[|es| - 1])
  }

  /** What a schema belongs to, as far as a description tells. */
  datatype Subject = Subject(id: nat, kind: Option<Item>, version: Option<Item>)

  function SubjectOf(id: nat, desc: Dictionary): Subject {
    Subject(id, Get(desc, TYPE), Get(desc, VERSION))
  }

  /** The subject that blocks are cached for. */
  function CachedFor(key: CacheKey): Subject {
    Subject(key.id, Some(key.kind), Some(key.version))
  }

  /** Another type, id or version is another key. */
  lemma KeysDistinguish(i: nat, d: Dictionary, j: nat, e: Dictionary)
    requires HasIdentity(d) && HasIdentity(e)
    ensures CachedFor(KeyOf(i, d)) == SubjectOf(i, d)
    ensures KeyOf(i, d) == KeyOf(j, e) <==> SubjectOf(i, d) == SubjectOf(j, e)
  {
  }

  // ---------------------------------------------------------------- what the services are

  /** A schema whose generator accepts it, leaving out the first `k` droppable blocks. */
  ghost predicate Splits(schema: Dictionary, k: nat): (b: bool)
    ensures b ==> k <= |Droppable(schema)|
  {
    && Representable(schema) && Get(schema, OMITTED).None?
    && ShortestPrefix(schema, k) && |OmittedBytes(schema, k)| <= MAX_OMITTED
  }

  function Names(schema: Dictionary, k: nat): (names: seq<seq<byte>>)
    requires k <= |Droppable(schema)|
    ensures AllIn(schema, names)
  {
    Droppable(schema)[..k]
  }

  /**
   Whatever reads as an advertisement comes from a service whose type, id and version determine its schema,
   and shows its advertised part; datagrams from that service hold genuine windows of the omitted part.
   Packets that are no advertisements, and datagrams from other senders, may hold anything.
   */
  ghost predicate Honest(schemaOf: Subject -> Dictionary, e: Event) {
    match Read(e.payload)
    case None => true
    case Some(Advert(id, address, desc)) =>
      var schema := schemaOf(SubjectOf(id, desc));
      exists k: nat :: Splits(schema, k) && desc == Kept(schema, Names(schema, k))
                       && AllGenuine(Source(address, id), e.inbox, OmittedBytes(schema, k))
  }

  /** Cached blocks are the omitted blocks of the schema they are cached for. */
  ghost predicate CacheTrue(schemaOf: Subject -> Dictionary, cache: map<CacheKey, Cached>) {
    forall key :: key in cache && cache[key].blocks.Some? ==>
      CachedTrue(schemaOf(CachedFor(key)), cache[key].blocks.value)
  }

  ghost predicate CachedTrue(schema: Dictionary, blocks: Dictionary) {
    exists k: nat :: Splits(schema, k) && blocks == Left(schema, Names(schema, k))
  }

  /** A known description is the whole schema, or the advertised part marked as incomplete. */
  ghost predicate DescriptionTrue(schema: Dictionary, desc: Dictionary) {
    || SameDictionary(desc, schema)
    || exists k: nat :: Splits(schema, k) && k > 0 && desc == Kept(schema, Names(schema, k)) && Incomplete(desc)
  }

  ghost predicate Inv(schemaOf: Subject -> Dictionary, s: State) {
    && CacheTrue(schemaOf, s.cache)
    && forall id :: id in s.services ==>
         DescriptionTrue(schemaOf(SubjectOf(id, s.services[id].desc)), s.services[id].desc)
  }

  lemma SplitUnique(schema: Dictionary, j: nat, k: nat)
    requires Splits(schema, j) && Splits(schema, k)
    ensures j == k
  {
    hide Fits, Droppable;
  }

  lemma FetchedBlocks(schema: Dictionary, k: nat, src: Source, inbox: seq<Datagram>)
    requires Splits(schema, k) && AllGenuine(src, inbox, OmittedBytes(schema, k))
    ensures FetchBlocks(src, inbox) == None || FetchBlocks(src, inbox) == Some(Left(schema, Names(schema, k)))
  {
    hide Decode, Encode, Collect, Left, Kept, Droppable;
    PrefixParts(schema, k);
    FetchReturnsTheBlob(src, inbox, OmittedBytes(schema, k));
    RoundTrip(Dict(Left(schema, Names(schema, k))), []);
    assert OmittedBytes(schema, k) + [] == OmittedBytes(schema, k);
  }

  lemma ResolveKeepsTruth(schemaOf: Subject -> Dictionary, cache: map<CacheKey, Cached>, key: CacheKey, k: nat,
                          fetched: Option<Dictionary>, now: nat, later: nat)
    requires CacheTrue(schemaOf, cache) && Splits(schemaOf(CachedFor(key)), k)
    requires var schema := schemaOf(CachedFor(key));
             fetched == None || fetched == Some(Left(schema, Names(schema, k)))
    ensures var schema := schemaOf(CachedFor(key));
            var (cache', details) := Resolve(cache, key, fetched, now, later);
            CacheTrue(schemaOf, cache') && (details == None || details == Some(Left(schema, Names(schema, k))))
  {
    hide Splits, Left, Names;
    var schema := schemaOf(CachedFor(key));
    if fetched.Some? {
      assert CachedTrue(schema, fetched.value);
    }
    if key in cache && cache[key].blocks.Some? {
      assert CachedTrue(schema, cache[key].blocks.value);
      var j: nat :| Splits(schema, j) && cache[key].blocks.value == Left(schema, Names(schema, j));
      SplitUnique(schema, j, k);
    }
  }

  lemma SameSubject(id: nat, schema: Dictionary, k: nat, desc: Dictionary)
    requires Splits(schema, k) && (SameDictionary(desc, schema) || desc == Kept(schema, Names(schema, k)))
    ensures HasIdentity(desc) && SubjectOf(id, desc) == SubjectOf(id, schema)
  {
    hide Get, Kept, Droppable, ShortestPrefix;
    GetKept(schema, Names(schema, k), TYPE);
    GetKept(schema, Names(schema, k), VERSION);
    Identity(Entry(TYPE, Int(0)), Entry(VERSION, Int(0)), TYPE);
  }

  lemma HandleKeepsInv(schemaOf: Subject -> Dictionary, s: State, e: Event)
    requires Inv(schemaOf, s) && Honest(schemaOf, e)
    ensures Inv(schemaOf, Handle(s, e))
  {
    hide Get, Kept, Left, Droppable, Decode, Update, Without, Resolve, FetchBlocks, Read, SameDictionary, KeyOf;
    if Read(e.payload).Some? {
      var Advert(id, address, desc) := Read(e.payload).value;
      var key := KeyOf(id, desc);
      var schema := schemaOf(SubjectOf(id, desc));
      var src := Source(address, id);
      var k: nat :| Splits(schema, k) && desc == Kept(schema, Names(schema, k))
                    && AllGenuine(src, e.inbox, OmittedBytes(schema, k));
      SameSubject(id, schema, k, desc);
      KeysDistinguish(id, desc, id, desc);
      FetchedBlocks(schema, k, src, e.inbox);
      ResolveKeepsTruth(schemaOf, s.cache, key, k, FetchBlocks(src, e.inbox), e.now, e.later);
      MergeRestores(schema, Names(schema, k));
      var merged := Merge(desc, Some(Left(schema, Names(schema, k))));
      SameSubject(id, schema, k, merged);
      assert k == 0 ==> Names(schema, k) == [];
      assert Handle(s, e).services.Keys == s.services.Keys + {id};
      assert DescriptionTrue(schema, merged);
      assert Incomplete(desc) ==> DescriptionTrue(schema, desc);
    }
  }

  /**
   Over any run of advertisements and fetches, every known description is the service's whole schema, or
   the advertised part with its list of missing blocks; never a mixture, never another service's blocks.
   */
  lemma {:induction false} DescriptionsAreTrue(schemaOf: Subject -> Dictionary, es: seq<Event>)
    requires forall e :: e in es ==> Honest(schemaOf, e)
    ensures Inv(schemaOf, Run(State(map[], map[]), es))
    decreases |es|
  {
    if es != [] {
      assert es[|es| - 1] in es && forall e :: e in es[..|es| - 1] ==> e in es;
      DescriptionsAreTrue(schemaOf, es[..|es| - 1]);
      HandleKeepsInv(schemaOf, Run(State(map[], map[]), es[..|es| - 1]), es[|es| - 1]);
    }
  }

  // ---------------------------------------------------------------- when the client has the whole schema

  predicate Succeeded(cache: map<CacheKey, Cached>, key: CacheKey) {
    key in cache && cache[key].blocks.Some?
  }

  /** No fetch has succeeded, and none has failed lately. */
  predicate MayFetch(cache: map<CacheKey, Cached>, key: CacheKey, now: nat) {
    key in cache ==> cache[key].blocks.None? && now >= cache[key].retryAt
  }

  lemma ResolveIff(cache: map<CacheKey, Cached>, key: CacheKey, fetched: Option<Dictionary>, now: nat, later: nat)
    ensures var (cache', details) := Resolve(cache, key, fetched, now, later);
            && (details.Some? <==> Succeeded(cache, key) || (MayFetch(cache, key, now) && fetched.Some?))
            && cache' == if MayFetch(cache, key, now)
                         then cache[key := Cached(fetched, if fetched.None? then later + RETRY else 0)] else cache
  {
  }

  lemma KeptIsNotWhole(schema: Dictionary, k: nat)
    requires Splits(schema, k) && k > 0
    ensures !SameDictionary(Kept(schema, Names(schema, k)), schema)
  {
    hide Get, Kept, Droppable, ShortestPrefix;
    GetKept(schema, Names(schema, k), OMITTED);
    assert Names(schema, k) != [];
  }

  /**
   An advertisement makes the client know the service at its endpoint, and changes no other. It has the whole
   schema exactly if nothing was omitted, the blocks are cached, or a fetch is tried and completes; otherwise
   it has what was advertised.
   */
  lemma StoredDescription(schemaOf: Subject -> Dictionary, s: State, e: Event)
    requires Inv(schemaOf, s) && Honest(schemaOf, e) && Read(e.payload).Some?
    ensures var Advert(id, address, desc) := Read(e.payload).value;
            var key, t, schema := KeyOf(id, desc), Handle(s, e), schemaOf(SubjectOf(id, desc));
            && t.services.Keys == s.services.Keys + {id} && t.services[id].address == address
            && (forall i :: i in s.services && i != id ==> t.services[i] == s.services[i])
            && (SameDictionary(t.services[id].desc, schema)
                <==> Get(desc, OMITTED).None? || Succeeded(s.cache, key)
                     || (MayFetch(s.cache, key, e.now) && FetchBlocks(Source(address, id), e.inbox).Some?))
            && (!SameDictionary(t.services[id].desc, schema) ==> t.services[id].desc == desc)
  {
    hide Get, Kept, Left, Droppable, Decode, Update, Without, Resolve, FetchBlocks, Read, SameDictionary, KeyOf;
    hide Succeeded, MayFetch;
    var Advert(id, address, desc) := Read(e.payload).value;
    var key, schema, src := KeyOf(id, desc), schemaOf(SubjectOf(id, desc)), Source(address, id);
    var k: nat :| Splits(schema, k) && desc == Kept(schema, Names(schema, k))
                  && AllGenuine(src, e.inbox, OmittedBytes(schema, k));
    SameSubject(id, schema, k, desc);
    KeysDistinguish(id, desc, id, desc);
    FetchedBlocks(schema, k, src, e.inbox);
    ResolveKeepsTruth(schemaOf, s.cache, key, k, FetchBlocks(src, e.inbox), e.now, e.later);
    ResolveIff(s.cache, key, FetchBlocks(src, e.inbox), e.now, e.later);
    MergeRestores(schema, Names(schema, k));
    GetKept(schema, Names(schema, k), OMITTED);
    Identity(Entry(TYPE, Int(0)), Entry(VERSION, Int(0)), OMITTED);
    if k > 0 {
      KeptIsNotWhole(schema, k);
    }
    assert k == 0 <==> Names(schema, k) == [];
    assert Get(desc, OMITTED).None? <==> k == 0;
  }

  /** A fetch that has succeeded is never repeated: its blocks stay in the cache. */
  lemma {:induction false} SuccessIsForGood(s: State, es: seq<Event>, key: CacheKey)
    requires Succeeded(s.cache, key)
    ensures Succeeded(Run(s, es).cache, key) && Run(s, es).cache[key] == s.cache[key]
    decreases |es|
  {
    hide Read, FetchBlocks, KeyOf;
    if es != [] {
      SuccessIsForGood(s, es[..|es| - 1], key);
    }
  }

  /** One that has failed is tried again at the first advertisement after 30 seconds, and no sooner. */
  lemma FailureIsRetried(s: State, e: Event, now: nat)
    requires Read(e.payload).Some? && Incomplete(Read(e.payload).value.desc)
    requires var Advert(id, address, desc) := Read(e.payload).value;
             MayFetch(s.cache, KeyOf(id, desc), e.now) && FetchBlocks(Source(address, id), e.inbox).None?
    ensures var Advert(id, address, desc) := Read(e.payload).value;
            var cache, key := Handle(s, e).cache, KeyOf(id, desc);
            !Succeeded(cache, key) && (MayFetch(cache, key, now) <==> now >= e.later + 30_000_000)
  {
    hide Read, FetchBlocks, KeyOf, Incomplete;
  }

  // ---------------------------------------------------------------- from the service to the client

  lemma KeysOfMessage()
    ensures Ascii("sid") != Ascii("endpoint") && Ascii("sid") != Ascii("desc") && Ascii("endpoint") != Ascii("desc")
    ensures Ascii("ip") != Ascii("port") && Ascii("ip") != Ascii("endpoint") && Ascii("port") != Ascii("endpoint")
  {
    assert |Ascii("sid")| == 3 && |Ascii("endpoint")| == 8 && |Ascii("desc")| == 4;
    assert |Ascii("ip")| == 2 && |Ascii("port")| == 4;
  }

  lemma GetThird(a: Entry, b: Entry, c: Entry)
    requires a.key != b.key && a.key != c.key && b.key != c.key
    ensures Get([a, b, c], a.key) == Some(a.value) && Get([a, b, c], b.key) == Some(b.value)
            && Get([a, b, c], c.key) == Some(c.value)
    ensures Get([a, b], a.key) == Some(a.value) && Get([a, b], b.key) == Some(b.value)
  {
    assert [a, b, c][1..] == [b, c] && [b, c][1..] == [c] && [a, b][1..] == [b];
    assert Get([b], b.key) == Some(b.value) && Get([c], c.key) == Some(c.value);
    assert Get([b, c], b.key) == Some(b.value) && Get([b, c], c.key) == Some(c.value);
  }

  /** The client reads from the generated advertisement what the service put in, unless that is no endpoint. */
  lemma AdvertisementIsRead(sid: nat, address: seq<byte>, port: nat, desc: Dictionary)
    requires sid < U16 && port < U16 && |address| < 16 && Encodable(Dict(desc))
    ensures Read(Message(sid, address, port, Encode(Dict(desc))))
         == if port == 0 || address == [] then None else Some(Advert(sid, Address(address, port), desc))
  {
    hide Decode, Encode, Message, Get, Ascii;
    RoundTrip(Dict(desc), []);
    assert Encode(Dict(desc)) + [] == Encode(Dict(desc));
    MessageDecodes(sid, address, port, Encode(Dict(desc)), Dict(desc));
    KeysOfMessage();
    GetThird(Entry(Ascii("sid"), Int(sid)), Entry(Ascii("endpoint"), Endpoint(address, port)),
             Entry(Ascii("desc"), Dict(desc)));
    GetThird(Entry(Ascii("ip"), Text(address)), Entry(Ascii("port"), Int(port)), Entry(Ascii("endpoint"), Int(0)));
  }

  /**
   End to end: the generator splits a schema, the service advertises one part and serves the other, the
   client fetches and merges. If the fetch completes, or nothing was omitted, the client has the schema.
   */
  lemma SchemaArrives(schema: Dictionary, k: nat, sid: nat, address: seq<byte>, port: nat, inbox: seq<Datagram>,
                      now: nat, later: nat)
    requires Splits(schema, k) && sid < U16 && 0 < port < U16 && 0 < |address| < 16
    requires AllGenuine(Source(Address(address, port), sid), inbox, OmittedBytes(schema, k))
    ensures var e := Packet(Message(sid, address, port, AdvertisedBytes(schema, k)), inbox, now, later);
            var s := Handle(State(map[], map[]), e);
            && sid in s.services && s.services[sid].address == Address(address, port)
            && (k == 0 || FetchBlocks(Source(Address(address, port), sid), inbox).Some? ==>
                  SameDictionary(s.services[sid].desc, schema))
  {
    hide Get, Kept, Left, Droppable, Decode, Encode, Update, Without, FetchBlocks, Read, SameDictionary, KeyOf, Message;
    PrefixParts(schema, k);
    AdvertisementIsRead(sid, address, port, Kept(schema, Names(schema, k)));
    FetchedBlocks(schema, k, Source(Address(address, port), sid), inbox);
    MergeRestores(schema, Names(schema, k));
    assert k == 0 ==> Names(schema, k) == [];
  }

  // ---------------------------------------------------------------- the code, on objects

  class ServiceDiscovery {
    var cache: map<CacheKey, Cached>
    var services: map<nat, Known>

    function View(): State
      reads this
    {
      State(cache, services)
    }

    constructor ()
      ensures View() == State(map[], map[])
    {
      cache, services := map[], map[];
    }

    /** Returns a cached result if there is one, else fetches. */
    method OmittedBlocks(key: CacheKey, src: Source, inbox: seq<Datagram>, now: nat, later: nat)
        returns (blocks: Option<Dictionary>)
      modifies this`cache
      ensures (cache, blocks) == Resolve(old(cache), key, FetchBlocks(src, inbox), now, later)
      ensures if MayFetch(old(cache), key, now) then
                && blocks == FetchBlocks(src, inbox)
                && cache == old(cache)[key := Cached(blocks, if blocks.None? then later + RETRY else 0)]
              else
                cache == old(cache) && blocks == if Succeeded(cache, key) then cache[key].blocks else None
    {
      hide Collect, Decode;
      if key in cache {
        if cache[key].blocks.Some? {
          return cache[key].blocks;
        }
        if now < cache[key].retryAt {
          return None;
        }
      }
      var f, requests := FetchWindows(src, inbox);
      blocks := Blocks(f);
      if blocks.None? {
        cache := cache[key := Cached(None, later + RETRY)];
      } else {
        cache := cache[key := Cached(blocks, 0)];
      }
    }

    method HandlePacket(e: Event)
      modifies this
      ensures View() == Handle(old(View()), e)
    {
      hide Read, Resolve, FetchBlocks, Update, Without, Get, Incomplete;
      var advert := Read(e.payload);
      if advert.None? {
        return;
      }
      var Advert(id, address, desc) := advert.value;
      if Incomplete(desc) {
        var details := OmittedBlocks(KeyOf(id, desc), Source(address, id), e.inbox, e.now, e.later);
        if details.Some? {
          desc := Update(Without(desc, [OMITTED]), details.value);
        }
      } else {
        desc := Without(desc, [OMITTED]);
      }
      services := services[id := Known(address, desc)];
    }
  }
}
