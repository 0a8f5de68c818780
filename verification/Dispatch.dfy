/** How the generated dispatcher reads the parameters of a call, and when each gets a value. */
module Dispatch {
  import opened Wire
  import opened Framing

  /** A declared parameter: exactly `size` bytes, or at most `size` bytes of `element` byte values. */
  datatype Param = Scalar(id: nat, size: nat) | Array(id: nat, element: nat, size: nat)

  predicate SizeOk(p: Param, size: nat) {
    match p
    case Scalar(_, expected) => size == expected
    case Array(_, element, limit) => element > 0 && size % element == 0 && size <= limit
  }

  predicate DistinctIds(ps: seq<Param>) {
    forall i, j :: 0 <= i < j < |ps| ==> ps[i].id != ps[j].id
  }

  function Find(ps: seq<Param>, id: nat): (r: Option<Param>)
    ensures r.Some? ==> r.value in ps && r.value.id == id
    ensures r.None? ==> forall p :: p in ps ==> p.id != id
  {
    if ps == [] then None else if ps[0].id == id then Some(ps[0]) else Find(ps[1..], id)
  }

  /** The chunks that name a declared parameter. */
  function Known(ps: seq<Param>, cs: seq<Chunk>): seq<Chunk> {
    if cs == [] then []
    else (if Find(ps, cs[0].id).Some? then [cs[0]] else []) + Known(ps, cs[1..])
  }

  predicate AllSizesOk(ps: seq<Param>, cs: seq<Chunk>) {
    forall c :: c in cs && Find(ps, c.id).Some? ==> SizeOk(Find(ps, c.id).value, |c.data|)
  }

  /** Later chunks overwrite earlier ones. */
  function Values(ps: seq<Param>, cs: seq<Chunk>): map<nat, seq<byte>> {
    if cs == [] then map[]
    else
      var before := Values(ps, cs[..|cs| - 1]);
      var c := cs[|cs| - 1];
      if Find(ps, c.id).Some? && SizeOk(Find(ps, c.id).value, |c.data|) then before[c.id := c.data] else before
  }

  /** No chunk runs past the end; up to seven stray bytes after the last one are not noticed. */
  predicate Complete(payload: seq<byte>) {
    Parse(payload).end + DESCRIPTOR_SIZE > |payload|
  }

  /**
   When the function is called: the count of received parameters is an 8-bit counter, and a function
   without parameters never looks at the payload.
   */
  predicate Accepts(ps: seq<Param>, payload: seq<byte>) {
    var cs := Parse(payload).chunks;
    ps == [] || (Complete(payload) && AllSizesOk(ps, cs) && |Known(ps, cs)| % 256 == |ps|)
  }

  lemma {:induction false} NoParams(cs: seq<Chunk>)
    ensures Known([], cs) == [] && Values([], cs) == map[]
    decreases |cs|
  {
    if cs != [] {
      NoParams(cs[1..]);
      NoParams(cs[..|cs| - 1]);
    }
  }

  lemma {:induction false} KnownAppend(ps: seq<Param>, cs: seq<Chunk>, c: Chunk)
    ensures Known(ps, cs + [c]) == Known(ps, cs) + (if Find(ps, c.id).Some? then [c] else [])
  {
    hide Find;
    if cs == [] {
      assert [] + [c] == [c] && [c][1..] == [];
    } else {
      assert (cs + [c])[1..] == cs[1..] + [c];
      KnownAppend(ps, cs[1..], c);
      Assoc(if Find(ps, cs[0].id).Some? then [cs[0]] else [], Known(ps, cs[1..]),
            if Find(ps, c.id).Some? then [c] else []);
    }
  }

  lemma AppendChunk(ps: seq<Param>, cs: seq<Chunk>, c: Chunk)
    ensures var p := Find(ps, c.id);
            && |Known(ps, cs + [c])| == |Known(ps, cs)| + (if p.Some? then 1 else 0)
            && (AllSizesOk(ps, cs + [c]) <==> AllSizesOk(ps, cs) && (p.Some? ==> SizeOk(p.value, |c.data|)))
            && Values(ps, cs + [c])
               == if p.Some? && SizeOk(p.value, |c.data|) then Values(ps, cs)[c.id := c.data] else Values(ps, cs)
  {
    KnownAppend(ps, cs, c);
    assert (cs + [c])[..|cs|] == cs;
    assert c in cs + [c];
    forall d | d in cs ensures d in cs + [c] {
      var i :| 0 <= i < |cs| && cs[i] == d;
      assert (cs + [c])[i] == d;
    }
  }

  lemma NoChunks(ps: seq<Param>)
    ensures Known(ps, []) == [] && AllSizesOk(ps, []) && Values(ps, []) == map[]
  {
  }

  /** What the loop knows after the chunks `cs`. */
  predicate Tracks(ps: seq<Param>, cs: seq<Chunk>, parseOk: bool, received: int, values: map<nat, seq<byte>>) {
    && parseOk == AllSizesOk(ps, cs) && values == Values(ps, cs)
    && (parseOk ==> received == |Known(ps, cs)| % 256)
  }

  lemma CountsOn(n: nat)
    ensures (n % 256 + 1) % 256 == (n + 1) % 256
  {
  }

  lemma TracksNext(ps: seq<Param>, cs: seq<Chunk>, c: Chunk, parseOk: bool, received: int, values: map<nat, seq<byte>>)
    requires Tracks(ps, cs, parseOk, received, values)
    ensures var p := Find(ps, c.id);
            if p.None? then Tracks(ps, cs + [c], parseOk, received, values)
            else if SizeOk(p.value, |c.data|)
            then Tracks(ps, cs + [c], parseOk, (received + 1) % 256, values[c.id := c.data])
            else Tracks(ps, cs + [c], false, received, values)
  {
    hide Known, AllSizesOk, Values, Find, SizeOk;
    AppendChunk(ps, cs, c);
    CountsOn(|Known(ps, cs)|);
  }

  lemma TracksMeans(ps: seq<Param>, cs: seq<Chunk>, parseOk: bool, received: int, values: map<nat, seq<byte>>)
    requires Tracks(ps, cs, parseOk, received, values)
    ensures parseOk == AllSizesOk(ps, cs) && values == Values(ps, cs)
    ensures parseOk ==> received == |Known(ps, cs)| % 256
  {
  }

  lemma TracksNothing(ps: seq<Param>)
    ensures Tracks(ps, [], true, 0, map[])
  {
    NoChunks(ps);
  }

  // ---------------------------------------------------------------- what a call is given

  function Ids(cs: seq<Chunk>): set<nat> {
    set c | c in cs :: c.id
  }

  function ParamIds(ps: seq<Param>): set<nat> {
    set p | p in ps :: p.id
  }

  /** The bytes that a declared type takes: exactly so many, or whole elements up to a limit. */
  ghost predicate HasDeclaredSize(p: Param, data: seq<byte>) {
    && (p.Scalar? ==> |data| == p.size)
    && (p.Array? ==> |data| <= p.size && p.element > 0 && |data| % p.element == 0)
  }

  /** Every chunk for a declared parameter has its size. */
  ghost predicate SizesMatch(ps: seq<Param>, cs: seq<Chunk>) {
    forall i, j :: 0 <= i < |ps| && 0 <= j < |cs| && ps[i].id == cs[j].id ==> HasDeclaredSize(ps[i], cs[j].data)
  }

  lemma {:induction false} FindAt(ps: seq<Param>, i: nat)
    requires DistinctIds(ps) && i < |ps|
    ensures Find(ps, ps[i].id) == Some(ps[i])
  {
    if i > 0 {
      assert ps[0].id != ps[i].id;
      FindAt(ps[1..], i - 1);
    }
  }

  lemma SizesOkIff(ps: seq<Param>, cs: seq<Chunk>)
    requires DistinctIds(ps)
    ensures AllSizesOk(ps, cs) <==> SizesMatch(ps, cs)
  {
    hide Find;
    forall i | 0 <= i < |ps| ensures Find(ps, ps[i].id) == Some(ps[i]) {
      FindAt(ps, i);
    }
    if SizesMatch(ps, cs) {
      forall c | c in cs && Find(ps, c.id).Some? ensures SizeOk(Find(ps, c.id).value, |c.data|) {
        var j :| 0 <= j < |cs| && cs[j] == c;
        var i :| 0 <= i < |ps| && ps[i] == Find(ps, c.id).value;
        assert ps[i].id == cs[j].id;
      }
    }
    if AllSizesOk(ps, cs) {
      forall i, j | 0 <= i < |ps| && 0 <= j < |cs| && ps[i].id == cs[j].id ensures HasDeclaredSize(ps[i], cs[j].data) {
        assert cs[j] in cs && SizeOk(Find(ps, cs[j].id).value, |cs[j].data|);
      }
    }
  }

  lemma {:induction false} FoundIff(ps: seq<Param>, id: nat)
    ensures Find(ps, id).Some? <==> id in ParamIds(ps)
  {
    if ps != [] {
      FoundIff(ps[1..], id);
      assert ps == [ps[0]] + ps[1..];
      assert id in ParamIds(ps) <==> ps[0].id == id || id in ParamIds(ps[1..]);
    }
  }

  /** When every size matches, each parameter that is named gets its last value, and nothing else gets one. */
  lemma {:induction false} LastValues(ps: seq<Param>, cs: seq<Chunk>, id: nat)
    requires AllSizesOk(ps, cs)
    ensures id in Values(ps, cs) <==> id in ParamIds(ps) && id in Ids(cs)
    ensures id in Values(ps, cs) ==> forall j :: LastChunk(cs, j, id) ==> Values(ps, cs)[id] == cs[j].data
    decreases |cs|
  {
    hide Find, SizeOk;
    if cs != [] {
      var n := |cs| - 1;
      var before, c := cs[..n], cs[n];
      assert c in cs && forall d :: d in before ==> d in cs;
      LastValues(ps, before, id);
      FoundIff(ps, c.id);
      assert cs == before + [c];
      assert id in Ids(cs) <==> id in Ids(before) || id == c.id;
      forall j | LastChunk(cs, j, id) ensures if c.id == id then j == n else LastChunk(before, j, id) {
      }
    }
  }

  /** The chunks that name a parameter. */
  function Naming(ps: seq<Param>, cs: seq<Chunk>): set<int> {
    set j | 0 <= j < |cs| && cs[j].id in ParamIds(ps)
  }

  lemma {:induction false} KnownCount(ps: seq<Param>, cs: seq<Chunk>)
    ensures |Known(ps, cs)| == |Naming(ps, cs)|
    decreases |cs|
  {
    hide ParamIds, Find;
    if cs != [] {
      var n := |cs| - 1;
      KnownCount(ps, cs[..n]);
      KnownAppend(ps, cs[..n], cs[n]);
      FoundIff(ps, cs[n].id);
      NamingAppend(ps, cs);
      assert cs == cs[..n] + [cs[n]];
    }
  }

  lemma NamingAppend(ps: seq<Param>, cs: seq<Chunk>)
    requires cs != []
    ensures var n := |cs| - 1;
            |Naming(ps, cs)| == |Naming(ps, cs[..n])| + if cs[n].id in ParamIds(ps) then 1 else 0
  {
    hide ParamIds;
    var n := |cs| - 1;
    assert forall j :: 0 <= j < n ==> cs[..n][j] == cs[j];
    assert Naming(ps, cs) == Naming(ps, cs[..n]) + (if cs[n].id in ParamIds(ps) then {n} else {});
  }

  /**
   A call that runs: nothing but a stray end follows the last chunk, every value for a parameter has its
   size, and as many chunks name parameters as there are parameters, modulo 256.
   */
  ghost predicate CallIsGood(ps: seq<Param>, payload: seq<byte>) {
    var p := Parse(payload);
    ps == [] || (|payload| < p.end + DESCRIPTOR_SIZE && SizesMatch(ps, p.chunks)
                 && |Naming(ps, p.chunks)| % 256 == |ps|)
  }

  /** The arguments: for each parameter that is named, the last value it is given. */
  ghost predicate ArgumentsOf(ps: seq<Param>, cs: seq<Chunk>, values: map<nat, seq<byte>>) {
    && (forall id :: id in values <==> id in ParamIds(ps) && id in Ids(cs))
    && (forall id, j :: id in values && LastChunk(cs, j, id) ==> values[id] == cs[j].data)
  }

  lemma AcceptsMeans(ps: seq<Param>, payload: seq<byte>)
    ensures DistinctIds(ps) ==> (Accepts(ps, payload) <==> CallIsGood(ps, payload))
    ensures Accepts(ps, payload) && ps != [] ==>
              ArgumentsOf(ps, Parse(payload).chunks, Values(ps, Parse(payload).chunks))
  {
    hide Known, ParseFrom, AllSizesOk, SizesMatch, Values, ParamIds, Ids;
    var cs := Parse(payload).chunks;
    KnownCount(ps, cs);
    if DistinctIds(ps) {
      SizesOkIff(ps, cs);
    }
    if Accepts(ps, payload) && ps != [] {
      forall id: nat
        ensures id in Values(ps, cs) <==> id in ParamIds(ps) && id in Ids(cs)
        ensures forall j :: id in Values(ps, cs) && LastChunk(cs, j, id) ==> Values(ps, cs)[id] == cs[j].data
      {
        LastValues(ps, cs, id);
      }
    }
  }

  /** The generated loop. */
  method DispatchRpcCall(ps: seq<Param>, payload: seq<byte>) returns (call: bool, values: map<nat, seq<byte>>)
    ensures call == Accepts(ps, payload)
    ensures call ==> values == Values(ps, Parse(payload).chunks)
    ensures DistinctIds(ps) ==> (call <==> CallIsGood(ps, payload))
    ensures call && ps != [] ==> ArgumentsOf(ps, Parse(payload).chunks, values)
  {
    AcceptsMeans(ps, payload);
    hide CallIsGood, ArgumentsOf, DistinctIds;
    hide Tracks, Known, AllSizesOk, Values, Find, SizeOk, ParseFrom, HasChunk, ChunkAt, After, IdAt, SizeAt;
    if ps == [] {
      NoParams(Parse(payload).chunks);
      return true, map[];
    }
    TracksNothing(ps);
    var offset, parseOk, received := 0, true, 0;
    values := map[];
    ghost var cs: seq<Chunk> := [];
    assert cs + ParseFrom(payload, 0).chunks == Parse(payload).chunks;
    while offset + DESCRIPTOR_SIZE <= |payload|
      invariant offset <= |payload|
      invariant var rest := ParseFrom(payload, offset);
                Parsed(cs + rest.chunks, rest.end) == Parse(payload)
      invariant Tracks(ps, cs, parseOk, received, values)
      decreases |payload| - offset
    {
      ghost var start := offset;
      var id, size := IdAt(payload, offset), SizeAt(payload, offset);
      Behind(payload, start);
      offset := offset + DESCRIPTOR_SIZE;
      if offset + size > |payload| {
        Stop(payload, start, cs);
        return false, values;
      }
      var data := payload[offset..offset + size];
      Consume(payload, start, cs);
      TracksNext(ps, cs, Chunk(id, data), parseOk, received, values);
      var p := Find(ps, id);
      if p.Some? {
        if SizeOk(p.value, size) {
          values := values[id := data];
          received := (received + 1) % 256;
        } else {
          parseOk := false;
        }
      }
      cs := cs + [Chunk(id, data)];
      offset := offset + size;
    }
    AtEnd(payload, offset);
    Stop(payload, offset, cs);
    TracksMeans(ps, cs, parseOk, received, values);
    call := parseOk && received == |ps|;
  }

  // ---------------------------------------------------------------- when every parameter is given

  predicate NoRepeats(cs: seq<Chunk>) {
    forall i, j :: 0 <= i < j < |cs| ==> cs[i].id != cs[j].id
  }

  lemma RepeatsCons(c: Chunk, tail: seq<Chunk>)
    ensures Ids([c] + tail) == {c.id} + Ids(tail)
    ensures NoRepeats([c] + tail) <==> NoRepeats(tail) && c.id !in Ids(tail)
  {
    var cs := [c] + tail;
    if c.id in Ids(tail) {
      var j :| 0 <= j < |tail| && tail[j].id == c.id;
      assert cs[0].id == cs[j + 1].id;
    }
    if NoRepeats(cs) {
      forall i, j | 0 <= i < j < |tail| ensures tail[i].id != tail[j].id {
        assert cs[i + 1] == tail[i] && cs[j + 1] == tail[j];
      }
    }
    if NoRepeats(tail) && c.id !in Ids(tail) {
      forall i, j | 0 <= i < j < |cs| ensures cs[i].id != cs[j].id {
        assert cs[j] == tail[j - 1] && tail[j - 1] in tail;
        if i > 0 {
          assert cs[i] == tail[i - 1];
        }
      }
    }
  }

  lemma {:induction false} CountIds(cs: seq<Chunk>)
    ensures |Ids(cs)| <= |cs|
    ensures NoRepeats(cs) <==> |Ids(cs)| == |cs|
  {
    if cs != [] {
      var tail := cs[1..];
      CountIds(tail);
      RepeatsCons(cs[0], tail);
      assert cs == [cs[0]] + tail;
      hide NoRepeats, Ids;
      if cs[0].id in Ids(tail) {
        assert {cs[0].id} + Ids(tail) == Ids(tail);
      }
    }
  }

  lemma {:induction false} CountParamIds(ps: seq<Param>)
    requires DistinctIds(ps)
    ensures |ParamIds(ps)| == |ps|
  {
    if ps != [] {
      var tail := ps[1..];
      CountParamIds(tail);
      assert ParamIds(ps) == {ps[0].id} + ParamIds(tail) by {
        assert ps == [ps[0]] + tail;
      }
      assert ps[0].id !in ParamIds(tail);
    }
  }

  lemma {:induction false} KnownIds(ps: seq<Param>, cs: seq<Chunk>)
    ensures Ids(Known(ps, cs)) == Ids(cs) * ParamIds(ps)
    ensures |Known(ps, cs)| <= |cs|
  {
    hide Find;
    if cs != [] {
      KnownIds(ps, cs[1..]);
      assert cs == [cs[0]] + cs[1..];
      assert Ids(cs) == {cs[0].id} + Ids(cs[1..]);
      if Find(ps, cs[0].id).Some? {
        assert Ids(Known(ps, cs)) == {cs[0].id} + Ids(Known(ps, cs[1..]));
      } else {
        assert Known(ps, cs) == Known(ps, cs[1..]);
      }
    }
  }

  lemma {:induction false} ChunkCount(b: seq<byte>, pos: nat)
    requires pos <= |b|
    ensures DESCRIPTOR_SIZE * |ParseFrom(b, pos).chunks| <= |b| - pos
    decreases |b| - pos
  {
    if HasChunk(b, pos) {
      ChunkCount(b, After(b, pos));
    }
  }

  /**
   The dispatcher counts descriptors, not ids. A call it accepts has a value for every parameter
   exactly when no parameter is given twice; this holds for payloads of up to one packet.
   */
  lemma AllGivenIffNoRepeats(ps: seq<Param>, payload: seq<byte>)
    requires DistinctIds(ps) && |payload| <= SCRATCH_SIZE && Accepts(ps, payload)
    ensures var cs := Parse(payload).chunks;
            ParamIds(ps) <= Ids(cs) <==> NoRepeats(Known(ps, cs))
  {
    var cs := Parse(payload).chunks;
    var known := Known(ps, cs);
    NoParams(cs);
    hide Known, ParseFrom, AllSizesOk, Complete;
    ChunkCount(payload, 0);
    KnownIds(ps, cs);
    CountIds(known);
    CountParamIds(ps);
    assert |known| == |ps|;
    if ParamIds(ps) <= Ids(cs) {
      assert Ids(known) == ParamIds(ps);
    }
    if NoRepeats(known) {
      SubsetOfSameSize(Ids(known), ParamIds(ps));
    }
  }

  lemma SubsetOfSameSize(a: set<nat>, b: set<nat>)
    requires a <= b && |a| == |b|
    ensures a == b
  {
    if x :| x in b && x !in a {
      SubsetSize(a, b - {x});
    }
  }

  lemma {:induction false} SubsetSize(a: set<nat>, b: set<nat>)
    requires a <= b
    ensures |a| <= |b|
    decreases a
  {
    if a != {} {
      var x :| x in a;
      SubsetSize(a - {x}, b - {x});
    }
  }

  /** One parameter sent twice, the other never: the call still runs, with a default for the other. */
  lemma RepeatedParameterAccepted()
    ensures var ps := [Scalar(0, 1), Scalar(1, 1)];
            var cs := [Chunk(0, [7]), Chunk(0, [8])];
            Accepts(ps, Frame(cs)) && Values(ps, cs) == map[0 := [8]] && 1 !in Values(ps, cs)
  {
    var ps := [Scalar(0, 1), Scalar(1, 1)];
    var a, b := Chunk(0, [7]), Chunk(0, [8]);
    RoundTrip([a, b]);
    assert [a, b] == ([] + [a]) + [b];
    AppendChunk(ps, [], a);
    AppendChunk(ps, [] + [a], b);
  }

  /** The parameters a client frames, each once with its declared size, are accepted in any order. */
  lemma WellFormedCallAccepted(ps: seq<Param>, cs: seq<Chunk>)
    requires DistinctIds(ps) && |ps| < 256 && AllEncodable(cs)
    requires NoRepeats(cs) && Ids(cs) == ParamIds(ps) && AllSizesOk(ps, cs)
    ensures Accepts(ps, Frame(cs))
  {
    hide Known, ParseFrom, Frame, AllSizesOk;
    RoundTrip(cs);
    forall c | c in cs ensures c.id in ParamIds(ps) {
      assert c.id in Ids(cs);
    }
    AllKnown(ps, cs);
    CountIds(cs);
    CountParamIds(ps);
  }

  lemma {:induction false} AllKnown(ps: seq<Param>, cs: seq<Chunk>)
    requires forall c :: c in cs ==> c.id in ParamIds(ps)
    ensures Known(ps, cs) == cs
  {
    if cs != [] {
      assert cs[0] in cs;
      forall c | c in cs[1..] ensures c.id in ParamIds(ps) {
        assert c in cs;
      }
      AllKnown(ps, cs[1..]);
    }
  }
}
