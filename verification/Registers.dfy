/** The configuration registers of a service: defaults, and how a configuration overrides them. */
module Registers {
  import opened Wire
  import opened Framing
  import opened Dispatch

  /** A blob register is handed to user code; every other register stores a value of checked size. */
  datatype Register = Value(param: Param, optional: bool, default: Option<seq<byte>>) | Blob(blobId: nat)

  function RegisterId(r: Register): nat {
    if r.Blob? then r.blobId else r.param.id
  }

  /** The stored values of the valid registers. */
  type Values = map<nat, seq<byte>>

  function Lookup(rs: seq<Register>, id: nat): (r: Option<Register>)
    ensures r.Some? ==> r.value in rs && RegisterId(r.value) == id
    ensures r.None? ==> forall q :: q in rs ==> RegisterId(q) != id
  {
    if rs == [] then None else if RegisterId(rs[0]) == id then Some(rs[0]) else Lookup(rs[1..], id)
  }

  function Defaults(rs: seq<Register>): Values {
    if rs == [] then map[]
    else
      var before, r := Defaults(rs[..|rs| - 1]), rs[|rs| - 1];
      if r.Value? && r.default.Some? then before[r.param.id := r.default.value] else before
  }

  predicate AllRequiredValid(rs: seq<Register>, vs: Values) {
    forall r :: r in rs && r.Value? && !r.optional ==> r.param.id in vs
  }

  /** `blobOk` is what the user's blob callback returns for the chunk. */
  function SetRegister(rs: seq<Register>, vs: Values, c: Chunk, blobOk: bool): (Values, bool) {
    match Lookup(rs, c.id)
    case None => (vs, true)
    case Some(Blob(_)) => (vs, blobOk)
    case Some(Value(p, _, _)) => if SizeOk(p, |c.data|) then (vs[c.id := c.data], true) else (vs, false)
  }

  /** Registers are set in order until one is refused. */
  function SetAll(rs: seq<Register>, vs: Values, cs: seq<Chunk>, blobOk: nat -> bool): (Values, bool) {
    if cs == [] then (vs, true)
    else
      var (before, ok) := SetAll(rs, vs, cs[..|cs| - 1], blobOk);
      if !ok then (before, false) else SetRegister(rs, before, cs[|cs| - 1], blobOk(|cs| - 1))
  }

  // ---------------------------------------------------------------- what the defaults are

  /** Register `i` has a default, and no later one gives the same id another. */
  ghost predicate DefaultAt(rs: seq<Register>, i: int, id: nat) {
    && 0 <= i < |rs| && rs[i].Value? && rs[i].default.Some? && rs[i].param.id == id
    && forall j :: i < j < |rs| && rs[j].Value? && rs[j].default.Some? ==> rs[j].param.id != id
  }

  /** `vs` holds the default of every register that has one, and nothing else. */
  ghost predicate AreDefaults(rs: seq<Register>, vs: Values) {
    && (forall i, id :: DefaultAt(rs, i, id) ==> id in vs && vs[id] == rs[i].default.value)
    && (forall id :: id in vs ==> exists i :: DefaultAt(rs, i, id))
  }

  lemma {:induction false} DefaultsAre(rs: seq<Register>)
    ensures AreDefaults(rs, Defaults(rs))
    decreases |rs|
  {
    if rs != [] {
      var n := |rs| - 1;
      var before, r := rs[..n], rs[n];
      DefaultsAre(before);
      var given := r.Value? && r.default.Some?;
      forall i, id | 0 <= i < n
        ensures DefaultAt(rs, i, id) <==> DefaultAt(before, i, id) && !(given && r.param.id == id)
      {
      }
      forall id | id in Defaults(rs) ensures exists i :: DefaultAt(rs, i, id) {
        if given && r.param.id == id {
          assert DefaultAt(rs, n, id);
        } else {
          var i :| DefaultAt(before, i, id);
          assert DefaultAt(rs, i, id);
        }
      }
    }
  }

  // ---------------------------------------------------------------- what a configuration does

  /** Register `i` is the one for `id`. */
  ghost predicate RegisterAt(rs: seq<Register>, i: int, id: nat) {
    0 <= i < |rs| && RegisterId(rs[i]) == id && forall j :: 0 <= j < i ==> RegisterId(rs[j]) != id
  }

  lemma {:induction false} LookupIsFirst(rs: seq<Register>, i: int, id: nat)
    requires RegisterAt(rs, i, id)
    ensures Lookup(rs, id) == Some(rs[i])
  {
    if i > 0 {
      LookupIsFirst(rs[1..], i - 1, id);
    }
  }

  lemma {:induction false} LookupAt(rs: seq<Register>, id: nat) returns (i: int)
    requires Lookup(rs, id).Some?
    ensures RegisterAt(rs, i, id) && rs[i] == Lookup(rs, id).value
  {
    if RegisterId(rs[0]) == id {
      i := 0;
    } else {
      i := LookupAt(rs[1..], id);
      i := i + 1;
    }
  }

  /** Some register stores values under `id`. */
  ghost predicate StoresValue(rs: seq<Register>, id: nat) {
    exists i :: RegisterAt(rs, i, id) && rs[i].Value?
  }

  lemma StoresIff(rs: seq<Register>, id: nat)
    ensures StoresValue(rs, id) <==> Lookup(rs, id).Some? && Lookup(rs, id).value.Value?
  {
    if StoresValue(rs, id) {
      var i :| RegisterAt(rs, i, id) && rs[i].Value?;
      LookupIsFirst(rs, i, id);
    }
    if Lookup(rs, id).Some? {
      var i := LookupAt(rs, id);
    }
  }

  /** Chunk `j` is the last one for a register that stores values. */
  ghost predicate LastWrite(rs: seq<Register>, cs: seq<Chunk>, j: int, id: nat) {
    LastChunk(cs, j, id) && StoresValue(rs, id)
  }

  /** The chunk suits its register: it has the declared size, or user code accepts the blob. */
  ghost predicate Suits(rs: seq<Register>, c: Chunk, blobOk: bool) {
    forall i :: RegisterAt(rs, i, c.id) ==> if rs[i].Value? then HasDeclaredSize(rs[i].param, c.data) else blobOk
  }

  lemma SuitsIff(rs: seq<Register>, vs: Values, c: Chunk, blobOk: bool)
    ensures SetRegister(rs, vs, c, blobOk).1 <==> Suits(rs, c, blobOk)
  {
    if Lookup(rs, c.id).Some? {
      var i := LookupAt(rs, c.id);
    }
    forall i | RegisterAt(rs, i, c.id) ensures Lookup(rs, c.id) == Some(rs[i]) {
      LookupIsFirst(rs, i, c.id);
    }
  }

  /** Setting registers succeeds exactly if every chunk suits its register. */
  lemma {:induction false} AllSuitIff(rs: seq<Register>, vs: Values, cs: seq<Chunk>, blobOk: nat -> bool)
    ensures SetAll(rs, vs, cs, blobOk).1 <==> forall j: nat :: j < |cs| ==> Suits(rs, cs[j], blobOk(j))
    decreases |cs|
  {
    hide Suits, SetRegister;
    if cs != [] {
      var n: nat := |cs| - 1;
      AllSuitIff(rs, vs, cs[..n], blobOk);
      SuitsIff(rs, SetAll(rs, vs, cs[..n], blobOk).0, cs[n], blobOk(n));
      assert forall j: nat :: j < n ==> cs[..n][j] == cs[j];
    }
  }

  /** What the first chunks leave in a register, whether or not a later one is refused, is their last write. */
  lemma {:induction false} LastWriteWins(rs: seq<Register>, vs: Values, cs: seq<Chunk>, blobOk: nat -> bool, id: nat)
    requires SetAll(rs, vs, cs, blobOk).1
    ensures var result := SetAll(rs, vs, cs, blobOk).0;
            && (forall j :: LastWrite(rs, cs, j, id) ==> id in result && result[id] == cs[j].data)
            && ((forall j :: !LastWrite(rs, cs, j, id)) ==>
                  (id in result <==> id in vs) && (id in vs ==> result[id] == vs[id]))
    decreases |cs|
  {
    if cs != [] {
      var n := |cs| - 1;
      LastWriteWins(rs, vs, cs[..n], blobOk, id);
      StoresIff(rs, id);
      hide StoresValue;
      forall j | 0 <= j < n ensures LastWrite(rs, cs, j, id) <==> LastWrite(rs, cs[..n], j, id) && cs[n].id != id {
      }
      assert cs[n].id == id && StoresValue(rs, id) ==> LastWrite(rs, cs, n, id);
    }
  }

  /** A refused chunk ends it: the registers are as the chunks before the refused one leave them. */
  lemma {:induction false} RefusedAt(rs: seq<Register>, vs: Values, cs: seq<Chunk>, blobOk: nat -> bool, k: nat)
    requires k < |cs| && !Suits(rs, cs[k], blobOk(k)) && forall j: nat :: j < k ==> Suits(rs, cs[j], blobOk(j))
    ensures SetAll(rs, vs, cs[..k], blobOk).1
    ensures SetAll(rs, vs, cs, blobOk) == (SetAll(rs, vs, cs[..k], blobOk).0, false)
    decreases |cs|
  {
    hide Suits, SetRegister;
    AllSuitIff(rs, vs, cs[..k], blobOk);
    if k < |cs| - 1 {
      RefusedAt(rs, vs, cs[..|cs| - 1], blobOk, k);
      assert cs[..|cs| - 1][..k] == cs[..k];
    } else {
      SuitsIff(rs, SetAll(rs, vs, cs[..k], blobOk).0, cs[k], blobOk(k));
      RefusedChangesNothing(rs, SetAll(rs, vs, cs[..k], blobOk).0, cs[k], blobOk(k));
    }
  }

  lemma RefusedChangesNothing(rs: seq<Register>, vs: Values, c: Chunk, blobOk: bool)
    ensures !SetRegister(rs, vs, c, blobOk).1 ==> SetRegister(rs, vs, c, blobOk).0 == vs
  {
  }

  /** The register contents a configuration asks for: its last write, else the default, else nothing. */
  ghost predicate ConfiguredBy(rs: seq<Register>, result: Values, cs: seq<Chunk>) {
    && (forall j, id :: LastWrite(rs, cs, j, id) ==> id in result && result[id] == cs[j].data)
    && (forall i, id :: DefaultAt(rs, i, id) && (forall j :: !LastWrite(rs, cs, j, id)) ==>
          id in result && result[id] == rs[i].default.value)
    && (forall id :: id in result ==> (exists j :: LastWrite(rs, cs, j, id)) || exists i :: DefaultAt(rs, i, id))
  }

  lemma AcceptedConfiguration(rs: seq<Register>, cs: seq<Chunk>, blobOk: nat -> bool)
    requires SetAll(rs, Defaults(rs), cs, blobOk).1
    ensures ConfiguredBy(rs, SetAll(rs, Defaults(rs), cs, blobOk).0, cs)
  {
    hide StoresValue, DefaultAt, SetAll, Defaults;
    DefaultsAre(rs);
    var result := SetAll(rs, Defaults(rs), cs, blobOk).0;
    forall id: nat
      ensures forall j :: LastWrite(rs, cs, j, id) ==> id in result && result[id] == cs[j].data
      ensures (forall j :: !LastWrite(rs, cs, j, id)) ==>
                (id in result <==> id in Defaults(rs)) && (id in Defaults(rs) ==> result[id] == Defaults(rs)[id])
    {
      LastWriteWins(rs, Defaults(rs), cs, blobOk, id);
    }
  }

  /** No trace of earlier configurations: the contents are determined by the payload. */
  lemma ConfigurationIsolated(rs: seq<Register>, a: Values, b: Values, cs: seq<Chunk>)
    requires ConfiguredBy(rs, a, cs) && ConfiguredBy(rs, b, cs)
    ensures a == b
  {
    hide LastWrite, DefaultAt;
    assert forall id :: id in a <==> id in b;
  }

  /** Every register that must have a value is given one, by the configuration or by its default. */
  ghost predicate AllGiven(rs: seq<Register>, cs: seq<Chunk>) {
    forall r :: r in rs && r.Value? && !r.optional ==>
      (exists j :: LastWrite(rs, cs, j, r.param.id)) || exists i :: DefaultAt(rs, i, r.param.id)
  }

  lemma RequiredIff(rs: seq<Register>, result: Values, cs: seq<Chunk>)
    requires ConfiguredBy(rs, result, cs)
    ensures AllRequiredValid(rs, result) <==> AllGiven(rs, cs)
  {
    hide LastWrite, DefaultAt;
  }

  /**
   A configuration the service can start with: whole chunks, each of which suits its register, and a value
   for every register that must have one.
   */
  ghost predicate Acceptable(rs: seq<Register>, payload: seq<byte>, blobOk: nat -> bool) {
    var p := Parse(payload);
    && p.end == |payload| && (forall j: nat :: j < |p.chunks| ==> Suits(rs, p.chunks[j], blobOk(j)))
    && AllGiven(rs, p.chunks)
  }

  lemma AcceptableIff(rs: seq<Register>, payload: seq<byte>, blobOk: nat -> bool)
    ensures var p := Parse(payload);
            var (result, ok) := SetAll(rs, Defaults(rs), p.chunks, blobOk);
            Acceptable(rs, payload, blobOk) <==> ok && p.end == |payload| && AllRequiredValid(rs, result)
  {
    hide Suits, Parse, SetAll, Defaults, AllGiven, AllRequiredValid;
    var cs := Parse(payload).chunks;
    AllSuitIff(rs, Defaults(rs), cs, blobOk);
    if SetAll(rs, Defaults(rs), cs, blobOk).1 {
      AcceptedConfiguration(rs, cs, blobOk);
      RequiredIff(rs, SetAll(rs, Defaults(rs), cs, blobOk).0, cs);
    }
  }

  /** Every value that a configuration wrote has the size declared for its register. */
  ghost predicate WrittenFit(rs: seq<Register>, result: Values, cs: seq<Chunk>) {
    forall i, j, id :: RegisterAt(rs, i, id) && rs[i].Value? && LastChunk(cs, j, id) ==>
      id in result && HasDeclaredSize(rs[i].param, result[id])
  }

  lemma AcceptableFits(rs: seq<Register>, payload: seq<byte>, blobOk: nat -> bool, result: Values)
    requires Acceptable(rs, payload, blobOk) && ConfiguredBy(rs, result, Parse(payload).chunks)
    ensures WrittenFit(rs, result, Parse(payload).chunks)
  {
    hide Parse, AllGiven;
    var cs := Parse(payload).chunks;
    forall i, j, id | RegisterAt(rs, i, id) && rs[i].Value? && LastChunk(cs, j, id)
      ensures id in result && HasDeclaredSize(rs[i].param, result[id])
    {
      assert LastWrite(rs, cs, j, id) && Suits(rs, cs[j], blobOk(j));
    }
  }

  // ---------------------------------------------------------------- the parse loop

  lemma {:induction false} SetAllStep(rs: seq<Register>, vs: Values, cs: seq<Chunk>, c: Chunk, blobOk: nat -> bool)
    ensures var (before, ok) := SetAll(rs, vs, cs, blobOk);
            SetAll(rs, vs, cs + [c], blobOk)
            == if !ok then (before, false) else SetRegister(rs, before, c, blobOk(|cs|))
  {
    assert (cs + [c])[..|cs|] == cs;
  }

  lemma {:induction false} SetAllStops(rs: seq<Register>, vs: Values, cs: seq<Chunk>, more: seq<Chunk>,
                                       blobOk: nat -> bool)
    requires !SetAll(rs, vs, cs, blobOk).1
    ensures SetAll(rs, vs, cs + more, blobOk) == SetAll(rs, vs, cs, blobOk)
    decreases |more|
  {
    if more == [] {
      assert cs + more == cs;
    } else {
      var front := more[..|more| - 1];
      SetAllStops(rs, vs, cs, front, blobOk);
      SetAllStep(rs, vs, cs + front, more[|more| - 1], blobOk);
      assert cs + more == (cs + front) + [more[|more| - 1]];
    }
  }

  /**
   Overrides `start` with the registers of a configuration message; a refused register ends it, and
   bytes that form no chunk refuse the message.
   */
  method SetRegistersFromMessage(rs: seq<Register>, start: Values, payload: seq<byte>, blobOk: nat -> bool)
      returns (vs: Values, ok: bool)
    ensures var p := Parse(payload);
            var (result, accepted) := SetAll(rs, start, p.chunks, blobOk);
            vs == result && ok == (accepted && p.end == |payload|)
  {
    hide SetAll, ParseFrom, SetRegister;
    vs := start;
    var processed, n := 0, 0;
    ghost var cs: seq<Chunk> := [];
    NothingSet(rs, start, blobOk, payload);
    while processed + DESCRIPTOR_SIZE <= |payload|
      invariant processed <= |payload| && n == |cs|
      invariant var rest := ParseFrom(payload, processed);
                Parsed(cs + rest.chunks, rest.end) == Parse(payload)
      invariant SetAll(rs, start, cs, blobOk) == (vs, true)
      decreases |payload| - processed
    {
      var size := SizeAt(payload, processed);
      if processed + DESCRIPTOR_SIZE + size <= |payload| {
        var c := ChunkAt(payload, processed);
        ghost var rest := ParseFrom(payload, After(payload, processed)).chunks;
        Consume(payload, processed, cs);
        SetAllStep(rs, start, cs, c, blobOk);
        var (vs', set_) := SetRegister(rs, vs, c, blobOk(n));
        vs := vs';
        if !set_ {
          SetAllStops(rs, start, cs + [c], rest, blobOk);
          return vs, false;
        }
        cs := cs + [c];
        n := n + 1;
      } else {
        break;
      }
      processed := processed + size + DESCRIPTOR_SIZE;
    }
    Stop(payload, processed, cs);
    ok := processed == |payload|;
  }

  lemma NothingSet(rs: seq<Register>, vs: Values, blobOk: nat -> bool, payload: seq<byte>)
    ensures SetAll(rs, vs, [], blobOk) == (vs, true)
    ensures [] + ParseFrom(payload, 0).chunks == Parse(payload).chunks
  {
  }
}
