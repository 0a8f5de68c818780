/**
 Fetching the omitted part of a schema: the service serves windows of it at a limited rate, the Python
 client collects them, caches the result and merges it into what was advertised.
 */
module Fetch {
  import opened Wire
  import opened Schema

  const WINDOW := 1446
  const PART_INTERVAL := 20_000
  const REQUEST_SIZE := 10
  const OFFSET_SIZE := 2
  const MAX_WINDOWS := 16
  const WANTED := 1476
  /** Times of the client are in microseconds since the fetch began. */
  const DEADLINE := 1_000_000
  const RETRY := 30_000_000

  // ---------------------------------------------------------------- the service

  datatype Request = Request(size: nat, service: nat, offset: nat, want: nat)

  /** The header field with the total, and the payload: the window's offset and its bytes. */
  datatype Part = Part(total: nat, payload: seq<byte>)

  /** The clock wraps; 0 stands for "never". */
  predicate Limited(last: nat, now: nat) {
    last != 0 && (now - last) % U32 < PART_INTERVAL
  }

  function Serve(blob: seq<byte>, id: nat, last: nat, now: nat, r: Request): (p: Option<Part>)
    requires |blob| <= MAX_OMITTED
  {
    if r.size != REQUEST_SIZE || r.service != id || r.offset >= |blob| || Limited(last, now) then None
    else
      var length := Min(Min(|blob| - r.offset, r.want), WINDOW);
      if length == 0 then None
      else Some(Part(|blob|, PutU16(r.offset) + blob[r.offset..r.offset + length]))
  }

  /** A window of `blob`, at the offset it names. */
  predicate Genuine(p: Part, blob: seq<byte>) {
    && p.total == |blob| && |p.payload| > OFFSET_SIZE
    && var offset := GetU16(p.payload[..OFFSET_SIZE]);
       && offset + |p.payload| - OFFSET_SIZE <= |blob|
       && p.payload[OFFSET_SIZE..] == blob[offset..offset + |p.payload| - OFFSET_SIZE]
  }

  lemma ServedIsGenuine(blob: seq<byte>, id: nat, last: nat, now: nat, r: Request)
    requires |blob| <= MAX_OMITTED
    ensures var p := Serve(blob, id, last, now, r);
            && (p.Some? ==> Genuine(p.value, blob) && GetU16(p.value.payload[..OFFSET_SIZE]) == r.offset
                            && |p.value.payload| == OFFSET_SIZE + Min(Min(r.want, WINDOW), |blob| - r.offset))
            && (p.Some? <==> r.size == REQUEST_SIZE && r.service == id && r.offset < |blob| && r.want > 0
                             && (last == 0 || (now - last) % 0x1_0000_0000 >= 20_000))
  {
    var p := Serve(blob, id, last, now, r);
    if p.Some? {
      assert p.value.payload[..OFFSET_SIZE] == PutU16(r.offset);
    }
  }

  class DescriptionServer {
    const id: nat
    /** Empty if nothing was omitted. */
    const blob: seq<byte>
    var last: nat

    constructor (id: nat, blob: seq<byte>)
      ensures this.id == id && this.blob == blob && last == 0
    {
      this.id, this.blob, last := id, blob, 0;
    }

    method HandleDescriptionRequest(r: Request, now: nat) returns (part: Option<Part>)
      requires |blob| <= MAX_OMITTED
      modifies this
      ensures part == Serve(blob, id, old(last), now, r)
      ensures last == if part.Some? then now else old(last)
    {
      if r.size != REQUEST_SIZE {
        return None;
      }
      if r.service != id {
        return None;
      }
      var total := |blob|;
      if total == 0 {
        return None;
      }
      var offset := r.offset;
      if offset >= total {
        return None;
      }
      if last != 0 && (now - last) % U32 < PART_INTERVAL {
        return None;
      }
      var length := total - offset;
      if length > r.want {
        length := r.want;
      }
      if length > WINDOW {
        length := WINDOW;
      }
      if length == 0 {
        return None;
      }
      part := Some(Part(total, PutU16(offset) + blob[offset..offset + length]));
      last := now;
    }
  }

  // ---------------------------------------------------------------- the client's fetch

  datatype Address = Address(ip: seq<byte>, port: int)

  /** The service that is asked. */
  datatype Source = Source(address: Address, id: nat)

  /** One received packet; `whole` says that it holds a header, `declared` is the size in it. */
  datatype Datagram =
    Datagram(at: nat, sender: Address, whole: bool, kind: MessageType, service: nat, declared: nat, part: Part)

  /** A well-formed window that comes from the service. */
  predicate IsPart(src: Source, d: Datagram) {
    && d.sender == src.address && d.whole && d.kind == DESCRIPTION_PART && d.service == src.id
    && |d.part.payload| == d.declared && d.declared > OFFSET_SIZE
  }

  predicate Answers(src: Source, d: Datagram, offset: nat): (b: bool)
    ensures b ==> IsPart(src, d)
  {
    IsPart(src, d) && GetU16(d.part.payload[..OFFSET_SIZE]) == offset
  }

  /** The packet that answers the request for `offset`, unless time runs out first. */
  function NextAnswer(src: Source, inbox: seq<Datagram>, offset: nat): (k: Option<nat>)
    ensures k.Some? ==> k.value < |inbox| && Answers(src, inbox[k.value], offset)
  {
    if inbox == [] || inbox[0].at >= DEADLINE then None
    else if Answers(src, inbox[0], offset) then Some(0)
    else
      match NextAnswer(src, inbox[1..], offset)
      case None => None
      case Some(k) => Some(k + 1)
  }

  /** It is the first that answers, and it and all before it arrive before the deadline. */
  lemma {:induction false} NextAnswerIff(src: Source, inbox: seq<Datagram>, offset: nat, k: nat)
    ensures NextAnswer(src, inbox, offset) == Some(k)
       <==> && k < |inbox| && Answers(src, inbox[k], offset)
            && (forall j :: 0 <= j < k ==> !Answers(src, inbox[j], offset))
            && forall j :: 0 <= j <= k ==> inbox[j].at < DEADLINE
  {
    hide Answers;
    if k > 0 && inbox != [] {
      NextAnswerIff(src, inbox[1..], offset, k - 1);
    }
  }

  /** What counts as an answer: a whole window for that offset, from the service, under its id. */
  lemma AnswersIff(src: Source, d: Datagram, offset: nat)
    ensures Answers(src, d, offset)
       <==> && d.sender == src.address && d.service == src.id && d.kind == DESCRIPTION_PART
            && d.whole && |d.part.payload| == d.declared && d.declared > 2
            && offset == d.part.payload[0] + 0x100 * (d.part.payload[1] as int)
  {
    if |d.part.payload| > 2 {
      assert d.part.payload[..2] == [d.part.payload[0], d.part.payload[1]];
    }
  }

  datatype Fetched = Failed | Nothing | Complete(data: seq<byte>)

  function Collect(src: Source, inbox: seq<Datagram>, data: seq<byte>, total: Option<nat>, windows: nat): Fetched
    decreases MAX_WINDOWS - windows
  {
    if windows >= MAX_WINDOWS || (total.Some? && |data| >= total.value) then
      if total == Some(|data|) then Complete(data) else Failed
    else
      var k := NextAnswer(src, inbox, |data|);
      if k.None? then Failed
      else
        var p := inbox[k.value].part;
        if p.total == 0 then Nothing
        else Collect(src, inbox[k.value + 1..], data + p.payload[OFFSET_SIZE..], Some(p.total), windows + 1)
  }

  /** The offsets the client asks for. */
  function Requested(src: Source, inbox: seq<Datagram>, data: seq<byte>, total: Option<nat>, windows: nat): seq<nat>
    decreases MAX_WINDOWS - windows
  {
    if windows >= MAX_WINDOWS || (total.Some? && |data| >= total.value) then []
    else
      var k := NextAnswer(src, inbox, |data|);
      if k.None? || inbox[k.value].part.total == 0 then [|data|]
      else
        var p := inbox[k.value].part;
        [|data|] + Requested(src, inbox[k.value + 1..], data + p.payload[OFFSET_SIZE..], Some(p.total), windows + 1)
  }

  function Shift(k: Option<nat>, n: nat): Option<nat> {
    if k.None? then None else Some(k.value + n)
  }

  lemma AnswersIsPart(src: Source, d: Datagram, offset: nat)
    ensures Answers(src, d, offset) ==> IsPart(src, d)
  {
  }

  lemma AnswerAt(src: Source, inbox: seq<Datagram>, i: nat, offset: nat)
    requires i <= |inbox|
    ensures var k := Shift(NextAnswer(src, inbox[i..], offset), i);
            if i == |inbox| || inbox[i].at >= DEADLINE then k.None?
            else if Answers(src, inbox[i], offset) then k == Some(i)
            else k == Shift(NextAnswer(src, inbox[i + 1..], offset), i + 1)
  {
    hide Answers;
    if i < |inbox| {
      assert inbox[i..][1..] == inbox[i + 1..];
    }
  }

  /** The inner loop: skips what does not answer the request, until it is answered or time runs out. */
  method AwaitAnswer(src: Source, inbox: seq<Datagram>, start: nat, offset: nat) returns (at: Option<nat>)
    requires start <= |inbox|
    ensures at == Shift(NextAnswer(src, inbox[start..], offset), start)
    ensures at.Some? ==> start <= at.value < |inbox| && IsPart(src, inbox[at.value])
  {
    hide Answers, NextAnswer, IsPart;
    var i := start;
    while i < |inbox| && inbox[i].at < DEADLINE
      invariant start <= i <= |inbox|
      invariant Shift(NextAnswer(src, inbox[start..], offset), start) == Shift(NextAnswer(src, inbox[i..], offset), i)
    {
      AnswerAt(src, inbox, i, offset);
      if Answers(src, inbox[i], offset) {
        AnswersIsPart(src, inbox[i], offset);
        return Some(i);
      }
      i := i + 1;
    }
    AnswerAt(src, inbox, i, offset);
    return None;
  }

  predicate Finished(data: seq<byte>, total: Option<nat>, windows: nat) {
    windows >= MAX_WINDOWS || (total.Some? && |data| >= total.value)
  }

  /** One iteration of the outer loop, with the rest of the inbox from position `i`. */
  lemma Iteration(src: Source, inbox: seq<Datagram>, i: nat, data: seq<byte>, total: Option<nat>, windows: nat,
                  sent: seq<nat>)
    requires i <= |inbox|
    ensures var rest, at := inbox[i..], Shift(NextAnswer(src, inbox[i..], |data|), i);
            if Finished(data, total, windows) then
              && Collect(src, rest, data, total, windows) == (if total == Some(|data|) then Complete(data) else Failed)
              && sent + Requested(src, rest, data, total, windows) == sent
            else if at.None? then
              && Collect(src, rest, data, total, windows) == Failed
              && sent + Requested(src, rest, data, total, windows) == sent + [|data|]
            else
              && i <= at.value < |inbox| && IsPart(src, inbox[at.value])
              && var p := inbox[at.value].part;
                 if p.total == 0 then
                   && Collect(src, rest, data, total, windows) == Nothing
                   && sent + Requested(src, rest, data, total, windows) == sent + [|data|]
                 else
                   && var data' := data + p.payload[OFFSET_SIZE..];
                   && Collect(src, rest, data, total, windows)
                      == Collect(src, inbox[at.value + 1..], data', Some(p.total), windows + 1)
                   && sent + Requested(src, rest, data, total, windows)
                      == sent + [|data|] + Requested(src, inbox[at.value + 1..], data', Some(p.total), windows + 1)
  {
    hide NextAnswer, Answers;
    var k := NextAnswer(src, inbox[i..], |data|);
    if !Finished(data, total, windows) && k.Some? {
      assert inbox[i..][k.value] == inbox[i + k.value] && inbox[i..][k.value + 1..] == inbox[i + k.value + 1..];
      if inbox[i + k.value].part.total != 0 {
        var p := inbox[i + k.value].part;
        var data' := data + p.payload[OFFSET_SIZE..];
        Assoc(sent, [|data|], Requested(src, inbox[i + k.value + 1..], data', Some(p.total), windows + 1));
      }
    }
  }

  /** One request per window, none is repeated. */
  method FetchWindows(src: Source, inbox: seq<Datagram>) returns (f: Fetched, requests: seq<nat>)
    ensures f == Collect(src, inbox, [], None, 0) && requests == Requested(src, inbox, [], None, 0)
  {
    hide Answers, NextAnswer, Collect, Requested;
    var data: seq<byte>, total: Option<nat> := [], None;
    var i, windows := 0, 0;
    requests := [];
    Start(src, inbox);
    while windows < MAX_WINDOWS
      invariant 0 <= windows <= MAX_WINDOWS && 0 <= i <= |inbox|
      invariant Collect(src, inbox[i..], data, total, windows) == Collect(src, inbox, [], None, 0)
      invariant requests + Requested(src, inbox[i..], data, total, windows) == Requested(src, inbox, [], None, 0)
    {
      Iteration(src, inbox, i, data, total, windows, requests);
      if total.Some? && |data| >= total.value {
        break;
      }
      requests := requests + [|data|];
      var at := AwaitAnswer(src, inbox, i, |data|);
      if at.None? {
        return Failed, requests;
      }
      var p := inbox[at.value].part;
      if p.total == 0 {
        return Nothing, requests;
      }
      total := Some(p.total);
      data := data + p.payload[OFFSET_SIZE..];
      i := at.value + 1;
      windows := windows + 1;
    }
    Iteration(src, inbox, i, data, total, windows, requests);
    f := if total == Some(|data|) then Complete(data) else Failed;
  }

  lemma Start(src: Source, inbox: seq<Datagram>)
    ensures inbox[0..] == inbox && [] + Requested(src, inbox, [], None, 0) == Requested(src, inbox, [], None, 0)
  {
  }

  // ---------------------------------------------------------------- safety: any loss, any order

  /** What the service itself sends for its id, as far as it arrives whole, are windows of `blob`. */
  ghost predicate AllGenuine(src: Source, inbox: seq<Datagram>, blob: seq<byte>) {
    forall d :: d in inbox && d.sender == src.address && d.service == src.id && d.kind == DESCRIPTION_PART
                && d.whole && |d.part.payload| == d.declared && d.declared > OFFSET_SIZE ==>
      Genuine(d.part, blob)
  }

  lemma {:induction false} CollectIsSafe(src: Source, inbox: seq<Datagram>, blob: seq<byte>, data: seq<byte>,
                                         total: Option<nat>, windows: nat)
    requires AllGenuine(src, inbox, blob) && blob != [] && data <= blob
    requires total == None || total == Some(|blob|)
    ensures var f := Collect(src, inbox, data, total, windows); f == Failed || f == Complete(blob)
    decreases MAX_WINDOWS - windows
  {
    hide NextAnswer, Answers;
    if windows < MAX_WINDOWS && !(total.Some? && |data| >= total.value) {
      var k := NextAnswer(src, inbox, |data|);
      if k.Some? {
        var d := inbox[k.value];
        AnswerExtends(src, d, blob, data);
        assert forall e :: e in inbox[k.value + 1..] ==> e in inbox;
        var data' := data + d.part.payload[OFFSET_SIZE..];
        CollectIsSafe(src, inbox[k.value + 1..], blob, data', Some(d.part.total), windows + 1);
      }
    }
  }

  lemma AnswerExtends(src: Source, d: Datagram, blob: seq<byte>, data: seq<byte>)
    requires Answers(src, d, |data|) && Genuine(d.part, blob) && data <= blob
    ensures d.part.total == |blob| && data + d.part.payload[OFFSET_SIZE..] <= blob
  {
    var n := |data| + |d.part.payload| - OFFSET_SIZE;
    assert blob[..n] == blob[..|data|] + blob[|data|..n];
  }

  /**
   Packets may be lost, repeated, delayed and reordered, and strangers may send what they like: a fetch
   that completes returns exactly what the service omits.
   */
  lemma FetchReturnsTheBlob(src: Source, inbox: seq<Datagram>, blob: seq<byte>)
    requires AllGenuine(src, inbox, blob) && blob != []
    ensures var f := Collect(src, inbox, [], None, 0); f == Failed || f == Complete(blob)
  {
    CollectIsSafe(src, inbox, blob, [], None, 0);
  }

  // ---------------------------------------------------------------- success without loss

  /** For one request: the service's clock when it is handled, and when the answer reaches the client. */
  datatype Trip = Trip(clock: nat, arrival: nat)

  /** What the client receives if every request and every answer arrives and nothing else does. */
  function LossFree(src: Source, blob: seq<byte>, last: nat, offset: nat, k: nat, trips: seq<Trip>): seq<Datagram>
    requires |blob| <= MAX_OMITTED && |trips| == MAX_WINDOWS
    decreases MAX_WINDOWS - k
  {
    if k >= MAX_WINDOWS || offset >= |blob| then []
    else
      var p := Serve(blob, src.id, last, trips[k].clock, Request(REQUEST_SIZE, src.id, offset, WANTED));
      if p.None? then []
      else
        var d := Datagram(trips[k].arrival, src.address, true, DESCRIPTION_PART, src.id, |p.value.payload|, p.value);
        [d] + LossFree(src, blob, trips[k].clock, offset + |p.value.payload| - OFFSET_SIZE, k + 1, trips)
  }

  /** Every window that is needed is allowed, not rate limited and in time. */
  predicate Unhindered(size: nat, last: nat, offset: nat, k: nat, trips: seq<Trip>)
    requires |trips| == MAX_WINDOWS
    decreases MAX_WINDOWS - k
  {
    offset >= size
    || (k < MAX_WINDOWS && !Limited(last, trips[k].clock) && trips[k].arrival < DEADLINE
        && Unhindered(size, trips[k].clock, offset + WINDOW, k + 1, trips))
  }

  lemma CollectNext(src: Source, inbox: seq<Datagram>, data: seq<byte>, total: Option<nat>, k: nat)
    requires k < MAX_WINDOWS && (total.Some? ==> |data| < total.value)
    ensures inbox == [] || inbox[0].at >= DEADLINE ==> Collect(src, inbox, data, total, k) == Failed
    ensures inbox != [] && inbox[0].at < DEADLINE && Answers(src, inbox[0], |data|) && inbox[0].part.total > 0 ==>
              Collect(src, inbox, data, total, k)
              == Collect(src, inbox[1..], data + inbox[0].part.payload[OFFSET_SIZE..], Some(inbox[0].part.total), k + 1)
  {
  }

  lemma CollectLast(src: Source, inbox: seq<Datagram>, data: seq<byte>, total: Option<nat>, k: nat)
    ensures (k >= MAX_WINDOWS || (total.Some? && |data| >= total.value)) ==>
              Collect(src, inbox, data, total, k) == if total == Some(|data|) then Complete(data) else Failed
  {
  }

  lemma LossFreeNext(src: Source, blob: seq<byte>, last: nat, data: seq<byte>, k: nat, trips: seq<Trip>)
    requires |blob| <= MAX_OMITTED && |trips| == MAX_WINDOWS && k < MAX_WINDOWS && data < blob
    ensures var inbox := LossFree(src, blob, last, |data|, k, trips);
            if Limited(last, trips[k].clock) then inbox == []
            else
              && inbox != [] && inbox[0].at == trips[k].arrival
              && Answers(src, inbox[0], |data|) && inbox[0].part.total == |blob|
              && var data' := data + inbox[0].part.payload[OFFSET_SIZE..];
                 && data' <= blob && |data'| == |data| + Min(|blob| - |data|, WINDOW)
                 && inbox[1..] == LossFree(src, blob, trips[k].clock, |data'|, k + 1, trips)
  {
    hide Serve, Genuine, GetU16;
    var r := Request(REQUEST_SIZE, src.id, |data|, WANTED);
    var p := Serve(blob, src.id, last, trips[k].clock, r);
    ServedIsGenuine(blob, src.id, last, trips[k].clock, r);
    if p.Some? {
      ServedLength(blob, src.id, last, trips[k].clock, r);
      AnswerExtends(src, LossFree(src, blob, last, |data|, k, trips)[0], blob, data);
    }
  }

  lemma {:induction false} LossFreeCollect(src: Source, blob: seq<byte>, last: nat, data: seq<byte>, total: Option<nat>,
                                           k: nat, trips: seq<Trip>)
    requires 0 < |blob| <= MAX_OMITTED && |trips| == MAX_WINDOWS && data <= blob && k <= MAX_WINDOWS
    requires total == (if k == 0 then None else Some(|blob|)) && (k == 0 ==> data == [])
    ensures Collect(src, LossFree(src, blob, last, |data|, k, trips), data, total, k) == Complete(blob)
            <==> Unhindered(|blob|, last, |data|, k, trips)
    decreases MAX_WINDOWS - k
  {
    hide Collect, LossFree, Answers, Limited;
    var inbox := LossFree(src, blob, last, |data|, k, trips);
    if k < MAX_WINDOWS && |data| < |blob| {
      LossFreeNext(src, blob, last, data, k, trips);
      CollectNext(src, inbox, data, total, k);
      if !Limited(last, trips[k].clock) {
        var data' := data + inbox[0].part.payload[OFFSET_SIZE..];
        LossFreeCollect(src, blob, trips[k].clock, data', Some(|blob|), k + 1, trips);
        PastTheEnd(|blob|, trips[k].clock, |data| + WINDOW, |data'|, k + 1, trips);
      }
    } else {
      CollectLast(src, inbox, data, total, k);
    }
  }

  lemma ServedLength(blob: seq<byte>, id: nat, last: nat, now: nat, r: Request)
    requires |blob| <= MAX_OMITTED && r.want >= WINDOW && Serve(blob, id, last, now, r).Some?
    ensures |Serve(blob, id, last, now, r).value.payload| - OFFSET_SIZE == Min(|blob| - r.offset, WINDOW)
  {
  }

  lemma PastTheEnd(size: nat, last: nat, a: nat, b: nat, k: nat, trips: seq<Trip>)
    ensures (|trips| == MAX_WINDOWS && (a == b || (a >= size && b >= size))) ==>
              Unhindered(size, last, a, k, trips) == Unhindered(size, last, b, k, trips)
  {
  }

  /** The clock at the previous reply. */
  function Before(last: nat, k: nat, trips: seq<Trip>): nat
    requires k <= |trips|
  {
    if k == 0 then last else trips[k - 1].clock
  }

  lemma {:induction false} UnhinderedIff(size: nat, last: nat, k: nat, trips: seq<Trip>)
    requires |trips| == MAX_WINDOWS && k <= MAX_WINDOWS
    ensures Unhindered(size, Before(last, k, trips), k * WINDOW, k, trips)
            <==> size <= MAX_WINDOWS * WINDOW
                 && forall j :: k <= j < MAX_WINDOWS && j * WINDOW < size ==>
                      !Limited(Before(last, j, trips), trips[j].clock) && trips[j].arrival < DEADLINE
    decreases MAX_WINDOWS - k
  {
    hide Limited;
    if k < MAX_WINDOWS {
      UnhinderedIff(size, last, k + 1, trips);
    }
  }

  /**
   Without loss, the fetch of a schema succeeds exactly if it needs at most 16 windows, each request is
   handled at least 20 ms after the previous reply, and each answer arrives before the deadline.
   */
  lemma LossFreeFetchIff(src: Source, blob: seq<byte>, last: nat, trips: seq<Trip>)
    requires 0 < |blob| <= MAX_OMITTED && |trips| == MAX_WINDOWS
    ensures Collect(src, LossFree(src, blob, last, 0, 0, trips), [], None, 0) == Complete(blob)
            <==> |blob| <= MAX_WINDOWS * WINDOW
                 && forall j :: 0 <= j < MAX_WINDOWS && j * WINDOW < |blob| ==>
                      !Limited(Before(last, j, trips), trips[j].clock) && trips[j].arrival < DEADLINE
  {
    LossFreeCollect(src, blob, last, [], None, 0, trips);
    UnhinderedIff(|blob|, last, 0, trips);
  }

  // ---------------------------------------------------------------- among other traffic

  /** What remains without the packets of strangers. */
  function Parts(src: Source, inbox: seq<Datagram>): seq<Datagram> {
    if inbox == [] then []
    else if IsPart(src, inbox[0]) then [inbox[0]] + Parts(src, inbox[1..])
    else Parts(src, inbox[1..])
  }

  predicate TimesInOrder(inbox: seq<Datagram>) {
    forall i, j :: 0 <= i < j < |inbox| ==> inbox[i].at <= inbox[j].at
  }

  lemma AnswerCons(src: Source, d: Datagram, rest: seq<Datagram>, offset: nat)
    ensures NextAnswer(src, [d] + rest, offset)
         == if d.at >= DEADLINE then None else if Answers(src, d, offset) then Some(0)
            else Shift(NextAnswer(src, rest, offset), 1)
  {
    hide Answers;
    assert ([d] + rest)[1..] == rest;
  }

  lemma {:induction false} NothingInTime(src: Source, inbox: seq<Datagram>, offset: nat)
    requires forall i :: 0 <= i < |inbox| ==> inbox[i].at >= DEADLINE
    ensures NextAnswer(src, Parts(src, inbox), offset).None?
  {
    hide IsPart, Answers;
    if inbox != [] {
      NothingInTime(src, inbox[1..], offset);
      AnswerCons(src, inbox[0], Parts(src, inbox[1..]), offset);
    }
  }

  /** The next answer is the same packet, and the same packets follow it. */
  lemma {:induction false} SameAnswer(src: Source, inbox: seq<Datagram>, offset: nat) returns (k: nat)
    requires TimesInOrder(inbox)
    ensures var parts, n := Parts(src, inbox), NextAnswer(src, inbox, offset);
            if n.None? then NextAnswer(src, parts, offset).None?
            else
              && NextAnswer(src, parts, offset) == Some(k) && parts[k] == inbox[n.value]
              && parts[k + 1..] == Parts(src, inbox[n.value + 1..])
  {
    hide IsPart, Answers;
    k := 0;
    if inbox != [] {
      var head, rest := inbox[0], inbox[1..];
      AnswersIsPart(src, head, offset);
      AnswerCons(src, head, Parts(src, rest), offset);
      if head.at >= DEADLINE {
        NothingInTime(src, inbox, offset);
      } else if !Answers(src, head, offset) {
        k := SameAnswer(src, rest, offset);
        if IsPart(src, head) {
          var parts := Parts(src, inbox);
          assert parts == [head] + Parts(src, rest) && parts[1..] == Parts(src, rest);
          k := k + 1;
        }
      }
    }
  }

  /** Strangers can neither spoil a fetch nor stretch it. */
  lemma {:induction false} StrangersIgnored(src: Source, inbox: seq<Datagram>, data: seq<byte>, total: Option<nat>,
                                            windows: nat)
    requires TimesInOrder(inbox)
    ensures Collect(src, inbox, data, total, windows) == Collect(src, Parts(src, inbox), data, total, windows)
    decreases MAX_WINDOWS - windows
  {
    hide NextAnswer, Parts, Answers;
    if windows < MAX_WINDOWS && !(total.Some? && |data| >= total.value) {
      var n := NextAnswer(src, inbox, |data|);
      var k := SameAnswer(src, inbox, |data|);
      if n.Some? && inbox[n.value].part.total != 0 {
        var p := inbox[n.value].part;
        StrangersIgnored(src, inbox[n.value + 1..], data + p.payload[OFFSET_SIZE..], Some(p.total), windows + 1);
      }
    }
  }

  /** So the same holds if the loss-free answers are received among any other packets. */
  lemma FetchAmongStrangersIff(src: Source, blob: seq<byte>, last: nat, trips: seq<Trip>, inbox: seq<Datagram>)
    requires 0 < |blob| <= MAX_OMITTED && |trips| == MAX_WINDOWS
    requires TimesInOrder(inbox) && Parts(src, inbox) == LossFree(src, blob, last, 0, 0, trips)
    ensures Collect(src, inbox, [], None, 0) == Complete(blob)
            <==> |blob| <= MAX_WINDOWS * WINDOW
                 && forall j :: 0 <= j < MAX_WINDOWS && j * WINDOW < |blob| ==>
                      !Limited(Before(last, j, trips), trips[j].clock) && trips[j].arrival < DEADLINE
  {
    StrangersIgnored(src, inbox, [], None, 0);
    LossFreeFetchIff(src, blob, last, trips);
  }

  /** A fast network defeats it: the second request comes within 20 ms, is dropped and never repeated. */
  lemma FastRoundTripFails(src: Source, blob: seq<byte>, last: nat, trips: seq<Trip>)
    requires WINDOW < |blob| <= MAX_OMITTED && |trips| == MAX_WINDOWS
    requires trips[0].clock != 0 && (trips[1].clock - trips[0].clock) % U32 < PART_INTERVAL
    ensures Collect(src, LossFree(src, blob, last, 0, 0, trips), [], None, 0) != Complete(blob)
  {
    LossFreeFetchIff(src, blob, last, trips);
    assert Before(last, 1, trips) == trips[0].clock && 1 * WINDOW < |blob|;
  }

  lemma RequestedEnd(src: Source, inbox: seq<Datagram>, data: seq<byte>, total: Option<nat>, k: nat)
    ensures (k >= MAX_WINDOWS || (total.Some? && |data| >= total.value)) ==>
              Requested(src, inbox, data, total, k) == []
  {
  }

  lemma RequestedNext(src: Source, inbox: seq<Datagram>, data: seq<byte>, total: Option<nat>, k: nat)
    requires k < MAX_WINDOWS && (total.Some? ==> |data| < total.value)
    ensures inbox == [] || inbox[0].at >= DEADLINE ==> Requested(src, inbox, data, total, k) == [|data|]
    ensures inbox != [] && inbox[0].at < DEADLINE && Answers(src, inbox[0], |data|) && inbox[0].part.total > 0 ==>
              Requested(src, inbox, data, total, k)
              == [|data|] + Requested(src, inbox[1..], data + inbox[0].part.payload[OFFSET_SIZE..],
                                      Some(inbox[0].part.total), k + 1)
  {
  }

  /** The requests that the loss-free run answers are the ones the client sends: one for each window. */
  lemma {:induction false} LossFreeRequests(src: Source, blob: seq<byte>, last: nat, data: seq<byte>,
                                            total: Option<nat>, k: nat, trips: seq<Trip>, j: nat)
    requires 0 < |blob| <= MAX_OMITTED && |trips| == MAX_WINDOWS && data <= blob && k <= MAX_WINDOWS
    requires total == (if k == 0 then None else Some(|blob|)) && (k == 0 ==> data == [])
    requires |data| == Min(k * WINDOW, |blob|)
    ensures var requests := Requested(src, LossFree(src, blob, last, |data|, k, trips), data, total, k);
            |requests| <= MAX_WINDOWS - k && (j < |requests| ==> requests[j] == (k + j) * WINDOW)
    decreases MAX_WINDOWS - k
  {
    hide LossFree, Answers, Limited, NextAnswer, Requested;
    var inbox := LossFree(src, blob, last, |data|, k, trips);
    if k == MAX_WINDOWS || |data| == |blob| {
      RequestedEnd(src, inbox, data, total, k);
    } else {
      LossFreeNext(src, blob, last, data, k, trips);
      RequestedNext(src, inbox, data, total, k);
      if !Limited(last, trips[k].clock) {
        var data' := data + inbox[0].part.payload[OFFSET_SIZE..];
        LossFreeRequests(src, blob, trips[k].clock, data', Some(|blob|), k + 1, trips, if j > 0 then j - 1 else 0);
      }
    }
  }
}
