/**
 Who owns a received packet: the IO thread, the queue of a service, the service's thread, or nobody
 any more. A packet is freed exactly once, whatever happens to it on the way.
 */
module Transport {
  import opened Wire
  import opened Queue

  const QUEUE_LENGTH := 10

  /** `used` bytes were received; `service` and `payloadSize` are the header's fields. */
  datatype Packet = Packet(handle: nat, used: nat, service: nat, payloadSize: nat)

  predicate WellFormed(p: Packet) {
    p.used >= HEADER_SIZE && p.used - HEADER_SIZE == p.payloadSize
  }

  /** A service as the transport sees it. `accepted` and `handled` are history. */
  datatype Inbox = Inbox(id: nat, stopped: bool, capacity: nat, queue: seq<Packet>, processing: Option<Packet>,
                         accepted: seq<Packet>, handled: seq<Packet>)

  datatype Net = Net(services: seq<Inbox>, io: Option<Packet>, freed: seq<Packet>, received: seq<Packet>)

  const START: Net := Net([], None, [], [])

  datatype Event =
    | Register(id: nat)        // a service starts
    | Receive(p: Packet)       // IO thread: the socket returns a packet
    | Route                    // IO thread: the rest of the loop body
    | Take(k: nat)             // thread of service k: the queue returns a packet
    | Release(k: nat)          // thread of service k: the rest of the loop body

  /** The first running service with the packet's id. */
  function Target(services: seq<Inbox>, id: nat): (k: Option<nat>)
    ensures k.Some? ==> k.value < |services| && services[k.value].id == id && !services[k.value].stopped
  {
    if services == [] then None
    else if services[0].id == id && !services[0].stopped then Some(0)
    else Shift(Target(services[1..], id), 1)
  }

  function Shift(k: Option<nat>, n: nat): Option<nat> {
    if k.None? then None else Some(k.value + n)
  }

  lemma TargetAt(services: seq<Inbox>, k: nat, id: nat)
    requires k < |services|
    ensures Shift(Target(services[k..], id), k)
         == if services[k].id == id && !services[k].stopped then Some(k)
            else Shift(Target(services[k + 1..], id), k + 1)
  {
    assert services[k..][1..] == services[k + 1..];
  }

  lemma TargetEnds(services: seq<Inbox>, id: nat)
    ensures Shift(Target(services[0..], id), 0) == Target(services, id)
    ensures Target(services[|services|..], id).None?
  {
    assert services[0..] == services;
  }

  function Enqueue(s: Inbox, p: Packet): Inbox {
    s.(queue := s.queue + [p], accepted := s.accepted + [p])
  }

  /** Into the queue of its service, or back to the allocator. */
  function Deliver(services: seq<Inbox>, freed: seq<Packet>, p: Packet): (seq<Inbox>, seq<Packet>) {
    var k := Target(services, p.service);
    if !WellFormed(p) || k.None? || |services[k.value].queue| >= services[k.value].capacity
    then (services, freed + [p])
    else (services[k.value := Enqueue(services[k.value], p)], freed)
  }

  /** The packet is whole, and `k` is the first running service with its id and has room for it. */
  ghost predicate GoesTo(services: seq<Inbox>, p: Packet, k: nat) {
    && p.used >= HEADER_SIZE && p.used - HEADER_SIZE == p.payloadSize
    && k < |services| && services[k].id == p.service && !services[k].stopped
    && (forall j :: 0 <= j < k ==> services[j].id != p.service || services[j].stopped)
    && |services[k].queue| < services[k].capacity
  }

  /** The packet is now the last one in the queue of service `k`, and that is all. */
  ghost predicate HandedOver(before: seq<Inbox>, after: seq<Inbox>, p: Packet, k: nat) {
    && k < |before| == |after| && (forall j :: 0 <= j < |before| && j != k ==> after[j] == before[j])
    && after[k] == before[k].(queue := before[k].queue + [p], accepted := before[k].accepted + [p])
  }

  lemma {:induction false} FirstIsTarget(services: seq<Inbox>, id: nat, k: nat)
    requires k < |services| && services[k].id == id && !services[k].stopped
    requires forall j :: 0 <= j < k ==> services[j].id != id || services[j].stopped
    ensures Target(services, id) == Some(k)
  {
    if k > 0 {
      FirstIsTarget(services[1..], id, k - 1);
    }
  }

  lemma {:induction false} TargetIsFirst(services: seq<Inbox>, id: nat, j: nat)
    requires j < |services| && (Target(services, id).Some? ==> j < Target(services, id).value)
    ensures services[j].id != id || services[j].stopped
  {
    if j > 0 {
      TargetIsFirst(services[1..], id, j - 1);
    }
  }

  /** A packet reaches exactly the service it goes to; every other packet is freed, and reaches none. */
  lemma DeliveredOrFreed(services: seq<Inbox>, freed: seq<Packet>, p: Packet)
    ensures var (after, freed') := Deliver(services, freed, p);
            && (forall k :: GoesTo(services, p, k) ==> HandedOver(services, after, p, k) && freed' == freed)
            && ((forall k :: !GoesTo(services, p, k)) ==> after == services && freed' == freed + [p])
  {
    hide Target;
    var t := Target(services, p.service);
    forall k | GoesTo(services, p, k) ensures t == Some(k) {
      FirstIsTarget(services, p.service, k);
    }
    if t.Some? && !GoesTo(services, p, t.value) {
      forall j | 0 <= j < t.value ensures services[j].id != p.service || services[j].stopped {
        TargetIsFirst(services, p.service, j);
      }
    }
  }

  function Taken(s: Inbox): Inbox
    requires s.queue != []
  {
    s.(queue := s.queue[1..], processing := Some(s.queue[0]))
  }

  /** The service's own checks, then the handler of the message. */
  function Handled(s: Inbox): Inbox
    requires s.processing.Some?
  {
    var p := s.processing.value;
    s.(processing := None,
       handled := if p.used < HEADER_SIZE || HEADER_SIZE + p.payloadSize > p.used then s.handled else s.handled + [p])
  }

  function Step(s: Net, e: Event): Net {
    match e
    case Register(id) => s.(services := s.services + [Inbox(id, false, QUEUE_LENGTH, [], None, [], [])])
    case Receive(p) => if s.io.Some? then s else s.(io := Some(p), received := s.received + [p])
    case Route =>
      if s.io.None? then s
      else
        var (services, freed) := Deliver(s.services, s.freed, s.io.value);
        s.(io := None, services := services, freed := freed)
    case Take(k) =>
      if k >= |s.services| || s.services[k].processing.Some? || s.services[k].queue == [] then s
      else s.(services := s.services[k := Taken(s.services[k])])
    case Release(k) =>
      if k >= |s.services| || s.services[k].processing.None? then s
      else s.(services := s.services[k := Handled(s.services[k])], freed := s.freed + [s.services[k].processing.value])
  }

  /**
   A packet that is received is handed to the service it goes to, or freed if it goes to none; no other
   packet moves.
   */
  lemma RoutedOrFreed(s: Net, p: Packet)
    requires s.io.None?
    ensures var t := Step(Step(s, Receive(p)), Route);
            && t.io.None? && t.received == s.received + [p]
            && (forall k :: GoesTo(s.services, p, k) ==> HandedOver(s.services, t.services, p, k) && t.freed == s.freed)
            && ((forall k :: !GoesTo(s.services, p, k)) ==> t.services == s.services && t.freed == s.freed + [p])
  {
    hide GoesTo, HandedOver, Deliver;
    DeliveredOrFreed(s.services, s.freed, p);
  }

  /** For example: the way of a packet through a service that has just started. */
  lemma PacketIsHandled(id: nat, p: Packet)
    requires p.service == id && p.used >= HEADER_SIZE && p.used - HEADER_SIZE == p.payloadSize
    ensures var t := Step(Step(START, Register(id)), Receive(p));
            var u := Step(Step(Step(t, Route), Take(0)), Release(0));
            && |u.services| == 1 && u.services[0].handled == [p] && u.freed == [p] && u.received == [p]
  {
    var t := Step(START, Register(id));
    assert t.services == [Inbox(id, false, QUEUE_LENGTH, [], None, [], [])];
    assert GoesTo(t.services, p, 0);
    RoutedOrFreed(t, p);
    assert [] + [p] == [p] && [p][1..] == [];
  }

  function Run(s: Net, es: seq<Event>): Net
    decreases |es|
  {
    if es == [] then s else Step(Run(s, es[..|es| - 1]), es[|es| - 1])
  }

  // ---------------------------------------------------------------- one owner

  function Maybe(p: Option<Packet>): seq<Packet> {
    if p.Some? then [p.value] else []
  }

  function Times(ps: seq<Packet>, p: Packet): nat {
    multiset(ps)[p]
  }

  lemma TimesAppend(a: seq<Packet>, b: seq<Packet>, p: Packet)
    ensures Times(a + b, p) == Times(a, p) + Times(b, p)
    ensures Times([], p) == 0
  {
  }

  function Holds(s: Inbox, p: Packet): nat {
    Times(Maybe(s.processing), p) + Times(s.queue, p)
  }

  function Held(services: seq<Inbox>, p: Packet): nat {
    if services == [] then 0 else Holds(services[0], p) + Held(services[1..], p)
  }

  lemma {:induction false} HeldUpdate(services: seq<Inbox>, k: nat, s: Inbox, p: Packet)
    requires k < |services|
    ensures Held(services[k := s], p) + Holds(services[k], p) == Held(services, p) + Holds(s, p)
  {
    hide Holds;
    var updated := services[k := s];
    if k == 0 {
      assert updated[1..] == services[1..];
    } else {
      assert updated[1..] == services[1..][k - 1 := s];
      HeldUpdate(services[1..], k - 1, s, p);
    }
  }

  lemma {:induction false} HeldAppend(services: seq<Inbox>, s: Inbox, p: Packet)
    ensures Held(services + [s], p) == Held(services, p) + Holds(s, p)
  {
    hide Holds;
    if services == [] {
      assert services + [s] == [s] && [s][1..] == [];
    } else {
      assert (services + [s])[1..] == services[1..] + [s];
      HeldAppend(services[1..], s, p);
    }
  }

  /** How often `p` is owned: by the IO thread, by a service, or freed. */
  function Owned(s: Net, p: Packet): nat {
    Times(Maybe(s.io), p) + Held(s.services, p) + Times(s.freed, p)
  }

  /** Packets are handled in the order of acceptance, and only well-formed ones addressed to the service. */
  ghost predicate InOrder(s: Inbox) {
    && s.accepted == s.handled + (Maybe(s.processing) + s.queue)
    && |s.queue| <= s.capacity
    && forall i :: 0 <= i < |s.accepted| ==> WellFormed(s.accepted[i]) && s.accepted[i].service == s.id
  }

  ghost predicate AllInOrder(s: Net) {
    forall k :: 0 <= k < |s.services| ==> InOrder(s.services[k])
  }

  lemma EnqueueInOrder(s: Inbox, p: Packet)
    requires InOrder(s) && WellFormed(p) && p.service == s.id && |s.queue| < s.capacity
    ensures InOrder(Enqueue(s, p))
    ensures forall q :: Holds(Enqueue(s, p), q) == Holds(s, q) + Times([p], q)
  {
    Assoc(s.handled, Maybe(s.processing) + s.queue, [p]);
    Assoc(Maybe(s.processing), s.queue, [p]);
  }

  lemma TakenInOrder(s: Inbox)
    requires InOrder(s) && s.processing.None? && s.queue != []
    ensures InOrder(Taken(s))
    ensures forall q :: Holds(Taken(s), q) == Holds(s, q)
  {
    assert s.queue == [s.queue[0]] + s.queue[1..];
    assert [] + s.queue == s.queue;
    forall q ensures Holds(Taken(s), q) == Holds(s, q) {
      TimesAppend([s.queue[0]], s.queue[1..], q);
    }
  }

  lemma HandledKeepsOrder(s: Inbox)
    requires InOrder(s) && s.processing.Some?
    ensures InOrder(Handled(s))
    ensures forall q :: Holds(s, q) == Holds(Handled(s), q) + Times([s.processing.value], q)
  {
    var p := s.processing.value;
    assert p == s.accepted[|s.handled|];
    Assoc(s.handled, [p], s.queue);
    assert [] + s.queue == s.queue;
  }

  lemma StepKeepsOrder(s: Net, e: Event)
    requires AllInOrder(s)
    ensures AllInOrder(Step(s, e))
  {
    hide InOrder, Target, WellFormed, Handled, Enqueue;
    match e
    case Register(id) => EmptyInOrder(id);
    case Receive(p) =>
    case Route =>
      if s.io.Some? && WellFormed(s.io.value) {
        var k := Target(s.services, s.io.value.service);
        if k.Some? && |s.services[k.value].queue| < s.services[k.value].capacity {
          EnqueueInOrder(s.services[k.value], s.io.value);
        }
      }
    case Take(k) =>
      if k < |s.services| && s.services[k].processing.None? && s.services[k].queue != [] {
        TakenInOrder(s.services[k]);
      }
    case Release(k) =>
      if k < |s.services| && s.services[k].processing.Some? {
        HandledKeepsOrder(s.services[k]);
      }
  }

  lemma EmptyInOrder(id: nat)
    ensures InOrder(Inbox(id, false, QUEUE_LENGTH, [], None, [], []))
    ensures forall q :: Holds(Inbox(id, false, QUEUE_LENGTH, [], None, [], []), q) == 0
  {
  }

  lemma StepConserves(s: Net, e: Event, q: Packet)
    requires AllInOrder(s) && Times(s.received, q) == Owned(s, q)
    ensures Times(Step(s, e).received, q) == Owned(Step(s, e), q)
  {
    hide InOrder, Target, WellFormed, Handled, Enqueue, Holds, Held, Times;
    TimesAppend([], [], q);
    match e
    case Register(id) =>
      EmptyInOrder(id);
      HeldAppend(s.services, Inbox(id, false, QUEUE_LENGTH, [], None, [], []), q);
    case Receive(p) => TimesAppend(s.received, [p], q);
    case Route => RouteConserves(s, q);
    case Take(k) =>
      if k < |s.services| && s.services[k].processing.None? && s.services[k].queue != [] {
        TakenInOrder(s.services[k]);
        HeldUpdate(s.services, k, Taken(s.services[k]), q);
      }
    case Release(k) =>
      if k < |s.services| && s.services[k].processing.Some? {
        HandledKeepsOrder(s.services[k]);
        HeldUpdate(s.services, k, Handled(s.services[k]), q);
        TimesAppend(s.freed, [s.services[k].processing.value], q);
      }
  }

  lemma RouteConserves(s: Net, q: Packet)
    requires AllInOrder(s) && Times(s.received, q) == Owned(s, q)
    ensures Times(Step(s, Route).received, q) == Owned(Step(s, Route), q)
  {
    hide InOrder, Target, WellFormed, Enqueue, Holds, Held, Times;
    TimesAppend([], [], q);
    if s.io.Some? {
      var p := s.io.value;
      var k := Target(s.services, p.service);
      TimesAppend(s.freed, [p], q);
      if WellFormed(p) && k.Some? && |s.services[k.value].queue| < s.services[k.value].capacity {
        EnqueueInOrder(s.services[k.value], p);
        HeldUpdate(s.services, k.value, Enqueue(s.services[k.value], p), q);
      }
    }
  }

  lemma {:induction false} RunConserves(es: seq<Event>, q: Packet)
    ensures var s := Run(START, es); AllInOrder(s) && Times(s.received, q) == Owned(s, q)
    decreases |es|
  {
    hide Step;
    if es != [] {
      RunConserves(es[..|es| - 1], q);
      StepKeepsOrder(Run(START, es[..|es| - 1]), es[|es| - 1]);
      StepConserves(Run(START, es[..|es| - 1]), es[|es| - 1], q);
    }
  }

  predicate NoRepeats(ps: seq<Packet>) {
    forall i, j :: 0 <= i < j < |ps| ==> ps[i] != ps[j]
  }

  lemma {:induction false} OnceIfDistinct(ps: seq<Packet>, p: Packet)
    requires NoRepeats(ps)
    ensures Times(ps, p) == if p in ps then 1 else 0
  {
    if ps != [] {
      assert ps == [ps[0]] + ps[1..];
      forall i, j | 0 <= i < j < |ps[1..]| ensures ps[1..][i] != ps[1..][j] {
        assert ps[1..][i] == ps[i + 1] && ps[1..][j] == ps[j + 1];
      }
      OnceIfDistinct(ps[1..], p);
    }
  }

  /**
   In every run each received packet has exactly one owner: never freed twice, never lost, never freed
   while somebody still uses it, including malformed packets, unknown services and full queues.
   */
  lemma ExactlyOneOwner(es: seq<Event>, p: Packet)
    requires NoRepeats(Run(START, es).received)
    ensures Owned(Run(START, es), p) == if p in Run(START, es).received then 1 else 0
  {
    RunConserves(es, p);
    OnceIfDistinct(Run(START, es).received, p);
  }

  /** Each service handles the packets it accepted in order, every one of them, and no others. */
  lemma HandledInOrder(es: seq<Event>, k: nat, p: Packet)
    requires k < |Run(START, es).services|
    ensures var s := Run(START, es).services[k];
            && s.handled + (Maybe(s.processing) + s.queue) == s.accepted
            && (p in s.accepted ==> WellFormed(p) && p.service == s.id)
  {
    RunConserves(es, p);
    assert InOrder(Run(START, es).services[k]);
  }

  // ---------------------------------------------------------------- nothing is left behind

  /** What the thread of service `k` does `n` times. */
  function Rounds(k: nat, n: nat): seq<Event> {
    if n == 0 then [] else Rounds(k, n - 1) + [Release(k)] + [Take(k)]
  }

  lemma RunSnoc(s: Net, es: seq<Event>, e: Event)
    ensures Run(s, es + [e]) == Step(Run(s, es), e)
  {
    assert (es + [e])[..|es|] == es;
  }

  /** What service `k` still has to free. */
  function Owing(s: Net, k: nat): seq<Packet>
    requires k < |s.services|
  {
    Maybe(s.services[k].processing) + s.services[k].queue
  }

  /** Between `s` and `t`, service `k` has freed packets from the front of what it had, and `left` are queued. */
  ghost predicate Worked(s: Net, t: Net, k: nat, left: nat) {
    && AllInOrder(t) && k < |s.services| == |t.services|
    && t.services[k].accepted == s.services[k].accepted && |t.services[k].queue| == left
    && t.freed + Owing(t, k) == s.freed + Owing(s, k)
  }

  lemma ReleaseWorks(s: Net, t: Net, k: nat, left: nat)
    requires Worked(s, t, k, left)
    ensures Worked(s, Step(t, Release(k)), k, left) && Step(t, Release(k)).services[k].processing.None?
  {
    StepKeepsOrder(t, Release(k));
    hide AllInOrder;
    var i := t.services[k];
    if i.processing.Some? {
      Assoc(t.freed, [i.processing.value], i.queue);
      assert [] + i.queue == i.queue;
    }
  }

  lemma TakeWorks(s: Net, t: Net, k: nat, left: nat)
    requires Worked(s, t, k, left) && t.services[k].processing.None?
    ensures Worked(s, Step(t, Take(k)), k, if left == 0 then 0 else left - 1)
  {
    StepKeepsOrder(t, Take(k));
    hide AllInOrder;
    var i := t.services[k];
    if i.queue != [] {
      assert [] + i.queue == i.queue == [i.queue[0]] + i.queue[1..];
    }
  }

  lemma RoundWorks(s: Net, t: Net, k: nat, left: nat)
    requires Worked(s, t, k, left)
    ensures Worked(s, Step(Step(t, Release(k)), Take(k)), k, if left == 0 then 0 else left - 1)
  {
    hide Worked, Step, AllInOrder, Owing;
    ReleaseWorks(s, t, k, left);
    TakeWorks(s, Step(t, Release(k)), k, left);
  }

  lemma {:induction false} RoundsWork(s: Net, k: nat, n: nat)
    requires AllInOrder(s) && k < |s.services| && n <= |s.services[k].queue|
    ensures Worked(s, Run(s, Rounds(k, n)), k, |s.services[k].queue| - n)
  {
    hide Worked, Step, Run, AllInOrder, Owing;
    if n == 0 {
      NothingWorked(s, k);
    } else {
      var es, left := Rounds(k, n - 1), |s.services[k].queue| - (n - 1);
      RoundsWork(s, k, n - 1);
      RunSnoc(s, es, Release(k));
      RunSnoc(s, es + [Release(k)], Take(k));
      RoundWorks(s, Run(s, es), k, left);
    }
  }

  lemma NothingWorked(s: Net, k: nat)
    requires AllInOrder(s) && k < |s.services|
    ensures Run(s, []) == s && Worked(s, s, k, |s.services[k].queue|)
  {
  }

  /** A service that goes on running handles everything it has accepted, and frees it in the same order. */
  lemma EverythingIsHandled(es: seq<Event>, k: nat)
    requires k < |Run(START, es).services|
    ensures var s := Run(START, es);
            var t := Run(s, Rounds(k, |s.services[k].queue|) + [Release(k)]);
            && k < |t.services| && t.services[k].handled == s.services[k].accepted
            && t.freed == s.freed + Owing(s, k)
  {
    var s := Run(START, es);
    var n := |s.services[k].queue|;
    RunConserves(es, Packet(0, 0, 0, 0));
    RoundsWork(s, k, n);
    RunSnoc(s, Rounds(k, n), Release(k));
    ReleaseWorks(s, Run(s, Rounds(k, n)), k, 0);
    var t := Step(Run(s, Rounds(k, n)), Release(k));
    hide Step, Run, Rounds;
    assert InOrder(t.services[k]);
    assert Owing(t, k) == [] && t.freed + [] == t.freed;
    assert t.services[k].handled + ([] + []) == t.services[k].handled;
  }

  // ---------------------------------------------------------------- the code, on objects

  class Allocator {
    var freed: seq<Packet>

    constructor ()
      ensures freed == []
    {
      freed := [];
    }

    method FreePacket(p: Packet)
      modifies this
      ensures freed == old(freed) + [p]
    {
      freed := freed + [p];
    }
  }

  class ServiceIo {
    const id: nat
    const queue: BlockingQueue<Packet>
    var next: ServiceIo?
    var stopped: bool
    var processing: Option<Packet>
    ghost var accepted: seq<Packet>
    ghost var handled: seq<Packet>

    ghost predicate Valid()
      reads queue
    {
      queue.Valid()
    }

    ghost function View(): Inbox
      requires Valid()
      reads `stopped, `processing, `accepted, `handled, queue, queue.buffer
    {
      Inbox(id, stopped, queue.buffer.Length, queue.Contents(), processing, accepted, handled)
    }

    constructor (id: nat)
      ensures Valid() && next == null && fresh(queue) && fresh(queue.buffer)
      ensures View() == Inbox(id, false, QUEUE_LENGTH, [], None, [], [])
    {
      this.id, next, stopped, processing, accepted, handled := id, null, false, None, [], [];
      queue := new BlockingQueue<Packet>(QUEUE_LENGTH);
    }

    /** Enqueues the packet, or frees it. */
    method IoInput(p: Packet, allocator: Allocator) returns (ok: bool)
      requires Valid()
      modifies this`accepted, queue, queue.buffer, allocator
      ensures Valid() && ok == (|old(View()).queue| < queue.buffer.Length)
      ensures View() == if ok then Enqueue(old(View()), p) else old(View())
      ensures ok ==> queue.Contents() == old(queue.Contents()) + [p]
      ensures allocator.freed == if ok then old(allocator.freed) else old(allocator.freed) + [p]
    {
      ok := queue.Push(p);
      if !ok {
        allocator.FreePacket(p);
        return;
      }
      accepted := accepted + [p];
    }

    /** The service's thread fetches a packet. */
    method FetchPacket() returns (ok: bool)
      requires Valid() && processing.None?
      modifies this`processing, queue
      ensures Valid() && ok == (old(View()).queue != [])
      ensures View() == if ok then Taken(old(View())) else old(View())
      ensures ok ==> processing == Some(old(queue.Contents())[0]) && queue.Contents() == old(queue.Contents())[1..]
    {
      processing := queue.Pop();
      ok := processing.Some?;
    }

    /** Whatever the packet holds, it is freed once. */
    method ProcessPacket(allocator: Allocator)
      requires Valid() && processing.Some?
      modifies this`processing, this`handled, allocator
      ensures Valid() && View() == Handled(old(View())) && processing.None?
      ensures allocator.freed == old(allocator.freed) + [old(processing).value]
      ensures var p := old(processing).value;
              handled == old(handled) + if HEADER_SIZE <= HEADER_SIZE + p.payloadSize <= p.used then [p] else []
    {
      var p := processing.value;
      processing := None;
      if p.used < HEADER_SIZE {
        allocator.FreePacket(p);
        return;
      }
      if HEADER_SIZE + p.payloadSize > p.used {
        allocator.FreePacket(p);
        return;
      }
      handled := handled + [p];
      allocator.FreePacket(p);
    }
  }

  /** Two services do not share memory. */
  ghost predicate Apart(s: ServiceIo, t: ServiceIo) {
    s != t && s.queue != t.queue && s.queue.buffer != t.queue.buffer
  }

  ghost function Queues(services: seq<ServiceIo>): set<object> {
    set i | 0 <= i < |services| :: services[i].queue
  }

  ghost function Buffers(services: seq<ServiceIo>): set<object> {
    set i | 0 <= i < |services| :: services[i].queue.buffer
  }

  ghost predicate AllValid(services: seq<ServiceIo>)
    reads Queues(services)
  {
    forall i :: 0 <= i < |services| ==> services[i].queue in Queues(services) && services[i].Valid()
  }

  ghost predicate AllApart(services: seq<ServiceIo>) {
    forall i, j :: 0 <= i < j < |services| ==> Apart(services[i], services[j])
  }

  ghost function Views(services: seq<ServiceIo>): seq<Inbox>
    requires AllValid(services)
    reads services, Queues(services), Buffers(services)
  {
    seq(|services|, i requires 0 <= i < |services| && AllValid(services)
                      reads services, Queues(services), Buffers(services) =>
          assert services[i].queue in Queues(services) && services[i].queue.buffer in Buffers(services);
          services[i].View())
  }

  /** Handing a packet to one service leaves the others alone. */
  method GivePacket(s: ServiceIo, ghost services: seq<ServiceIo>, ghost k: nat, p: Packet, allocator: Allocator)
    requires AllValid(services) && AllApart(services) && k < |services| && s == services[k]
    modifies services`accepted, Queues(services), Buffers(services), allocator
    ensures AllValid(services)
    ensures var before := old(Views(services));
            if |before[k].queue| < before[k].capacity then
              Views(services) == before[k := Enqueue(before[k], p)] && allocator.freed == old(allocator.freed)
            else
              Views(services) == before && allocator.freed == old(allocator.freed) + [p]
  {
    hide Enqueue;
    assert s.queue in Queues(services) && s.queue.buffer in Buffers(services);
    ghost var before := Views(services);
    assert before[k] == s.View();
    var ok := s.IoInput(p, allocator);
    forall i | 0 <= i < |services| && i != k ensures services[i].Valid() && services[i].View() == before[i] {
      assert Apart(services[if i < k then i else k], services[if i < k then k else i]);
    }
    assert forall i :: 0 <= i < |services| ==> services[i].queue in Queues(services);
    assert Views(services) == before[k := s.View()];
  }

  lemma OneApart(services: seq<ServiceIo>, s: ServiceIo)
    requires AllApart(services + [s])
    ensures AllApart(services) && s !in services
    ensures forall i, j :: 0 <= i < j < |services| ==> services[i] != services[j]
  {
    var all := services + [s];
    assert all[|services|] == s && forall i :: 0 <= i < |services| ==> all[i] == services[i];
    assert forall i, j :: 0 <= i < j < |all| ==> Apart(all[i], all[j]);
    forall i | 0 <= i < |services| ensures services[i] != s {
      assert Apart(all[i], all[|services|]);
    }
    forall i, j | 0 <= i < j < |services| ensures Apart(services[i], services[j]) {
      assert Apart(all[i], all[j]);
    }
  }

  /** The list of registered services. */
  class Io {
    var first: ServiceIo?
    ghost var services: seq<ServiceIo>

    ghost function At(i: nat): (s: ServiceIo?)
      reads this
    {
      if i < |services| then services[i] else null
    }

    ghost predicate Linked()
      reads this, services`next
    {
      first == At(0) && forall i :: 0 <= i < |services| ==> services[i].next == At(i + 1)
    }

    ghost predicate Valid()
      reads this, services`next, Queues(services)
    {
      Linked() && AllValid(services) && AllApart(services)
    }

    constructor ()
      ensures Valid() && services == []
    {
      first, services := null, [];
    }

    method Append(service: ServiceIo)
      requires Linked() && service.next == null && service !in services
      requires forall i, j :: 0 <= i < j < |services| ==> services[i] != services[j]
      modifies this, services`next
      ensures Linked() && services == old(services) + [service]
    {
      if first == null {
        first := service;
      } else {
        var last := first;
        ghost var i := 0;
        while last.next != null
          invariant i < |services| && last == services[i]
          decreases |services| - i
        {
          last := last.next;
          i := i + 1;
        }
        last.next := service;
      }
      services := services + [service];
    }

    /** Links a service in at the end of the list. */
    method RegisterServiceIo(service: ServiceIo)
      requires Valid() && service.Valid() && service.next == null
      requires AllApart(services + [service])
      modifies this, services`next
      ensures Valid() && services == old(services) + [service]
      ensures Views(services) == old(Views(services)) + [old(service.View())]
    {
      hide Linked, AllApart;
      ghost var before, views, added := services, Views(services), service.View();
      OneApart(before, service);
      Append(service);
      assert forall i :: 0 <= i < |services| ==> services[i].queue in Queues(services);
      forall i | 0 <= i < |before| ensures services[i].View() == views[i] {
        assert services[i] == before[i];
      }
      assert Views(services) == views + [added];
    }

    /** How the list is walked. */
    lemma Walk(i: nat)
      requires Linked() && AllValid(services)
      ensures first == At(0) && (At(i) == null <==> i >= |services|) && |Views(services)| == |services|
      ensures i < |services| ==> At(i) == services[i] && services[i].next == At(i + 1) && services[i].Valid()
      ensures i < |services| ==> Views(services)[i] == services[i].View()
    {
    }

    /** The search along the list. */
    method FindService(id: nat) returns (s: ServiceIo?)
      requires Valid()
      ensures var k := Target(Views(services), id); s == if k.None? then null else services[k.value]
    {
      hide Linked, AllValid, AllApart, At, Target, Views, ServiceIo.Valid;
      ghost var views := Views(services);
      s := first;
      ghost var k := 0;
      TargetEnds(views, id);
      Walk(0);
      while s != null
        invariant Linked() && AllValid(services) && Views(services) == views
        invariant 0 <= k <= |services| && s == At(k)
        invariant Target(views, id) == Shift(Target(views[k..], id), k)
        decreases |services| - k
      {
        Walk(k);
        TargetAt(views, k, id);
        if s.id == id && !s.stopped {
          return;
        }
        s := s.next;
        k := k + 1;
      }
      Walk(k);
    }

    /** The loop body of the IO thread for a received packet: it reaches its service, or is freed. */
    method RunIo(allocator: Allocator, p: Packet)
      requires Valid()
      modifies services`accepted, Queues(services), Buffers(services), allocator
      ensures Valid()
      ensures (Views(services), allocator.freed) == Deliver(old(Views(services)), old(allocator.freed), p)
      ensures forall k :: GoesTo(old(Views(services)), p, k) ==>
                HandedOver(old(Views(services)), Views(services), p, k) && allocator.freed == old(allocator.freed)
      ensures (forall k :: !GoesTo(old(Views(services)), p, k)) ==>
                Views(services) == old(Views(services)) && allocator.freed == old(allocator.freed) + [p]
    {
      hide Enqueue, Target, Linked, AllValid, AllApart, GoesTo, HandedOver;
      DeliveredOrFreed(Views(services), allocator.freed, p);
      if p.used < HEADER_SIZE {
        allocator.FreePacket(p);
        return;
      }
      if p.used - HEADER_SIZE != p.payloadSize {
        allocator.FreePacket(p);
        return;
      }
      ghost var k := Target(Views(services), p.service);
      var s := FindService(p.service);
      if s != null {
        GivePacket(s, services, k.value, p, allocator);
      } else {
        allocator.FreePacket(p);
      }
    }
  }
}
