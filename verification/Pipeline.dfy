/**
 From submission to handler: packets are steered by flow into one ring per
 worker, drained in batches of at most 32, dispatched by destination port, and
 their buffers released.
 */
module Pipeline {
  import opened Options
  import opened Words
  import opened Toeplitz
  import opened SpscRing

  /** What the parser saw of a frame; ports count only for UDP. */
  datatype Parsed = Parsed(hasIp: bool, hasUdp: bool, tuple: Tuple)

  /** A buffer in flight with its parsed view; nobody writes it until it is released. */
  datatype Item = Item(buf: nat, pkt: Parsed)

  const BATCH_SIZE: nat := 32

  // ------------------------------------------------------------------------ steering

  /** The part of a packet that chooses its queue. */
  function FlowOf(p: Parsed): Option<Tuple> {
    if p.hasUdp then Some(p.tuple)
    else if p.hasIp then Some(Tuple(p.tuple.srcIp, p.tuple.dstIp, 0, 0))
    else None
  }

  /** The masked hash; the number of queues is a power of two, so masking is a remainder. */
  function QueueOfFlow(flow: Option<Tuple>, n: nat): (q: nat)
    requires n > 0
    ensures q < n
  {
    match flow case Some(t) => ValueOf(TupleHash(t).bits) % n case None => 0
  }

  function QueueOf(p: Parsed, n: nat): (q: nat)
    requires n > 0
    ensures q < n
  {
    QueueOfFlow(FlowOf(p), n)
  }

  /** The queue is the hash of addresses and ports, of addresses alone, or queue 0, by what was parsed. */
  lemma QueueIsHash(p: Parsed, n: nat)
    requires n > 0
    ensures var t := p.tuple;
            p.hasUdp ==> QueueOf(p, n) == ValueOf(FourFieldHash(t.srcIp, t.dstIp, t.srcPort, t.dstPort).bits) % n
    ensures var t := p.tuple;
            !p.hasUdp && p.hasIp ==> QueueOf(p, n) == ValueOf(FourFieldHash(t.srcIp, t.dstIp, 0, 0).bits) % n
    ensures !p.hasUdp && !p.hasIp ==> QueueOf(p, n) == 0
  {
    hide FourFieldHash, TupleHash, ValueOf;
    HashByFields(p.tuple);
    HashByFields(Tuple(p.tuple.srcIp, p.tuple.dstIp, 0, 0));
  }

  class RSSDistributor {
    const queues: seq<SPSCRing<Item>>

    ghost predicate Valid()
      reads queues
    {
      && |queues| > 0
      && (forall i :: 0 <= i < |queues| ==> queues[i].Valid())
      && (forall i, j :: 0 <= i < j < |queues| ==> queues[i] != queues[j] && queues[i].slots != queues[j].slots)
    }

    /** Steers an item; false when its ring is full. */
    method Submit(item: Item) returns (ok: bool)
      requires Valid()
      modifies queues[QueueOf(item.pkt, |queues|)], queues[QueueOf(item.pkt, |queues|)].slots
      ensures Valid()
      ensures var q := queues[QueueOf(item.pkt, |queues|)];
              && ok == (|old(q.Contents())| < q.slots.Length)
              && q.Contents() == if ok then old(q.Contents()) + [item] else old(q.Contents())
      ensures forall i :: 0 <= i < |queues| && i != QueueOf(item.pkt, |queues|) ==>
                queues[i].Contents() == old(queues[i].Contents())
    {
      hide TupleHash, ValueOf, IsCapacity, Wrap64, Window;
      var index := 0;
      if item.pkt.hasUdp {
        var t := item.pkt.tuple;
        var h := ToeplitzHash(t.srcIp, t.dstIp, t.srcPort, t.dstPort);
        index := ValueOf(h.bits) % |queues|;
      } else if item.pkt.hasIp {
        var t := item.pkt.tuple;
        var h := ToeplitzHash(t.srcIp, t.dstIp, 0, 0);
        index := ValueOf(h.bits) % |queues|;
      }
      ok := queues[index].Push(item);
    }
  }

  // --------------------------------------------------------------------- dispatching

  type Handler = nat

  /** What handlers observe. */
  datatype Call = Handle(h: Handler, item: Item) | Flush(h: Handler)

  /** Port table and fallback. */
  datatype Table = Table(udp: map<nat, Handler>, fallback: Option<Handler>)

  function HandlerFor(table: Table, item: Item): Option<Handler> {
    if item.pkt.hasUdp && item.pkt.tuple.dstPort in table.udp
    then Some(table.udp[item.pkt.tuple.dstPort])
    else table.fallback
  }

  /** The handle calls of a batch, in batch order. */
  function Handles(table: Table, batch: seq<Item>): seq<Call> {
    if batch == [] then [] else
      var rest := Handles(table, batch[..|batch| - 1]);
      match HandlerFor(table, batch[|batch| - 1])
      case Some(h) => rest + [Handle(h, batch[|batch| - 1])]
      case None => rest
  }

  lemma {:induction false} HandlesConcat(table: Table, a: seq<Item>, b: seq<Item>)
    ensures Handles(table, a + b) == Handles(table, a) + Handles(table, b)
    decreases |b|
  {
    hide HandlerFor;
    if b == [] {
      assert a + b == a;
    } else {
      var n := |b| - 1;
      HandlesConcat(table, a, b[..n]);
      assert (a + b)[..|a + b| - 1] == a + b[..n];
    }
  }

  /**
   What becomes of each packet of a batch, by its fields and the table alone, and in which
   order: a UDP packet to a registered port goes to that port's handler; any other packet
   goes to the fallback if there is one; its call stands between those of the packets
   before it and those of the packets after it.
   */
  lemma EachPacketDispatched(table: Table, batch: seq<Item>, i: nat)
    requires i < |batch|
    ensures var item := batch[i]; var p := item.pkt.tuple.dstPort;
            var before, after := Handles(table, batch[..i]), Handles(table, batch[i + 1..]);
            && (item.pkt.hasUdp && p in table.udp ==>
                  Handles(table, batch) == before + [Handle(table.udp[p], item)] + after)
            && (!(item.pkt.hasUdp && p in table.udp) && table.fallback.Some? ==>
                  Handles(table, batch) == before + [Handle(table.fallback.value, item)] + after)
            && (!(item.pkt.hasUdp && p in table.udp) && table.fallback.None? ==>
                  Handles(table, batch) == before + after)
  {
    assert batch == batch[..i] + [batch[i]] + batch[i + 1..];
    HandlesConcat(table, batch[..i] + [batch[i]], batch[i + 1..]);
    HandlesConcat(table, batch[..i], [batch[i]]);
    assert [batch[i]][..0] == [];
    assert Handles(table, []) == [];
  }

  /** The handlers called, each once, in order of first call. */
  function Touched(table: Table, batch: seq<Item>): (t: seq<Handler>)
    ensures |t| <= |batch|
    ensures forall i, j :: 0 <= i < j < |t| ==> t[i] != t[j]
  {
    if batch == [] then [] else
      var rest := Touched(table, batch[..|batch| - 1]);
      match HandlerFor(table, batch[|batch| - 1])
      case Some(h) => if h in rest then rest else rest + [h]
      case None => rest
  }

  function Flushes(hs: seq<Handler>): seq<Call> {
    seq(|hs|, i requires 0 <= i < |hs| => Flush(hs[i]))
  }

  /** Some packet of the batch goes to `h`. */
  ghost predicate IsCalled(table: Table, batch: seq<Item>, h: Handler) {
    exists k :: 0 <= k < |batch| && HandlerFor(table, batch[k]) == Some(h)
  }

  lemma IsCalledLast(table: Table, batch: seq<Item>, h: Handler)
    requires batch != []
    ensures IsCalled(table, batch, h) <==>
              IsCalled(table, batch[..|batch| - 1], h) || HandlerFor(table, batch[|batch| - 1]) == Some(h)
  {
    hide HandlerFor;
    var n := |batch| - 1;
    if IsCalled(table, batch[..n], h) {
      var k :| 0 <= k < n && HandlerFor(table, batch[..n][k]) == Some(h);
      assert HandlerFor(table, batch[k]) == Some(h);
    }
    if IsCalled(table, batch, h) && HandlerFor(table, batch[n]) != Some(h) {
      var k :| 0 <= k < |batch| && HandlerFor(table, batch[k]) == Some(h);
      assert HandlerFor(table, batch[..n][k]) == Some(h);
    }
  }

  /** A handler is flushed exactly when it was called. */
  lemma {:induction false} TouchedIffCalled(table: Table, batch: seq<Item>, h: Handler)
    ensures h in Touched(table, batch) <==> IsCalled(table, batch, h)
  {
    hide HandlerFor, IsCalled;
    if batch == [] {
      assert !IsCalled(table, batch, h) by { NothingCalled(table, h); }
    } else {
      TouchedIffCalled(table, batch[..|batch| - 1], h);
      IsCalledLast(table, batch, h);
    }
  }

  lemma NothingCalled(table: Table, h: Handler)
    ensures !IsCalled(table, [], h)
  {
  }

  /**
   Each handler that was called is flushed exactly once, after every handle call
   of the batch; no other handler is flushed.
   */
  lemma FlushedOnceAfterHandles(table: Table, batch: seq<Item>, h: Handler)
    ensures var calls := Handles(table, batch) + Flushes(Touched(table, batch));
            && multiset(calls)[Flush(h)] == (if IsCalled(table, batch, h) then 1 else 0)
            && forall i, j :: 0 <= i < |calls| && 0 <= j < |calls| && calls[i].Flush? && calls[j].Handle? ==> j < i
  {
    var hs, t := Handles(table, batch), Touched(table, batch);
    TouchedIffCalled(table, batch, h);
    HandlesOnly(table, batch);
    FlushCount(t, h);
  }

  lemma {:induction false} HandlesOnly(table: Table, batch: seq<Item>)
    ensures forall i :: 0 <= i < |Handles(table, batch)| ==> Handles(table, batch)[i].Handle?
    ensures forall h :: multiset(Handles(table, batch))[Flush(h)] == 0
  {
    if batch != [] {
      HandlesOnly(table, batch[..|batch| - 1]);
    }
  }

  lemma {:induction false} FlushCount(hs: seq<Handler>, h: Handler)
    requires forall i, j :: 0 <= i < j < |hs| ==> hs[i] != hs[j]
    ensures multiset(Flushes(hs))[Flush(h)] == if h in hs then 1 else 0
  {
    if hs != [] {
      var n := |hs| - 1;
      FlushCount(hs[..n], h);
      assert Flushes(hs) == Flushes(hs[..n]) + [Flush(hs[n])];
    }
  }

  class BatchProcessor {
    var table: Table
    var batches: nat
    var packets: nat
    var dispatched: nat

    /** The handler array's entry for a UDP packet's port, or else the default handler. */
    method Lookup(item: Item) returns (h: Option<Handler>)
      ensures h == HandlerFor(table, item)
    {
      h := None;
      if item.pkt.hasUdp && item.pkt.tuple.dstPort in table.udp {
        h := Some(table.udp[item.pkt.tuple.dstPort]);
      }
      if h.None? {
        h := table.fallback;
      }
    }

    /** `dispatch_batch`: handle each packet, remember its handler, flush the remembered ones. */
    method DispatchBatch(batch: seq<Item>) returns (calls: seq<Call>)
      requires |batch| <= BATCH_SIZE
      modifies this`dispatched
      ensures calls == Handles(table, batch) + Flushes(Touched(table, batch))
      ensures dispatched == old(dispatched) + |Handles(table, batch)|
    {
      hide HandlerFor;
      calls := [];
      var touched := new Handler[BATCH_SIZE + 1];
      var touchedCount := 0;
      for i := 0 to |batch|
        invariant calls == Handles(table, batch[..i])
        invariant 0 <= touchedCount <= i && touched[..touchedCount] == Touched(table, batch[..i])
        invariant dispatched == old(dispatched) + |calls|
      {
        assert batch[..i + 1][..i] == batch[..i];
        var h := Lookup(batch[i]);
        if h.Some? {
          calls := calls + [Handle(h.value, batch[i])];
          dispatched := dispatched + 1;
          var j := 0;
          while j < touchedCount && touched[j] != h.value
            invariant 0 <= j <= touchedCount && h.value !in touched[..j]
          {
            j := j + 1;
          }
          if j == touchedCount {
            touched[touchedCount] := h.value;
            touchedCount := touchedCount + 1;
          }
        }
      }
      assert batch[..|batch|] == batch;
      ghost var handled := calls;
      for j := 0 to touchedCount
        invariant calls == handled + Flushes(touched[..j])
      {
        calls := calls + [Flush(touched[j])];
        assert Flushes(touched[..j + 1]) == Flushes(touched[..j]) + [Flush(touched[j])];
      }
    }

    /** The drain loop: up to 32 items, oldest first. */
    method Drain(queue: SPSCRing<Item>) returns (batch: seq<Item>)
      requires queue.Valid()
      modifies queue`head, queue`popped
      ensures queue.Valid() && batch == Head(old(queue.Contents()))
      ensures |batch| == if |old(queue.Contents())| < 32 then |old(queue.Contents())| else 32
      ensures old(queue.Contents()) == batch + queue.Contents()
    {
      hide IsCapacity, Wrap64, Window;
      ghost var was := queue.Contents();
      batch := [];
      var more := true;
      while more && |batch| < BATCH_SIZE
        invariant queue.Valid() && was == batch + queue.Contents()
        invariant |batch| <= BATCH_SIZE
        invariant !more ==> queue.Contents() == []
        decreases more, BATCH_SIZE - |batch|
      {
        var item := queue.Pop();
        match item
        case Some(x) => batch := batch + [x];
        case None => more := false;
      }
    }

    /** `run_once`: drain up to 32, dispatch, release each drained buffer. */
    method RunOnce(queue: SPSCRing<Item>) returns (calls: seq<Call>, released: seq<nat>)
      requires queue.Valid()
      modifies this`dispatched, this`batches, this`packets, queue`head, queue`popped
      ensures queue.Valid()
      ensures var batch := Head(old(queue.Contents()));
              && old(queue.Contents()) == batch + queue.Contents()
              && calls == Handles(table, batch) + Flushes(Touched(table, batch))
              && released == Bufs(batch)
              && packets == old(packets) + |batch|
              && dispatched == old(dispatched) + |Handles(table, batch)|
              && batches == old(batches) + if |batch| > 0 then 1 else 0
    {
      hide Head;
      var batch := Drain(queue);
      calls, released := [], [];
      if |batch| == 0 {
        return;
      }
      HeadFits(batch, old(queue.Contents()));
      calls := DispatchBatch(batch);
      for i := 0 to |batch|
        invariant released == Bufs(batch[..i])
      {
        released := released + [batch[i].buf];
      }
      assert batch[..|batch|] == batch;
      batches := batches + 1;
      packets := packets + |batch|;
    }
  }

  /** At most a batch from the front of a queue. */
  function Head(items: seq<Item>): seq<Item> {
    if |items| <= BATCH_SIZE then items else items[..BATCH_SIZE]
  }

  lemma HeadFits(batch: seq<Item>, items: seq<Item>)
    requires batch == Head(items)
    ensures |batch| <= BATCH_SIZE
  {
  }

  function Bufs(batch: seq<Item>): (b: seq<nat>)
    ensures |b| == |batch|
  {
    seq(|batch|, i requires 0 <= i < |batch| => batch[i].buf)
  }

  // -------------------------------------------------------------------- whole runs

  /**
   A worker inside `run_once`. The batch is open while it is being drained; then its
   packets are handled, the touched handlers flushed and the buffers released, one
   at a time. `made` is what handlers have seen of this batch.
   */
  datatype Worker = Worker(batch: seq<Item>, open: bool, handled: nat, flushed: nat, freed: nat,
                           made: seq<Call>)

  const IDLE := Worker([], true, 0, 0, 0, [])

  /** The rings, the workers, and logs of all that happened, in order. */
  datatype Pipe = Pipe(
    queues: seq<seq<Item>>,
    workers: seq<Worker>,
    accepted: seq<Item>,      // pushed into some ring
    dispatched: seq<Item>,    // looked up, whether or not a handler was found
    calls: seq<Call>,         // seen by the handlers of all workers
    released: seq<Item>)      // buffer given back

  /**
   One ring operation, handler call or release. A submission may be refused and a
   drain may stop at any time: a ring can look full or empty to a thread that reads
   the other side's index late.
   */
  datatype Action =
    | Accept(item: Item)
    | Refuse(item: Item)
    | PopOne(w: nat)
    | StopDraining(w: nat)
    | HandleOne(w: nat)
    | FlushOne(w: nat)
    | ReleaseOne(w: nat)
    | Finish(w: nat)

  predicate Shaped(tables: seq<Table>, s: Pipe) {
    |s.queues| == |s.workers| == |tables| > 0
  }

  predicate CanStep(tables: seq<Table>, capacity: nat, s: Pipe, act: Action) {
    && Shaped(tables, s)
    && match act
       case Accept(item) => |s.queues[QueueOf(item.pkt, |s.queues|)]| < capacity
       case Refuse(_) => true
       case PopOne(w) =>
         w < |s.workers| && s.workers[w].open && |s.workers[w].batch| < BATCH_SIZE && s.queues[w] != []
       case StopDraining(w) => w < |s.workers| && s.workers[w].open
       case HandleOne(w) =>
         w < |s.workers| && !s.workers[w].open && s.workers[w].handled < |s.workers[w].batch|
       case FlushOne(w) =>
         && w < |s.workers| && !s.workers[w].open && s.workers[w].handled == |s.workers[w].batch|
         && s.workers[w].flushed < |Touched(tables[w], s.workers[w].batch)|
       case ReleaseOne(w) =>
         && w < |s.workers| && !s.workers[w].open && s.workers[w].handled == |s.workers[w].batch|
         && s.workers[w].flushed == |Touched(tables[w], s.workers[w].batch)|
         && s.workers[w].freed < |s.workers[w].batch|
       case Finish(w) =>
         w < |s.workers| && !s.workers[w].open && s.workers[w].freed == |s.workers[w].batch|
  }

  /** The handle call for a packet, if it has a handler. */
  function CallFor(table: Table, item: Item): seq<Call> {
    match HandlerFor(table, item) case Some(h) => [Handle(h, item)] case None => []
  }

  function Take(tables: seq<Table>, capacity: nat, s: Pipe, act: Action): (t: Pipe)
    requires CanStep(tables, capacity, s, act)
    ensures Shaped(tables, t)
  {
    match act
    case Accept(item) =>
      var q := QueueOf(item.pkt, |s.queues|);
      s.(queues := s.queues[q := s.queues[q] + [item]], accepted := s.accepted + [item])
    case Refuse(_) => s
    case PopOne(w) =>
      var me := s.workers[w];
      s.(queues := s.queues[w := s.queues[w][1..]],
         workers := s.workers[w := me.(batch := me.batch + [s.queues[w][0]])])
    case StopDraining(w) =>
      s.(workers := s.workers[w := s.workers[w].(open := s.workers[w].batch == [])])
    case HandleOne(w) =>
      var me := s.workers[w];
      var call := CallFor(tables[w], me.batch[me.handled]);
      s.(workers := s.workers[w := me.(handled := me.handled + 1, made := me.made + call)],
         dispatched := s.dispatched + [me.batch[me.handled]], calls := s.calls + call)
    case FlushOne(w) =>
      var me := s.workers[w];
      var call := [Flush(Touched(tables[w], me.batch)[me.flushed])];
      s.(workers := s.workers[w := me.(flushed := me.flushed + 1, made := me.made + call)],
         calls := s.calls + call)
    case ReleaseOne(w) =>
      var me := s.workers[w];
      s.(workers := s.workers[w := me.(freed := me.freed + 1)], released := s.released + [me.batch[me.freed]])
    case Finish(w) => s.(workers := s.workers[w := IDLE])
  }

  ghost predicate Initial(tables: seq<Table>, s: Pipe) {
    && Shaped(tables, s)
    && (forall q :: 0 <= q < |s.queues| ==> s.queues[q] == [] && s.workers[q] == IDLE)
    && s.accepted == [] && s.dispatched == [] && s.calls == [] && s.released == []
  }

  ghost predicate Next(tables: seq<Table>, capacity: nat, s: Pipe, act: Action, t: Pipe) {
    CanStep(tables, capacity, s, act) && t == Take(tables, capacity, s, act)
  }

  ghost predicate IsRun(tables: seq<Table>, capacity: nat, states: seq<Pipe>, acts: seq<Action>) {
    && |states| == |acts| + 1 && Initial(tables, states[0])
    && forall i :: 0 <= i < |acts| ==> Next(tables, capacity, states[i], acts[i], states[i + 1])
  }

  // ------------------------------------------------------------------ worker by worker

  /** How far a worker can be, and what its handlers have seen by then. */
  ghost predicate WorkerOk(table: Table, me: Worker) {
    var touched := Touched(table, me.batch);
    && me.freed <= me.handled <= |me.batch| <= BATCH_SIZE && me.flushed <= |touched|
    && (me.open ==> me.handled == 0 && me.flushed == 0)
    && (!me.open ==> me.batch != [])
    && (me.flushed > 0 ==> me.handled == |me.batch|)
    && (me.freed > 0 ==> me.handled == |me.batch| && me.flushed == |touched|)
    && me.made == Handles(table, me.batch[..me.handled]) + Flushes(touched[..me.flushed])
  }

  /** Everything queued at or drained by worker `q` was steered to it. */
  ghost predicate SteeredTo(items: seq<Item>, q: nat, n: nat)
    requires n > 0
  {
    forall k :: 0 <= k < |items| ==> QueueOf(items[k].pkt, n) == q
  }

  ghost predicate PipeOk(tables: seq<Table>, capacity: nat, s: Pipe) {
    && Shaped(tables, s)
    && forall q :: 0 <= q < |s.queues| ==>
         && |s.queues[q]| <= capacity && WorkerOk(tables[q], s.workers[q])
         && SteeredTo(s.queues[q], q, |s.queues|) && SteeredTo(s.workers[q].batch, q, |s.queues|)
  }

  lemma HandlesNext(table: Table, batch: seq<Item>, k: nat)
    requires k < |batch|
    ensures Handles(table, batch[..k + 1]) == Handles(table, batch[..k]) + CallFor(table, batch[k])
  {
    hide HandlerFor;
    assert batch[..k + 1][..k] == batch[..k];
  }

  lemma HandleOk(table: Table, me: Worker)
    requires WorkerOk(table, me) && !me.open && me.handled < |me.batch|
    ensures WorkerOk(table, me.(handled := me.handled + 1,
                                made := me.made + CallFor(table, me.batch[me.handled])))
  {
    hide Handles, Touched, CallFor;
    HandlesNext(table, me.batch, me.handled);
    assert Flushes(Touched(table, me.batch)[..0]) == [];
  }

  lemma FlushOk(table: Table, me: Worker)
    requires WorkerOk(table, me) && !me.open && me.handled == |me.batch|
    requires me.flushed < |Touched(table, me.batch)|
    ensures WorkerOk(table, me.(flushed := me.flushed + 1,
                                made := me.made + [Flush(Touched(table, me.batch)[me.flushed])]))
  {
    hide Handles, Touched;
    var touched := Touched(table, me.batch);
    assert Flushes(touched[..me.flushed + 1]) == Flushes(touched[..me.flushed]) + [Flush(touched[me.flushed])];
  }

  lemma DrainOk(table: Table, me: Worker, item: Item)
    requires WorkerOk(table, me) && me.open && |me.batch| < BATCH_SIZE
    ensures WorkerOk(table, me.(batch := me.batch + [item]))
  {
    hide Touched;
    assert (me.batch + [item])[..0] == me.batch[..0];
    assert Touched(table, me.batch + [item])[..0] == Touched(table, me.batch)[..0];
  }

  lemma IdleOk(table: Table)
    ensures WorkerOk(table, IDLE)
  {
  }

  lemma PipeStep(tables: seq<Table>, capacity: nat, s: Pipe, act: Action)
    requires PipeOk(tables, capacity, s) && CanStep(tables, capacity, s, act)
    ensures PipeOk(tables, capacity, Take(tables, capacity, s, act))
  {
    hide QueueOf, HandlerFor, CallFor, WorkerOk, Touched;
    match act
    case Accept(item) =>
    case Refuse(_) =>
    case PopOne(w) => DrainOk(tables[w], s.workers[w], s.queues[w][0]);
    case StopDraining(w) => StopOk(tables[w], s.workers[w]);
    case HandleOne(w) => HandleOk(tables[w], s.workers[w]);
    case FlushOne(w) => FlushOk(tables[w], s.workers[w]);
    case ReleaseOne(w) => FreeOk(tables[w], s.workers[w]);
    case Finish(w) => IdleOk(tables[w]);
  }

  lemma StopOk(table: Table, me: Worker)
    requires WorkerOk(table, me) && me.open
    ensures WorkerOk(table, me.(open := me.batch == []))
  {
    hide Touched, Handles;
  }

  lemma FreeOk(table: Table, me: Worker)
    requires WorkerOk(table, me) && me.handled == |me.batch| && me.flushed == |Touched(table, me.batch)|
    requires me.freed < |me.batch|
    ensures WorkerOk(table, me.(freed := me.freed + 1))
  {
    hide Touched, Handles;
  }

  /** A worker is never held up: exactly one kind of step is its next. */
  lemma WorkerHasStep(tables: seq<Table>, capacity: nat, s: Pipe, w: nat)
    requires PipeOk(tables, capacity, s) && w < |s.workers|
    ensures var me := s.workers[w];
            && (CanStep(tables, capacity, s, StopDraining(w)) <==> me.open)
            && (CanStep(tables, capacity, s, PopOne(w)) <==> me.open && |me.batch| < 32 && s.queues[w] != [])
            && (CanStep(tables, capacity, s, HandleOne(w)) <==> !me.open && me.handled < |me.batch|)
            && (me.open ==> (Take(tables, capacity, s, StopDraining(w)).workers[w].open <==> me.batch == []))
    ensures var me := s.workers[w]; !me.open && me.handled == |me.batch| ==>
              || CanStep(tables, capacity, s, FlushOne(w))
              || CanStep(tables, capacity, s, ReleaseOne(w))
              || CanStep(tables, capacity, s, Finish(w))
  {
    hide Touched, Handles, SteeredTo;
    assert WorkerOk(tables[w], s.workers[w]);
  }

  /** What a worker still has to do in its closed batch. */
  function WorkLeft(table: Table, me: Worker): int {
    if me.open then 0
    else 1 + |me.batch| - me.handled + |Touched(table, me.batch)| - me.flushed + |me.batch| - me.freed
  }

  /** And it gets on: each such step leaves less, until the worker is idle again. */
  lemma WorkShrinks(tables: seq<Table>, capacity: nat, s: Pipe, act: Action)
    requires PipeOk(tables, capacity, s) && CanStep(tables, capacity, s, act)
    requires act.HandleOne? || act.FlushOne? || act.ReleaseOne? || act.Finish?
    ensures var t := Take(tables, capacity, s, act);
            && 0 <= WorkLeft(tables[act.w], t.workers[act.w]) < WorkLeft(tables[act.w], s.workers[act.w])
            && (WorkLeft(tables[act.w], t.workers[act.w]) == 0 ==> t.workers[act.w] == IDLE)
  {
    hide Touched, Handles, SteeredTo, CallFor;
    assert WorkerOk(tables[act.w], s.workers[act.w]);
    PipeStep(tables, capacity, s, act);
    assert WorkerOk(tables[act.w], Take(tables, capacity, s, act).workers[act.w]);
  }

  /** A submission can be accepted exactly while its ring has room. */
  lemma AcceptedIffRoom(tables: seq<Table>, capacity: nat, s: Pipe, item: Item)
    requires Shaped(tables, s)
    ensures CanStep(tables, capacity, s, Accept(item)) <==>
              |s.queues[QueueOf(item.pkt, |tables|)]| < capacity
  {
    hide QueueOf;
  }

  // ---------------------------------------------------------------------- flow by flow

  /** The items of one flow, in order. */
  function OfFlow(items: seq<Item>, flow: Option<Tuple>): seq<Item> {
    if items == [] then [] else
      OfFlow(items[..|items| - 1], flow)
      + if FlowOf(items[|items| - 1].pkt) == flow then [items[|items| - 1]] else []
  }

  lemma {:induction false} OfFlowConcat(a: seq<Item>, b: seq<Item>, flow: Option<Tuple>)
    ensures OfFlow(a + b, flow) == OfFlow(a, flow) + OfFlow(b, flow)
    decreases |b|
  {
    if b == [] {
      assert a + b == a;
    } else {
      var n := |b| - 1;
      OfFlowConcat(a, b[..n], flow);
      assert (a + b)[..|a + b| - 1] == a + b[..n];
    }
  }

  lemma OfFlowOne(item: Item, flow: Option<Tuple>)
    ensures OfFlow([item], flow) == if FlowOf(item.pkt) == flow then [item] else []
  {
    assert [item][..0] == [];
  }

  /** A packet of another flow makes no difference. */
  lemma OfFlowSkips(a: seq<Item>, item: Item, b: seq<Item>, flow: Option<Tuple>)
    requires FlowOf(item.pkt) != flow
    ensures OfFlow(a + [item] + b, flow) == OfFlow(a + b, flow)
  {
    hide OfFlow, FlowOf;
    OfFlowConcat(a + [item], b, flow);
    OfFlowConcat(a, [item], flow);
    OfFlowOne(item, flow);
    OfFlowConcat(a, b, flow);
  }

  /** An item occurs as often among its flow's items as among all. */
  lemma {:induction false} OfFlowCounts(items: seq<Item>, x: Item)
    ensures multiset(OfFlow(items, FlowOf(x.pkt)))[x] == multiset(items)[x]
  {
    hide FlowOf;
    if items != [] {
      var n := |items| - 1;
      OfFlowCounts(items[..n], x);
      assert items == items[..n] + [items[n]];
    }
  }

  /** The packets a call log carries to handlers, in order. */
  function HandledItems(calls: seq<Call>): seq<Item> {
    if calls == [] then [] else
      HandledItems(calls[..|calls| - 1])
      + match calls[|calls| - 1] case Handle(_, item) => [item] case Flush(_) => []
  }

  /** Those that have a handler at all. */
  function WithHandler(table: Table, items: seq<Item>): seq<Item> {
    if items == [] then [] else
      WithHandler(table, items[..|items| - 1])
      + if HandlerFor(table, items[|items| - 1]).Some? then [items[|items| - 1]] else []
  }

  lemma {:induction false} WithHandlerConcat(table: Table, a: seq<Item>, b: seq<Item>)
    ensures WithHandler(table, a + b) == WithHandler(table, a) + WithHandler(table, b)
    decreases |b|
  {
    hide HandlerFor;
    if b == [] {
      assert a + b == a;
    } else {
      var n := |b| - 1;
      WithHandlerConcat(table, a, b[..n]);
      assert (a + b)[..|a + b| - 1] == a + b[..n];
    }
  }

  lemma HandledNext(table: Table, calls: seq<Call>, item: Item)
    ensures HandledItems(calls + CallFor(table, item))
         == HandledItems(calls) + if HandlerFor(table, item).Some? then [item] else []
  {
    hide HandlerFor;
    if HandlerFor(table, item).Some? {
      assert (calls + CallFor(table, item))[..|calls|] == calls;
    } else {
      assert calls + CallFor(table, item) == calls;
    }
  }

  lemma HandledFlush(calls: seq<Call>, h: Handler)
    ensures HandledItems(calls + [Flush(h)]) == HandledItems(calls)
  {
    assert (calls + [Flush(h)])[..|calls|] == calls;
  }

  function Undispatched(me: Worker): seq<Item>
    requires me.handled <= |me.batch|
  {
    me.batch[me.handled..]
  }

  function Unreleased(me: Worker): seq<Item>
    requires me.freed <= |me.batch|
  {
    me.batch[me.freed..]
  }

  /**
   Where the packets of a flow are, in the order they were accepted: dispatched,
   then in its worker's batch, then in its ring; and likewise for releases.
   */
  ghost predicate FlowOk(tables: seq<Table>, s: Pipe, flow: Option<Tuple>, q: nat)
    requires Shaped(tables, s)
  {
    && q < |s.queues|
    && s.workers[q].handled <= |s.workers[q].batch| && s.workers[q].freed <= |s.workers[q].batch|
    && OfFlow(s.accepted, flow) == OfFlow(s.dispatched + (Undispatched(s.workers[q]) + s.queues[q]), flow)
    && OfFlow(s.accepted, flow) == OfFlow(s.released + (Unreleased(s.workers[q]) + s.queues[q]), flow)
    && OfFlow(HandledItems(s.calls), flow) == WithHandler(tables[q], OfFlow(s.dispatched, flow))
  }

  lemma AcceptFlow(tables: seq<Table>, capacity: nat, s: Pipe, item: Item, flow: Option<Tuple>, q: nat)
    requires CanStep(tables, capacity, s, Accept(item)) && FlowOk(tables, s, flow, q)
    requires FlowOf(item.pkt) == flow ==> QueueOf(item.pkt, |s.queues|) == q
    ensures FlowOk(tables, Take(tables, capacity, s, Accept(item)), flow, q)
  {
    hide OfFlow, FlowOf, QueueOf, WithHandler, HandledItems;
    var t := Take(tables, capacity, s, Accept(item));
    var d, u := s.dispatched + (Undispatched(s.workers[q]) + s.queues[q]),
                s.released + (Unreleased(s.workers[q]) + s.queues[q]);
    OfFlowConcat(s.accepted, [item], flow);
    OfFlowConcat(d, [item], flow);
    OfFlowConcat(u, [item], flow);
    OfFlowOne(item, flow);
    if QueueOf(item.pkt, |s.queues|) == q {
      assert d + [item] == t.dispatched + (Undispatched(t.workers[q]) + t.queues[q]);
      assert u + [item] == t.released + (Unreleased(t.workers[q]) + t.queues[q]);
    }
  }

  lemma PopFlow(tables: seq<Table>, capacity: nat, s: Pipe, w: nat, flow: Option<Tuple>, q: nat)
    requires CanStep(tables, capacity, s, PopOne(w)) && FlowOk(tables, s, flow, q)
    ensures FlowOk(tables, Take(tables, capacity, s, PopOne(w)), flow, q)
  {
    hide OfFlow, WithHandler, HandledItems;
    var t := Take(tables, capacity, s, PopOne(w));
    if w == q {
      assert Undispatched(t.workers[q]) + t.queues[q] == Undispatched(s.workers[q]) + s.queues[q];
      assert Unreleased(t.workers[q]) + t.queues[q] == Unreleased(s.workers[q]) + s.queues[q];
    }
  }

  lemma HandleFlow(tables: seq<Table>, capacity: nat, s: Pipe, w: nat, flow: Option<Tuple>, q: nat)
    requires CanStep(tables, capacity, s, HandleOne(w)) && FlowOk(tables, s, flow, q)
    requires w != q ==> FlowOf(s.workers[w].batch[s.workers[w].handled].pkt) != flow
    ensures FlowOk(tables, Take(tables, capacity, s, HandleOne(w)), flow, q)
  {
    hide OfFlow, FlowOf, WithHandler, HandledItems, HandlerFor, CallFor;
    var t := Take(tables, capacity, s, HandleOne(w));
    var item := s.workers[w].batch[s.workers[w].handled];
    var rest := Undispatched(t.workers[q]) + t.queues[q];
    if w == q {
      assert t.dispatched + rest == s.dispatched + (Undispatched(s.workers[q]) + s.queues[q]);
    } else {
      OfFlowSkips(s.dispatched, item, rest, flow);
    }
    HandledNext(tables[w], s.calls, item);
    HandleLogs(tables[q], HandledItems(s.calls), s.dispatched, item, HandlerFor(tables[w], item).Some?, flow);
  }

  /** A dispatched packet enters the handled log if it has a handler; only its own flow's logs change. */
  lemma HandleLogs(table: Table, handled: seq<Item>, dispatched: seq<Item>, item: Item, has: bool,
                   flow: Option<Tuple>)
    requires OfFlow(handled, flow) == WithHandler(table, OfFlow(dispatched, flow))
    requires FlowOf(item.pkt) == flow ==> has == HandlerFor(table, item).Some?
    ensures OfFlow(handled + if has then [item] else [], flow)
         == WithHandler(table, OfFlow(dispatched + [item], flow))
  {
    hide OfFlow, FlowOf, WithHandler, HandlerFor;
    OfFlowConcat(handled, if has then [item] else [], flow);
    OfFlowConcat(dispatched, [item], flow);
    OfFlowOne(item, flow);
    EmptyFilters(table, flow);
    if FlowOf(item.pkt) == flow {
      WithHandlerConcat(table, OfFlow(dispatched, flow), [item]);
      WithHandlerOne(table, item);
    } else {
      assert OfFlow(dispatched, flow) + [] == OfFlow(dispatched, flow);
    }
  }

  lemma EmptyFilters(table: Table, flow: Option<Tuple>)
    ensures OfFlow([], flow) == [] && WithHandler(table, []) == []
  {
  }

  lemma WithHandlerOne(table: Table, item: Item)
    ensures WithHandler(table, [item]) == if HandlerFor(table, item).Some? then [item] else []
  {
    assert [item][..0] == [];
  }

  lemma ReleaseFlow(tables: seq<Table>, capacity: nat, s: Pipe, w: nat, flow: Option<Tuple>, q: nat)
    requires CanStep(tables, capacity, s, ReleaseOne(w)) && FlowOk(tables, s, flow, q)
    requires w != q ==> FlowOf(s.workers[w].batch[s.workers[w].freed].pkt) != flow
    ensures FlowOk(tables, Take(tables, capacity, s, ReleaseOne(w)), flow, q)
  {
    hide OfFlow, FlowOf, WithHandler, HandledItems, Touched;
    var t := Take(tables, capacity, s, ReleaseOne(w));
    var rest := Unreleased(t.workers[q]) + t.queues[q];
    if w == q {
      assert t.released + rest == s.released + (Unreleased(s.workers[q]) + s.queues[q]);
    } else {
      OfFlowSkips(s.released, s.workers[w].batch[s.workers[w].freed], rest, flow);
    }
  }

  lemma FinishFlow(tables: seq<Table>, capacity: nat, s: Pipe, w: nat, flow: Option<Tuple>, q: nat)
    requires CanStep(tables, capacity, s, Finish(w)) && FlowOk(tables, s, flow, q)
    requires s.workers[w].handled == |s.workers[w].batch|
    ensures FlowOk(tables, Take(tables, capacity, s, Finish(w)), flow, q)
  {
    hide OfFlow, WithHandler, HandledItems;
    if w == q {
      assert Undispatched(s.workers[q]) == [] && Unreleased(s.workers[q]) == [];
    }
  }

  lemma FlowStep(tables: seq<Table>, capacity: nat, s: Pipe, act: Action, flow: Option<Tuple>, q: nat)
    requires PipeOk(tables, capacity, s) && CanStep(tables, capacity, s, act) && FlowOk(tables, s, flow, q)
    requires forall p: Parsed :: FlowOf(p) == flow ==> QueueOf(p, |s.queues|) == q
    ensures FlowOk(tables, Take(tables, capacity, s, act), flow, q)
  {
    hide QueueOf, FlowOf, OfFlow, HandledItems, WithHandler, Touched, Handles, CallFor;
    match act
    case Accept(item) => AcceptFlow(tables, capacity, s, item, flow, q);
    case Refuse(_) =>
    case PopOne(w) => PopFlow(tables, capacity, s, w, flow, q);
    case StopDraining(w) =>
    case HandleOne(w) => HandleFlow(tables, capacity, s, w, flow, q);
    case FlushOne(w) => HandledFlush(s.calls, Touched(tables[w], s.workers[w].batch)[s.workers[w].flushed]);
    case ReleaseOne(w) => ReleaseFlow(tables, capacity, s, w, flow, q);
    case Finish(w) => FinishFlow(tables, capacity, s, w, flow, q);
  }

  /** Packets with equal addresses and ports are all steered to one queue. */
  lemma FlowHasOneQueue(flow: Option<Tuple>, n: nat)
    requires n > 0
    ensures forall p: Parsed :: FlowOf(p) == flow ==> QueueOf(p, n) == QueueOfFlow(flow, n)
  {
  }

  lemma StartOk(tables: seq<Table>, capacity: nat, s: Pipe, flow: Option<Tuple>)
    requires Initial(tables, s)
    ensures PipeOk(tables, capacity, s) && FlowOk(tables, s, flow, QueueOfFlow(flow, |s.queues|))
  {
    hide QueueOf, FlowOf, HandlerFor, QueueOfFlow, WorkerOk;
    forall q | 0 <= q < |tables| ensures WorkerOk(tables[q], IDLE) {
      IdleOk(tables[q]);
    }
  }

  lemma {:induction false} RunOk(tables: seq<Table>, capacity: nat, states: seq<Pipe>, acts: seq<Action>,
                                 i: nat, flow: Option<Tuple>)
    requires IsRun(tables, capacity, states, acts) && i < |states|
    ensures PipeOk(tables, capacity, states[i])
    ensures FlowOk(tables, states[i], flow, QueueOfFlow(flow, |tables|))
  {
    hide CanStep, Take, FlowOk, QueueOfFlow, QueueOf, WorkerOk, SteeredTo, Initial;
    if i == 0 {
      StartOk(tables, capacity, states[0], flow);
    } else {
      RunOk(tables, capacity, states, acts, i - 1, flow);
      assert Next(tables, capacity, states[i - 1], acts[i - 1], states[i]);
      PipeStep(tables, capacity, states[i - 1], acts[i - 1]);
      FlowHasOneQueue(flow, |tables|);
      FlowStep(tables, capacity, states[i - 1], acts[i - 1], flow, QueueOfFlow(flow, |tables|));
    }
  }

  // -------------------------------------------------------------------------- theorems

  lemma {:induction false} WithHandlerPrefix(table: Table, a: seq<Item>, b: seq<Item>)
    requires a <= b
    ensures WithHandler(table, a) <= WithHandler(table, b)
  {
    WithHandlerConcat(table, a, b[|a|..]);
    assert b == a + b[|a|..];
  }

  /** A released buffer was dispatched before: a batch is released only after its dispatch. */
  lemma ReleasedWasDispatched(s: Pipe, me: Worker, queue: seq<Item>, flow: Option<Tuple>)
    requires me.freed <= me.handled <= |me.batch|
    requires OfFlow(s.dispatched + (Undispatched(me) + queue), flow)
          == OfFlow(s.released + (Unreleased(me) + queue), flow)
    ensures OfFlow(s.released, flow) <= OfFlow(s.dispatched, flow)
            <= OfFlow(s.dispatched + (Undispatched(me) + queue), flow)
  {
    hide OfFlow;
    var late := me.batch[me.freed..me.handled];
    assert Unreleased(me) + queue == late + (Undispatched(me) + queue);
    OfFlowConcat(s.dispatched, Undispatched(me) + queue, flow);
    OfFlowConcat(s.released, Unreleased(me) + queue, flow);
    OfFlowConcat(late, Undispatched(me) + queue, flow);
    var d, r, l, z := OfFlow(s.dispatched, flow), OfFlow(s.released, flow), OfFlow(late, flow),
                      OfFlow(Undispatched(me) + queue, flow);
    assert d + z == r + (l + z);
    assert |d| == |r| + |l|;
    assert (d + z)[..|r|] == (r + (l + z))[..|r|];
  }

  /**
   Over every interleaving of submissions, pops, handler calls, flushes and releases:
   a flow's packets are dispatched in the order they were accepted, none skipped and
   none twice; those with a handler reach it in that order; and buffers are released
   in that order too, never before their dispatch.
   */
  lemma PerFlowOrder(tables: seq<Table>, capacity: nat, states: seq<Pipe>, acts: seq<Action>,
                     i: nat, flow: Option<Tuple>)
    requires IsRun(tables, capacity, states, acts) && i < |states|
    ensures var s := states[i]; var table := tables[QueueOfFlow(flow, |tables|)];
            && OfFlow(s.released, flow) <= OfFlow(s.dispatched, flow) <= OfFlow(s.accepted, flow)
            && OfFlow(HandledItems(s.calls), flow) == WithHandler(table, OfFlow(s.dispatched, flow))
            && OfFlow(HandledItems(s.calls), flow) <= WithHandler(table, OfFlow(s.accepted, flow))
  {
    hide IsRun, HandlerFor, FlowOf, QueueOfFlow, OfFlow, HandledItems, WithHandler;
    RunOk(tables, capacity, states, acts, i, flow);
    var s, q := states[i], QueueOfFlow(flow, |tables|);
    assert WorkerOk(tables[q], s.workers[q]);
    ReleasedWasDispatched(s, s.workers[q], s.queues[q], flow);
    WithHandlerPrefix(tables[q], OfFlow(s.dispatched, flow), OfFlow(s.accepted, flow));
  }

  /**
   Every item is released at most as often as it was accepted, and once its worker has
   nothing left, exactly as often.
   */
  lemma ReleasedOnce(tables: seq<Table>, capacity: nat, states: seq<Pipe>, acts: seq<Action>, i: nat, x: Item)
    requires IsRun(tables, capacity, states, acts) && i < |states|
    ensures multiset(states[i].released)[x] <= multiset(states[i].accepted)[x]
    ensures var q := QueueOf(x.pkt, |tables|);
            Shaped(tables, states[i]) && (states[i].queues[q] == [] && states[i].workers[q] == IDLE ==>
              multiset(states[i].released)[x] == multiset(states[i].accepted)[x])
  {
    hide IsRun, FlowOf, QueueOf, QueueOfFlow, OfFlow, HandledItems, WithHandler, WorkerOk, SteeredTo;
    var s, flow := states[i], FlowOf(x.pkt);
    RunOk(tables, capacity, states, acts, i, flow);
    PerFlowOrder(tables, capacity, states, acts, i, flow);
    FlowHasOneQueue(flow, |tables|);
    OfFlowCounts(s.released, x);
    OfFlowCounts(s.accepted, x);
    var r, a := OfFlow(s.released, flow), OfFlow(s.accepted, flow);
    assert a == r + a[|r|..];
    if s.queues[QueueOf(x.pkt, |tables|)] == [] && s.workers[QueueOf(x.pkt, |tables|)] == IDLE {
      assert s.released + ([] + []) == s.released;
    }
  }

  /** When a worker's first buffer goes back, its handlers have seen the whole batch, flushes last. */
  lemma BatchSeenBeforeRelease(tables: seq<Table>, capacity: nat, states: seq<Pipe>, acts: seq<Action>,
                               i: nat, w: nat)
    requires IsRun(tables, capacity, states, acts) && i < |acts| && acts[i] == ReleaseOne(w)
    ensures w < |states[i].workers| && w < |tables|
    ensures var me := states[i].workers[w];
            me.made == Handles(tables[w], me.batch) + Flushes(Touched(tables[w], me.batch))
  {
    hide FlowOk, SteeredTo, Touched, Handles, Take, Initial, QueueOf;
    RunOk(tables, capacity, states, acts, i, None);
    assert Next(tables, capacity, states[i], acts[i], states[i + 1]);
    var me := states[i].workers[w];
    assert WorkerOk(tables[w], me);
    var touched := Touched(tables[w], me.batch);
    assert me.batch[..me.handled] == me.batch && touched[..me.flushed] == touched;
  }
}
