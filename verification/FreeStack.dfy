/**
 The lock-free free stack of the buffer pool, one atomic step at a time. Any
 number of threads run acquire and release; every load, link access,
 compare-and-swap and counter update is a separate step, interleaved freely, and
 a compare-and-swap may fail spuriously.
 */
module FreeStack {
  const EMPTY: int := 0xFFFF_FFFF
  const TWO32: int := 0x1_0000_0000

  /** The two halves of the packed 64-bit head. */
  datatype Top = Top(gen: nat, index: nat)

  function Pack(t: Top): nat {
    t.gen * TWO32 + t.index
  }

  function GenOf(v: nat): nat { v / TWO32 }
  function IndexOf(v: nat): nat { v % TWO32 }

  /** Packing loses nothing, so comparing packed heads compares both halves. */
  lemma PackInjective(t: Top, u: Top)
    requires t.gen < TWO32 && t.index < TWO32 && u.gen < TWO32 && u.index < TWO32
    ensures GenOf(Pack(t)) == t.gen && IndexOf(Pack(t)) == t.index
    ensures Pack(t) == Pack(u) ==> t == u
  {
    assert GenOf(Pack(u)) == u.gen && IndexOf(Pack(u)) == u.index;
  }

  /**
   Where a thread stands. `at` is the number of successful compare-and-swaps
   before its last load of the head; the code does not have it.
   */
  datatype Pc =
    | Idle
    | PushLoaded(index: nat, seen: Top, at: nat)
    | PushLinked(index: nat, seen: Top, at: nat)
    | PushCounting
    | ReleaseCounting
    | PopLoaded(seen: Top, at: nat)
    | PopLinked(seen: Top, next: nat, at: nat)
    | PopCounting(index: nat)
    | AcquireCounting(index: nat)
    | ExhaustCounting

  /** Who has an index: the stack, a caller, or a thread in the middle of an operation. */
  datatype Loc = InStack | Client | Thread(t: nat)

  datatype State = State(
    top: Top,
    links: seq<nat>,
    size: nat,
    acquires: nat,
    releases: nat,
    exhausted: nat,
    pcs: seq<Pc>,
    // what the proofs follow
    stack: seq<nat>,
    era: nat,
    loc: seq<Loc>)

  datatype Step =
    | LoadForPush(t: nat, index: nat)
    | WriteLink(t: nat)
    | PushCas(t: nat)
    | PushCasFails(t: nat)
    | AddSize(t: nat)
    | CountRelease(t: nat)
    | LoadForPop(t: nat)
    | PopSeesEmpty(t: nat)
    | ReadLink(t: nat)
    | PopCas(t: nat)
    | PopCasFails(t: nat)
    | SubSize(t: nat)
    | CountAcquire(t: nat)
    | CountExhausted(t: nat)

  /** Whether the code, at its program point, can take the step. */
  predicate CanStep(s: State, step: Step) {
    && step.t < |s.pcs|
    && var pc := s.pcs[step.t];
       match step
       case LoadForPush(_, i) => pc.Idle? && i < |s.loc| && s.loc[i] == Client
       case WriteLink(_) => pc.PushLoaded?
       case PushCas(_) => pc.PushLinked? && Pack(s.top) == Pack(pc.seen)
       case PushCasFails(_) => pc.PushLinked?
       case AddSize(_) => pc.PushCounting?
       case CountRelease(_) => pc.ReleaseCounting?
       case LoadForPop(_) => pc.Idle?
       case PopSeesEmpty(_) => pc.PopLoaded? && pc.seen.index == EMPTY
       case ReadLink(_) => pc.PopLoaded? && pc.seen.index != EMPTY && pc.seen.index < |s.links|
       case PopCas(_) => pc.PopLinked? && Pack(s.top) == Pack(pc.seen)
       case PopCasFails(_) => pc.PopLinked?
       case SubSize(_) => pc.PopCounting?
       case CountAcquire(_) => pc.AcquireCounting?
       case CountExhausted(_) => pc.ExhaustCounting?
  }

  function Go(s: State, t: nat, pc: Pc): State
    requires t < |s.pcs|
  {
    s.(pcs := s.pcs[t := pc])
  }

  function Bump(top: Top, index: nat): Top {
    Top((top.gen + 1) % TWO32, index)
  }

  ghost predicate Sized(s: State) {
    |s.loc| == |s.links| && forall t :: 0 <= t < |s.pcs| ==> PcInRange(s.pcs[t], |s.links|)
  }

  predicate PcInRange(pc: Pc, n: nat) {
    && (pc.PushLoaded? || pc.PushLinked? || pc.PopCounting? || pc.AcquireCounting? ==> pc.index < n)
    && (pc.PopLinked? ==> pc.seen.index < n)
  }

  function Take(s: State, step: Step): State
    requires Sized(s) && CanStep(s, step)
  {
    var t := step.t;
    var pc := s.pcs[t];
    match step
    case LoadForPush(_, i) =>
      Go(s, t, PushLoaded(i, s.top, s.era)).(loc := s.loc[i := Thread(t)])
    case WriteLink(_) =>
      Go(s, t, PushLinked(pc.index, pc.seen, pc.at)).(links := s.links[pc.index := pc.seen.index])
    case PushCas(_) =>
      Go(s, t, PushCounting).(top := Bump(pc.seen, pc.index), era := s.era + 1,
                              stack := [pc.index] + s.stack, loc := s.loc[pc.index := InStack])
    case PushCasFails(_) => Go(s, t, PushLoaded(pc.index, s.top, s.era))
    case AddSize(_) => Go(s, t, ReleaseCounting).(size := (s.size + 1) % TWO32)
    case CountRelease(_) => Go(s, t, Idle).(releases := s.releases + 1)
    case LoadForPop(_) => Go(s, t, PopLoaded(s.top, s.era))
    case PopSeesEmpty(_) => Go(s, t, ExhaustCounting)
    case ReadLink(_) => Go(s, t, PopLinked(pc.seen, s.links[pc.seen.index], pc.at))
    case PopCas(_) =>
      Go(s, t, PopCounting(pc.seen.index)).(top := Bump(pc.seen, pc.next), era := s.era + 1,
                                           stack := if s.stack == [] then [] else s.stack[1..],
                                           loc := s.loc[pc.seen.index := Thread(t)])
    case PopCasFails(_) => Go(s, t, PopLoaded(s.top, s.era))
    case SubSize(_) => Go(s, t, AcquireCounting(pc.index)).(size := (s.size - 1) % TWO32)
    case CountAcquire(_) =>
      Go(s, t, Idle).(acquires := s.acquires + 1, loc := s.loc[pc.index := Client])
    case CountExhausted(_) => Go(s, t, Idle).(exhausted := s.exhausted + 1)
  }

  /** A pop swaps in a link that is still the link of the first buffer. */
  predicate LinkCurrent(s: State, step: Step)
    requires CanStep(s, step)
  {
    step.PopCas? ==> var pc := s.pcs[step.t]; pc.seen.index < |s.links| && pc.next == s.links[pc.seen.index]
  }

  /** Fewer than 2^32 swaps succeeded between a pop's load and its own swap. */
  predicate Recent(s: State, step: Step)
    requires CanStep(s, step)
  {
    step.PopCas? ==> s.era - s.pcs[step.t].at < TWO32
  }

  // --------------------------------------------------------------------- invariant

  /** First of the stack, as the code writes it. */
  function Head(stack: seq<nat>): nat {
    if stack == [] then EMPTY else stack[0]
  }

  /** The link chain from the head spells the stack and ends. */
  ghost predicate Chained(links: seq<nat>, stack: seq<nat>) {
    forall i :: 0 <= i < |stack| ==>
      stack[i] < |links| && links[stack[i]] == Head(stack[i + 1..])
  }

  ghost predicate Distinct(stack: seq<nat>) {
    forall i, j :: 0 <= i < j < |stack| ==> stack[i] != stack[j]
  }

  /** The index a thread has to itself. */
  predicate Holds(pc: Pc, i: nat) {
    (pc.PushLoaded? || pc.PushLinked? || pc.PopCounting? || pc.AcquireCounting?) && pc.index == i
  }

  predicate HasOld(pc: Pc) {
    pc.PushLoaded? || pc.PushLinked? || pc.PopLoaded? || pc.PopLinked?
  }

  /** What a thread knows from its last load. */
  ghost predicate PcOk(s: State, pc: Pc) {
    && (HasOld(pc) ==>
          && pc.at <= s.era && pc.seen.gen == pc.at % TWO32
          && (pc.seen.index == EMPTY || pc.seen.index < |s.links|)
          && (pc.at == s.era ==> pc.seen == s.top))
    && (pc.PushLinked? ==> pc.index < |s.links| && s.links[pc.index] == pc.seen.index)
    && (pc.PopLinked? ==>
          && pc.seen.index < |s.links|
          && (pc.at == s.era ==> pc.next == s.links[pc.seen.index]))
  }

  ghost predicate LocOk(s: State) {
    && |s.loc| == |s.links| < EMPTY
    && (forall i :: 0 <= i < |s.loc| ==> (s.loc[i] == InStack <==> i in s.stack))
    && (forall i, t :: 0 <= i < |s.loc| && 0 <= t < |s.pcs| ==>
          (s.loc[i] == Thread(t) <==> Holds(s.pcs[t], i)))
    && (forall t :: 0 <= t < |s.pcs| ==> PcInRange(s.pcs[t], |s.links|))
  }

  ghost predicate StackOk(s: State) {
    && s.top == Top(s.era % TWO32, Head(s.stack))
    && Chained(s.links, s.stack)
    && Distinct(s.stack)
  }

  ghost predicate Inv(s: State) {
    && StackOk(s) && LocOk(s)
    && forall t :: 0 <= t < |s.pcs| ==> PcOk(s, s.pcs[t])
  }

  /** A swap that succeeds recently enough acts on an unchanged stack. */
  lemma SwapSeesCurrentHead(s: State, pc: Pc)
    requires StackOk(s) && PcOk(s, pc) && HasOld(pc) && s.top == pc.seen && s.era - pc.at < TWO32
    ensures pc.at == s.era
  {
    assert s.era % TWO32 == pc.at % TWO32;
    var d := s.era - pc.at;
    assert d % TWO32 == 0;
  }

  /** A swap succeeds only on the head that was seen, both halves of it. */
  lemma SwapMatches(s: State, step: Step)
    requires Inv(s) && CanStep(s, step) && (step.PushCas? || step.PopCas?)
    ensures s.top == s.pcs[step.t].seen
  {
    var pc := s.pcs[step.t];
    assert PcOk(s, pc);
    HeadInRange(s);
    PackInjective(s.top, pc.seen);
  }

  lemma PushChains(links: seq<nat>, stack: seq<nat>, index: nat)
    requires Chained(links, stack) && index < |links| && links[index] == Head(stack)
    ensures Chained(links, [index] + stack)
  {
    var stack' := [index] + stack;
    forall i | 0 <= i < |stack'| ensures stack'[i] < |links| && links[stack'[i]] == Head(stack'[i + 1..]) {
      if i > 0 {
        assert stack'[i + 1..] == stack[i..];
        assert stack[i - 1 + 1..] == stack[i..];
      } else {
        assert stack'[1..] == stack;
      }
    }
  }

  lemma PopChains(links: seq<nat>, stack: seq<nat>)
    requires Chained(links, stack) && stack != []
    ensures Chained(links, stack[1..]) && links[stack[0]] == Head(stack[1..])
  {
    var stack' := stack[1..];
    forall i | 0 <= i < |stack'| ensures stack'[i] < |links| && links[stack'[i]] == Head(stack'[i + 1..]) {
      assert stack'[i + 1..] == stack[i + 2..];
      assert links[stack[i + 1]] == Head(stack[i + 1 + 1..]);
    }
  }

  lemma RelinkOffStack(links: seq<nat>, stack: seq<nat>, index: nat, v: nat)
    requires Chained(links, stack) && index < |links| && index !in stack
    ensures Chained(links[index := v], stack)
  {
  }

  /** A push is safe at any age: its link is the head it was compared with. */
  lemma PushCasOk(s: State, t: nat)
    requires Inv(s) && Sized(s) && CanStep(s, PushCas(t))
    ensures Inv(Take(s, PushCas(t)))
    ensures Take(s, PushCas(t)).stack == [s.pcs[t].index] + s.stack
  {
    hide Chained, Pack, LocOk, PcOk;
    var pc := s.pcs[t];
    var s' := Take(s, PushCas(t));
    SwapMatches(s, PushCas(t));
    assert PcOk(s, pc);
    LinkedIsHead(s, pc);
    PushLoc(s, t);
    PushChains(s.links, s.stack, pc.index);
    forall u | 0 <= u < |s'.pcs| ensures PcOk(s', s'.pcs[u]) {
      assert PcOk(s, s.pcs[u]);
      OlderLoad(s, s', s.pcs[u], s'.pcs[u]);
    }
  }

  lemma LinkedIsHead(s: State, pc: Pc)
    requires StackOk(s) && PcOk(s, pc) && pc.PushLinked? && s.top == pc.seen
    ensures pc.index < |s.links| && s.links[pc.index] == Head(s.stack)
  {
  }

  /** After somebody's swap, a thread's load is the same as before, and no longer the newest. */
  lemma OlderLoad(s: State, s': State, pc: Pc, pc': Pc)
    requires PcOk(s, pc) && s'.era == s.era + 1 && s'.links == s.links
    requires pc' == pc || pc'.PushCounting? || pc'.PopCounting?
    ensures PcOk(s', pc')
  {
  }

  lemma PushLoc(s: State, t: nat)
    requires LocOk(s) && Sized(s) && CanStep(s, PushCas(t))
    ensures LocOk(Take(s, PushCas(t))) && s.pcs[t].index !in s.stack
  {
    hide Pack;
    var pc := s.pcs[t];
    var s' := Take(s, PushCas(t));
    assert Holds(pc, pc.index) && s.loc[pc.index] == Thread(t);
    forall i | 0 <= i < |s'.loc| ensures s'.loc[i] == InStack <==> i in s'.stack {
      assert i in s'.stack <==> i == pc.index || i in s.stack;
    }
  }

  lemma PopCasOk(s: State, t: nat)
    requires Inv(s) && Sized(s) && CanStep(s, PopCas(t)) && LinkCurrent(s, PopCas(t))
    ensures Inv(Take(s, PopCas(t)))
    ensures s.stack != [] && s.pcs[t].seen.index == s.stack[0]
    ensures s.stack == [s.pcs[t].seen.index] + Take(s, PopCas(t)).stack
  {
    hide Chained, Pack, LocOk, PcOk;
    var pc := s.pcs[t];
    var s' := Take(s, PopCas(t));
    SwapMatches(s, PopCas(t));
    LocFits(s);
    PopChains(s.links, s.stack);
    PopLoc(s, t);
    forall u | 0 <= u < |s'.pcs| ensures PcOk(s', s'.pcs[u]) {
      assert PcOk(s, s.pcs[u]);
      OlderLoad(s, s', s.pcs[u], s'.pcs[u]);
    }
  }

  lemma PopLoc(s: State, t: nat)
    requires LocOk(s) && Sized(s) && CanStep(s, PopCas(t)) && Distinct(s.stack)
    requires s.stack != [] && s.stack[0] == s.pcs[t].seen.index
    ensures LocOk(Take(s, PopCas(t)))
  {
    hide Pack;
    var s' := Take(s, PopCas(t));
    assert s.loc[s.stack[0]] == InStack;
    forall i | 0 <= i < |s'.loc| ensures s'.loc[i] == InStack <==> i in s'.stack {
      RestOf(s.stack, i);
    }
  }

  lemma RestOf(stack: seq<nat>, i: nat)
    requires Distinct(stack) && stack != []
    ensures i in stack[1..] <==> i in stack && i != stack[0]
  {
  }

  /** A pop leaves the head of the rest of the stack, and the invariant, exactly when its link is current. */
  lemma PopCasExact(s: State, t: nat)
    requires Inv(s) && Sized(s) && CanStep(s, PopCas(t))
    ensures Inv(Take(s, PopCas(t))) <==> LinkCurrent(s, PopCas(t))
    ensures Take(s, PopCas(t)).top.index == Head(Take(s, PopCas(t)).stack) <==> LinkCurrent(s, PopCas(t))
  {
    hide Chained, Pack, LocOk, Distinct;
    SwapMatches(s, PopCas(t));
    assert PcOk(s, s.pcs[t]);
    HeadInRange(s);
    LocFits(s);
    PopChains(s.links, s.stack);
    if LinkCurrent(s, PopCas(t)) {
      PopCasOk(s, t);
    }
  }

  lemma LocFits(s: State)
    requires LocOk(s)
    ensures |s.links| < EMPTY
  {
  }

  /** A recent pop's link is current: the generation counter rules out any change of the stack. */
  lemma RecentIsCurrent(s: State, step: Step)
    requires Inv(s) && CanStep(s, step) && Recent(s, step)
    ensures LinkCurrent(s, step)
  {
    hide Chained, Pack, LocOk, Distinct;
    if step.PopCas? {
      assert PcOk(s, s.pcs[step.t]);
      SwapMatches(s, step);
      SwapSeesCurrentHead(s, s.pcs[step.t]);
    }
  }

  lemma WriteLinkOk(s: State, t: nat)
    requires Inv(s) && Sized(s) && CanStep(s, WriteLink(t))
    ensures Inv(Take(s, WriteLink(t)))
  {
    hide Chained;
    var pc := s.pcs[t];
    var s' := Take(s, WriteLink(t));
    assert Holds(pc, pc.index) && s.loc[pc.index] == Thread(t);
    RelinkOffStack(s.links, s.stack, pc.index, pc.seen.index);
    forall u | 0 <= u < |s'.pcs| ensures PcOk(s', s'.pcs[u]) {
      assert PcOk(s, s.pcs[u]);
      var pu := s.pcs[u];
      assert Holds(pu, pc.index) ==> s.loc[pc.index] == Thread(u);
      if u != t && pu.PopLinked? && pu.at == s.era {
        assert s.stack != [] && s.stack[0] == pu.seen.index;
        assert pu.seen.index in s.stack;
      }
    }
  }

  /** Moving one index between its thread's hands and the caller's. */
  lemma LocMoves(s: State, t: nat, pc: Pc, i: nat, loc: Loc)
    requires LocOk(s) && t < |s.pcs| && i < |s.loc| && PcInRange(pc, |s.links|)
    requires (s.loc[i] == Client && loc == Thread(t)) || (s.loc[i] == Thread(t) && loc == Client)
    requires Holds(pc, i) <==> loc == Thread(t)
    requires forall k :: k != i ==> (Holds(pc, k) <==> Holds(s.pcs[t], k))
    ensures LocOk(Go(s, t, pc).(loc := s.loc[i := loc]))
  {
  }

  lemma LocStays(s: State, t: nat, pc: Pc)
    requires LocOk(s) && t < |s.pcs| && PcInRange(pc, |s.links|)
    requires forall k :: Holds(pc, k) <==> Holds(s.pcs[t], k)
    ensures LocOk(Go(s, t, pc))
  {
  }

  lemma LocSame(s: State, s': State)
    requires LocOk(s) && s'.loc == s.loc && s'.pcs == s.pcs && s'.stack == s.stack && |s'.links| == |s.links|
    ensures LocOk(s')
  {
  }

  /** Steps that neither swap the head nor write a link. */
  lemma OtherStepOk(s: State, step: Step)
    requires Inv(s) && Sized(s) && CanStep(s, step)
    requires !step.PushCas? && !step.PopCas? && !step.WriteLink?
    ensures Inv(Take(s, step)) && Take(s, step).stack == s.stack
  {
    hide Chained, Distinct, LocOk;
    var s' := Take(s, step);
    var t := step.t;
    HeadInRange(s);
    forall u | 0 <= u < |s'.pcs| ensures PcOk(s', s'.pcs[u]) {
      assert PcOk(s, s.pcs[u]);
    }
    var pc := s.pcs[t];
    if step.LoadForPush? {
      NoHolder(s, t);
      LocMoves(s, t, s'.pcs[t], step.index, Thread(t));
    } else if step.CountAcquire? {
      HolderLoc(s, t);
      LocMoves(s, t, s'.pcs[t], pc.index, Client);
      LocSame(Go(s, t, s'.pcs[t]).(loc := s.loc[pc.index := Client]), s');
    } else {
      LocStays(s, t, s'.pcs[t]);
      LocSame(Go(s, t, s'.pcs[t]), s');
    }
  }

  lemma NoHolder(s: State, t: nat)
    requires LocOk(s) && t < |s.pcs| && s.pcs[t].Idle?
    ensures forall k :: !Holds(s.pcs[t], k)
  {
  }

  lemma HolderLoc(s: State, t: nat)
    requires LocOk(s) && t < |s.pcs| && s.pcs[t].AcquireCounting?
    ensures s.pcs[t].index < |s.loc| && s.loc[s.pcs[t].index] == Thread(t)
  {
    assert Holds(s.pcs[t], s.pcs[t].index);
  }

  /** Every step keeps the invariant; a swap is an abstract push or pop, nothing else touches the stack. */
  lemma StepRefines(s: State, step: Step)
    requires Inv(s) && Sized(s) && CanStep(s, step) && LinkCurrent(s, step)
    ensures var s' := Take(s, step);
            && Inv(s')
            && (step.PushCas? ==> s'.stack == [s.pcs[step.t].index] + s.stack)
            && (step.PopCas? ==> s.stack == [s.pcs[step.t].seen.index] + s'.stack)
            && (!step.PushCas? && !step.PopCas? ==> s'.stack == s.stack)
            && ((step.LoadForPop? || step.PopCasFails?) && s.top.index == EMPTY ==> s.stack == [])
  {
    hide Chained, Distinct, LocOk, PcOk, Pack, LinkCurrent;
    match step
    case PushCas(t) => PushCasOk(s, t);
    case PopCas(t) => PopCasOk(s, t);
    case WriteLink(t) => WriteLinkOk(s, t);
    case _ =>
      OtherStepOk(s, step);
      HeadInRange(s);
  }

  lemma HeadInRange(s: State)
    requires Inv(s)
    ensures s.stack != [] ==> s.stack[0] < |s.links| < EMPTY
  {
  }

  // ------------------------------------------------------------------------ counters

  /** The program points that stand between a swap and a counter. */
  datatype Kind = Adding | Subtracting | Releasing | Acquiring | Exhausting

  predicate IsKind(pc: Pc, kind: Kind) {
    match kind
    case Adding => pc.PushCounting?
    case Subtracting => pc.PopCounting?
    case Releasing => pc.PushCounting? || pc.ReleaseCounting?
    case Acquiring => pc.PopCounting? || pc.AcquireCounting?
    case Exhausting => pc.ExhaustCounting?
  }

  function One(b: bool): nat { if b then 1 else 0 }

  /** How many threads are at such a point. */
  function Tally(pcs: seq<Pc>, kind: Kind): nat {
    if pcs == [] then 0
    else Tally(pcs[..|pcs| - 1], kind) + One(IsKind(pcs[|pcs| - 1], kind))
  }

  lemma {:induction false} TallyUpdate(pcs: seq<Pc>, t: nat, pc: Pc, kind: Kind)
    requires t < |pcs|
    ensures Tally(pcs[t := pc], kind) == Tally(pcs, kind) - One(IsKind(pcs[t], kind)) + One(IsKind(pc, kind))
  {
    var n := |pcs| - 1;
    if t < n {
      TallyUpdate(pcs[..n], t, pc, kind);
      assert pcs[t := pc][..n] == pcs[..n][t := pc];
    } else {
      assert pcs[t := pc][..n] == pcs[..n];
    }
  }

  lemma {:induction false} QuietTally(pcs: seq<Pc>, kind: Kind)
    requires forall t :: 0 <= t < |pcs| ==> pcs[t].Idle?
    ensures Tally(pcs, kind) == 0
  {
    if pcs != [] {
      QuietTally(pcs[..|pcs| - 1], kind);
    }
  }

  /**
   `size_` is the stack length, less pushes yet to add, plus pops yet to subtract,
   modulo 2^32; and no buffer is lost between the totals.
   */
  ghost predicate CountersOk(s: State) {
    && s.size == (|s.stack| - Tally(s.pcs, Adding) + Tally(s.pcs, Subtracting)) % TWO32
    && |s.stack| + s.acquires + Tally(s.pcs, Acquiring)
       == |s.links| + s.releases + Tally(s.pcs, Releasing)
  }

  lemma CountModulo(x: int)
    ensures (x % TWO32 + 1) % TWO32 == (x + 1) % TWO32
    ensures (x % TWO32 - 1) % TWO32 == (x - 1) % TWO32
  {
  }

  /** A pop's swap never succeeds on an empty stack. */
  lemma PopFindsStack(s: State, t: nat)
    requires Inv(s) && CanStep(s, PopCas(t))
    ensures s.stack != []
  {
    hide LocOk, Chained, Distinct, Pack;
    assert PcOk(s, s.pcs[t]);
    SwapMatches(s, PopCas(t));
    LocFits(s);
  }

  lemma StepCounts(s: State, step: Step)
    requires Inv(s) && Sized(s) && CanStep(s, step) && CountersOk(s)
    ensures CountersOk(Take(s, step))
  {
    hide Inv, Tally, Pack;
    if step.PopCas? {
      PopFindsStack(s, step.t);
    }
    var t := step.t;
    var s' := Take(s, step);
    assert s'.pcs == s.pcs[t := s'.pcs[t]];
    CountModulo(|s.stack| - Tally(s.pcs, Adding) + Tally(s.pcs, Subtracting));
    TallyUpdate(s.pcs, t, s'.pcs[t], Adding);
    TallyUpdate(s.pcs, t, s'.pcs[t], Subtracting);
    TallyUpdate(s.pcs, t, s'.pcs[t], Releasing);
    TallyUpdate(s.pcs, t, s'.pcs[t], Acquiring);
  }

  /**
   What ties `size_` to the totals whatever becomes of the stack: it is capacity less
   acquires plus releases, but for the threads between their swap and their counters.
   */
  ghost predicate TotalsOk(s: State) {
    s.size == (|s.links| - s.acquires + s.releases + Underway(s.pcs)) % TWO32
  }

  function Underway(pcs: seq<Pc>): int {
    Tally(pcs, Releasing) - Tally(pcs, Acquiring) - Tally(pcs, Adding) + Tally(pcs, Subtracting)
  }

  /** Only a thread between `size_` and its total counts: the swaps themselves cancel out. */
  lemma UnderwayMoves(pcs: seq<Pc>, t: nat, pc: Pc)
    requires t < |pcs|
    ensures Underway(pcs[t := pc]) - Underway(pcs)
         == One(pc.ReleaseCounting?) - One(pcs[t].ReleaseCounting?)
            - One(pc.AcquireCounting?) + One(pcs[t].AcquireCounting?)
  {
    hide Tally;
    TallyUpdate(pcs, t, pc, Adding);
    TallyUpdate(pcs, t, pc, Subtracting);
    TallyUpdate(pcs, t, pc, Releasing);
    TallyUpdate(pcs, t, pc, Acquiring);
  }

  lemma NothingUnderway(pcs: seq<Pc>)
    requires forall t :: 0 <= t < |pcs| ==> pcs[t].Idle?
    ensures Underway(pcs) == 0
  {
    QuietTally(pcs, Adding);
    QuietTally(pcs, Subtracting);
    QuietTally(pcs, Acquiring);
    QuietTally(pcs, Releasing);
  }

  lemma StepKeepsTotals(s: State, step: Step)
    requires Sized(s) && CanStep(s, step) && TotalsOk(s)
    ensures TotalsOk(Take(s, step)) && |Take(s, step).links| == |s.links|
  {
    hide Underway, Pack;
    var t := step.t;
    var s' := Take(s, step);
    assert s'.pcs == s.pcs[t := s'.pcs[t]];
    CountModulo(|s.links| - s.acquires + s.releases + Underway(s.pcs));
    UnderwayMoves(s.pcs, t, s'.pcs[t]);
  }

  // ---------------------------------------------------------------------------- runs

  /** The free list over buffers 0 to n - 1, pushed in that order. */
  ghost predicate Filled(links: seq<nat>, top: Top, size: nat, n: nat) {
    && |links| == n && size == n && top == Top(n, if n == 0 then EMPTY else n - 1)
    && forall i :: 0 <= i < n ==> links[i] == if i == 0 then EMPTY else i - 1
  }

  /** The constructor's fill loop; it throws when there is nothing to fill. */
  method Construct(bufferSize: nat, count: nat)
    returns (ok: bool, links: array<nat>, top: Top, size: nat)
    requires count < EMPTY
    ensures ok <==> bufferSize != 0 && count != 0
    ensures ok ==> Filled(links[..], top, size, count)
  {
    ok, top, size := bufferSize != 0 && count != 0, Top(0, EMPTY), 0;
    links := new nat[count];
    if ok {
      for i := 0 to count
        invariant Filled(links[..i], top, size, i)
      {
        links[i] := top.index;
        top := Bump(top, i);
        size := (size + 1) % TWO32;
        assert forall k :: 0 <= k < i ==> links[..i + 1][k] == links[..i][k];
      }
      assert links[..count] == links[..];
    }
  }

  /** The state the constructor leaves, seen by threads that have not started. */
  ghost predicate Initial(s: State) {
    && 0 < |s.links| < EMPTY && |s.loc| == |s.links|
    && Filled(s.links, s.top, s.size, |s.links|)
    && s.stack == seq(|s.links|, i => |s.links| - 1 - i)
    && (forall i :: 0 <= i < |s.links| ==> s.loc[i] == InStack)
    && s.era == |s.links| && s.acquires == 0 && s.releases == 0 && s.exhausted == 0
    && (forall t :: 0 <= t < |s.pcs| ==> s.pcs[t].Idle?)
  }

  lemma InitialChain(s: State)
    requires Initial(s)
    ensures Chained(s.links, s.stack)
  {
    var n := |s.links|;
    forall i | 0 <= i < n ensures s.stack[i] < n && s.links[s.stack[i]] == Head(s.stack[i + 1..]) {
      assert i < n - 1 ==> s.stack[i + 1..][0] == s.stack[i + 1];
    }
  }

  lemma InitialOk(s: State)
    requires Initial(s)
    ensures Inv(s) && CountersOk(s)
  {
    hide Chained;
    var n := |s.links|;
    forall i | 0 <= i < n ensures i in s.stack {
      assert s.stack[n - 1 - i] == i;
    }
    InitialChain(s);
    QuietTally(s.pcs, Adding);
    QuietTally(s.pcs, Subtracting);
    QuietTally(s.pcs, Acquiring);
    QuietTally(s.pcs, Releasing);
  }

  /** Every interleaving the code allows, from a new pool. */
  ghost predicate IsExecution(states: seq<State>, steps: seq<Step>) {
    && |states| == |steps| + 1 && Initial(states[0])
    && forall i :: 0 <= i < |steps| ==> Next(states[i], steps[i], states[i + 1])
  }

  ghost predicate Next(s: State, step: Step, s': State) {
    Sized(s) && CanStep(s, step) && s' == Take(s, step)
  }

  /** Every pop swaps in a current link. */
  ghost predicate LinksCurrent(states: seq<State>, steps: seq<Step>)
    requires IsExecution(states, steps)
  {
    forall i :: 0 <= i < |steps| ==> Next(states[i], steps[i], states[i + 1]) && LinkCurrent(states[i], steps[i])
  }

  ghost predicate IsRun(states: seq<State>, steps: seq<Step>) {
    IsExecution(states, steps) && LinksCurrent(states, steps)
  }

  lemma {:induction false} RunInv(states: seq<State>, steps: seq<Step>, i: nat)
    requires IsRun(states, steps) && i < |states|
    ensures Inv(states[i]) && CountersOk(states[i])
    ensures |states[i].links| == |states[0].links|
  {
    hide Inv, CountersOk, Initial, LinkCurrent, Pack;
    if i == 0 {
      InitialOk(states[0]);
    } else {
      RunInv(states, steps, i - 1);
      assert Next(states[i - 1], steps[i - 1], states[i]) && LinkCurrent(states[i - 1], steps[i - 1]);
      StepRefines(states[i - 1], steps[i - 1]);
      StepCounts(states[i - 1], steps[i - 1]);
    }
  }

  /** The exact condition, over whole executions: the stack stays right if and only if no pop swaps in an old link. */
  lemma SafeIffLinksCurrent(states: seq<State>, steps: seq<Step>)
    requires IsExecution(states, steps)
    ensures (forall i :: 0 <= i < |states| ==> Inv(states[i])) <==> LinksCurrent(states, steps)
  {
    hide Inv, LinkCurrent, Initial, Take, CanStep, Sized;
    if LinksCurrent(states, steps) {
      forall i | 0 <= i < |states| ensures Inv(states[i]) {
        RunInv(states, steps, i);
      }
    }
    if forall i :: 0 <= i < |states| ==> Inv(states[i]) {
      forall i | 0 <= i < |steps|
        ensures Next(states[i], steps[i], states[i + 1]) && LinkCurrent(states[i], steps[i])
      {
        assert Next(states[i], steps[i], states[i + 1]);
        KeptMeansCurrent(states[i], steps[i]);
      }
    }
  }

  lemma KeptMeansCurrent(s: State, step: Step)
    requires Inv(s) && Sized(s) && CanStep(s, step) && Inv(Take(s, step))
    ensures LinkCurrent(s, step)
  {
    hide Inv, Pack;
    if step.PopCas? {
      PopCasExact(s, step.t);
    }
  }

  /** Executions in which every successful pop is younger than 2^32 swaps are safe. */
  lemma {:induction false} RecentIsSafe(states: seq<State>, steps: seq<Step>, n: nat)
    requires IsExecution(states, steps) && n <= |steps|
    requires forall i :: 0 <= i < |steps| ==>
               Next(states[i], steps[i], states[i + 1]) && Recent(states[i], steps[i])
    ensures IsRun(states[..n + 1], steps[..n])
    ensures n == |steps| ==> IsRun(states, steps)
  {
    hide Inv, LinkCurrent, Initial, Take, CanStep, Sized, Recent;
    if n > 0 {
      RecentIsSafe(states, steps, n - 1);
      RunInv(states[..n], steps[..n - 1], n - 1);
      assert states[..n][n - 1] == states[n - 1];
      assert Next(states[n - 1], steps[n - 1], states[n]);
      RecentIsCurrent(states[n - 1], steps[n - 1]);
      forall i | 0 <= i < n
        ensures Next(states[i], steps[i], states[i + 1]) && LinkCurrent(states[i], steps[i])
      {
        if i < n - 1 {
          assert Next(states[..n][i], steps[..n - 1][i], states[..n][i + 1])
              && LinkCurrent(states[..n][i], steps[..n - 1][i]);
        }
      }
    }
    assert n == |steps| ==> states[..n + 1] == states && steps[..n] == steps;
  }

  /** Each index has one owner: free, with a caller, or with one thread in mid-operation. */
  lemma NoDoubleOwnership(states: seq<State>, steps: seq<Step>, i: nat, k: nat)
    requires IsRun(states, steps) && i < |states|
    ensures Distinct(states[i].stack)
    ensures k < |states[i].loc| && states[i].loc[k] == Client ==>
              k !in states[i].stack && forall t :: 0 <= t < |states[i].pcs| ==> !Holds(states[i].pcs[t], k)
    ensures forall t :: 0 <= t < |states[i].pcs| && Holds(states[i].pcs[t], k) ==>
              && k < |states[i].loc| && k !in states[i].stack && states[i].loc[k] != Client
              && forall u :: 0 <= u < |states[i].pcs| && Holds(states[i].pcs[u], k) ==> u == t
  {
    hide IsRun, Chained;
    RunInv(states, steps, i);
    var s := states[i];
    forall t | 0 <= t < |s.pcs| && Holds(s.pcs[t], k) ensures k < |s.loc| && s.loc[k] == Thread(t) {
    }
  }

  lemma {:induction false} ExecutionTotals(states: seq<State>, steps: seq<Step>, i: nat)
    requires IsExecution(states, steps) && i < |states|
    ensures TotalsOk(states[i]) && |states[i].links| == |states[0].links|
  {
    hide TotalsOk, Take, CanStep, Sized, Inv;
    if i == 0 {
      InitialTotals(states[0]);
    } else {
      ExecutionTotals(states, steps, i - 1);
      assert Next(states[i - 1], steps[i - 1], states[i]);
      StepKeepsTotals(states[i - 1], steps[i - 1]);
    }
  }

  lemma InitialTotals(s: State)
    requires Initial(s)
    ensures TotalsOk(s)
  {
    NothingUnderway(s.pcs);
  }

  /** In every execution, safe or not: with every thread idle, `free_count` is what the totals say, modulo 2^32. */
  lemma QuiescentTotals(states: seq<State>, steps: seq<Step>, i: nat)
    requires IsExecution(states, steps) && i < |states|
    requires forall t :: 0 <= t < |states[i].pcs| ==> states[i].pcs[t].Idle?
    ensures states[i].size == (|states[0].links| - states[i].acquires + states[i].releases) % TWO32
  {
    hide IsExecution;
    ExecutionTotals(states, steps, i);
    NothingUnderway(states[i].pcs);
  }

  /** With every thread idle, `free_count` is capacity - acquires + releases, and is the stack's length. */
  lemma QuiescentFreeCount(states: seq<State>, steps: seq<Step>, i: nat)
    requires IsRun(states, steps) && i < |states|
    requires forall t :: 0 <= t < |states[i].pcs| ==> states[i].pcs[t].Idle?
    ensures var s := states[i];
            s.size == |s.stack| == |states[0].links| - s.acquires + s.releases
  {
    hide IsRun;
    RunInv(states, steps, i);
    var s := states[i];
    QuietTally(s.pcs, Adding);
    QuietTally(s.pcs, Subtracting);
    QuietTally(s.pcs, Acquiring);
    QuietTally(s.pcs, Releasing);
    StackFits(s.stack, |s.links|);
  }

  /** Distinct indices below n are at most n. */
  lemma {:induction false} StackFits(stack: seq<nat>, n: nat)
    requires Distinct(stack) && forall i :: 0 <= i < |stack| ==> stack[i] < n
    ensures |stack| <= n
    decreases n
  {
    if stack != [] {
      assert stack[0] < n;
      if n - 1 in stack {
        var j :| 0 <= j < |stack| && stack[j] == n - 1;
        StackFits(stack[..j] + stack[j + 1..], n - 1);
      } else {
        StackFits(stack, n - 1);
      }
    }
  }

  // ------------------------------------------------------------------- empty answers

  /** Thread `t` loads the head: at the start of an acquire, or after a failed swap. */
  predicate LoadsForPop(step: Step, t: nat) {
    step == LoadForPop(t) || step == PopCasFails(t)
  }

  /**
   When `pop` answers "empty". In every execution that keeps the stack right, a thread
   past its load has a last load, nothing of its own in between, and goes on to answer
   "empty" if the stack was empty at that load, and to read a link if it was not.
   */
  lemma {:induction false} EmptyAnswerIff(states: seq<State>, steps: seq<Step>, i: nat, t: nat) returns (j: nat)
    requires IsRun(states, steps) && i < |states| && t < |states[i].pcs| && states[i].pcs[t].PopLoaded?
    ensures j < i && LoadsForPop(steps[j], t) && forall k :: j < k < i ==> steps[k].t != t
    ensures states[i].pcs[t].seen == states[j].top
    ensures CanStep(states[i], PopSeesEmpty(t)) <==> states[j].stack == []
    ensures CanStep(states[i], ReadLink(t)) <==> states[j].stack != []
  {
    hide Inv, LinkCurrent, Initial, Take, CanStep, Sized;
    j := LastLoad(states, steps, i, t);
    SameLinks(states, steps, j, i);
    RunInv(states, steps, j);
    HeadTells(states[j]);
    AnswerBySeen(states[i], t);
  }

  lemma {:induction false} LastLoad(states: seq<State>, steps: seq<Step>, i: nat, t: nat) returns (j: nat)
    requires IsExecution(states, steps) && i < |states| && t < |states[i].pcs| && states[i].pcs[t].PopLoaded?
    ensures j < i && LoadsForPop(steps[j], t) && forall k :: j < k < i ==> steps[k].t != t
    ensures states[i].pcs[t].seen == states[j].top
  {
    hide Initial, Take, CanStep, Sized;
    if i == 0 {
      NobodyStarted(states[0]);
      assert false;
    } else {
      assert Next(states[i - 1], steps[i - 1], states[i]);
      LoadedBy(states[i - 1], steps[i - 1], t);
      if LoadsForPop(steps[i - 1], t) {
        j := i - 1;
      } else {
        j := LastLoad(states, steps, i - 1, t);
      }
    }
  }

  /** A thread past its load has just loaded, or it is another thread's step. */
  lemma LoadedBy(s: State, step: Step, t: nat)
    requires Sized(s) && CanStep(s, step) && t < |Take(s, step).pcs| && Take(s, step).pcs[t].PopLoaded?
    ensures |Take(s, step).pcs| == |s.pcs|
    ensures if LoadsForPop(step, t) then Take(s, step).pcs[t].seen == s.top
            else step.t != t && Take(s, step).pcs[t] == s.pcs[t]
  {
    hide Pack, Bump;
  }

  lemma AnswerBySeen(s: State, t: nat)
    requires t < |s.pcs| && s.pcs[t].PopLoaded?
    ensures CanStep(s, PopSeesEmpty(t)) <==> s.pcs[t].seen.index == EMPTY
    ensures CanStep(s, ReadLink(t)) <==> s.pcs[t].seen.index != EMPTY && s.pcs[t].seen.index < |s.links|
  {
  }

  lemma NobodyStarted(s: State)
    requires Initial(s)
    ensures forall t :: 0 <= t < |s.pcs| ==> s.pcs[t].Idle?
  {
  }

  lemma HeadTells(s: State)
    requires Inv(s)
    ensures s.top.index == EMPTY <==> s.stack == []
    ensures s.stack != [] ==> s.top.index < |s.links|
  {
    HeadInRange(s);
  }

  lemma SameLinks(states: seq<State>, steps: seq<Step>, i: nat, j: nat)
    requires IsRun(states, steps) && i < |states| && j < |states|
    ensures |states[i].links| == |states[j].links|
  {
    hide IsRun, Inv;
    RunInv(states, steps, i);
    RunInv(states, steps, j);
  }

  /** How many of the first `n` steps answer "empty". */
  function EmptyAnswers(steps: seq<Step>, n: nat): nat
    requires n <= |steps|
  {
    if n == 0 then 0 else EmptyAnswers(steps, n - 1) + One(steps[n - 1].PopSeesEmpty?)
  }

  /** `total_exhausted_` counts them all, each once its thread has come to it. */
  lemma {:induction false} ExhaustedCounts(states: seq<State>, steps: seq<Step>, i: nat)
    requires IsExecution(states, steps) && i < |states|
    ensures states[i].exhausted + Tally(states[i].pcs, Exhausting) == EmptyAnswers(steps, i)
  {
    hide Tally, Initial, Take, CanStep, Sized;
    if i == 0 {
      NobodyStarted(states[0]);
      QuietTally(states[0].pcs, Exhausting);
      NothingCounted(states[0]);
    } else {
      ExhaustedCounts(states, steps, i - 1);
      assert Next(states[i - 1], steps[i - 1], states[i]);
      ExhaustedStep(states[i - 1], steps[i - 1]);
    }
  }

  lemma ExhaustedStep(s: State, step: Step)
    requires Sized(s) && CanStep(s, step)
    ensures var s' := Take(s, step);
            s'.exhausted + Tally(s'.pcs, Exhausting) - One(step.PopSeesEmpty?) ==
              s.exhausted + Tally(s.pcs, Exhausting)
  {
    hide Tally, Pack, Bump;
    var s' := Take(s, step);
    assert s'.pcs == s.pcs[step.t := s'.pcs[step.t]];
    TallyUpdate(s.pcs, step.t, s'.pcs[step.t], Exhausting);
  }

  lemma NothingCounted(s: State)
    requires Initial(s)
    ensures s.exhausted == 0
  {
  }

  // ------------------------------------------------------------------------- progress

  /**
   No thread ever waits for another: each point has its next step. A swap is held off
   only by another that has succeeded since the load; one that nobody overtook goes
   through, and a pop then swaps in a current link.
   */
  lemma AlwaysHasStep(s: State, t: nat)
    requires Inv(s) && Sized(s) && t < |s.pcs|
    ensures match s.pcs[t]
            case Idle => CanStep(s, LoadForPop(t))
            case PushLoaded(_, _, _) => CanStep(s, WriteLink(t))
            case PushLinked(_, _, at) => CanStep(s, PushCasFails(t)) && (at == s.era ==> CanStep(s, PushCas(t)))
            case PushCounting => CanStep(s, AddSize(t))
            case ReleaseCounting => CanStep(s, CountRelease(t))
            case PopLoaded(_, _) => CanStep(s, PopSeesEmpty(t)) != CanStep(s, ReadLink(t))
            case PopLinked(_, _, at) =>
              && CanStep(s, PopCasFails(t))
              && (at == s.era ==> CanStep(s, PopCas(t)) && LinkCurrent(s, PopCas(t)))
            case PopCounting(_) => CanStep(s, SubSize(t))
            case AcquireCounting(_) => CanStep(s, CountAcquire(t))
            case ExhaustCounting => CanStep(s, CountExhausted(t))
  {
    hide Chained, Distinct, Pack;
    assert PcOk(s, s.pcs[t]);
    LocFits(s);
  }

  /** Every load, the reload after a failed swap included, sees the newest head; the index being pushed stays. */
  lemma LoadSeesHead(s: State, step: Step)
    requires Sized(s) && CanStep(s, step)
    requires step.LoadForPush? || step.LoadForPop? || step.PushCasFails? || step.PopCasFails?
    ensures var pc := Take(s, step).pcs[step.t];
            && HasOld(pc) && pc.seen == s.top && pc.at == s.era
            && (step.LoadForPush? ==> pc == PushLoaded(step.index, s.top, s.era))
            && (step.PushCasFails? ==> pc == PushLoaded(s.pcs[step.t].index, s.top, s.era))
            && (step.LoadForPop? || step.PopCasFails? ==> pc == PopLoaded(s.top, s.era))
  {
  }

  /** Steps of its own a thread still needs. */
  function StepsLeft(pc: Pc): nat {
    match pc
    case Idle => 0
    case ReleaseCounting => 1
    case AcquireCounting(_) => 1
    case ExhaustCounting => 1
    case PushCounting => 2
    case PopCounting(_) => 2
    case PushLinked(_, _, _) => 3
    case PopLinked(_, _, _) => 3
    case PushLoaded(_, _, _) => 4
    case PopLoaded(_, _) => 4
  }

  /** Every step but a failed swap brings its thread nearer the end of its call, and no thread moves another. */
  lemma StepsBringNearer(s: State, step: Step)
    requires Sized(s) && CanStep(s, step)
    ensures var s' := Take(s, step);
            && |s'.pcs| == |s.pcs|
            && (forall u :: 0 <= u < |s.pcs| && u != step.t ==> s'.pcs[u] == s.pcs[u])
            && (!s.pcs[step.t].Idle? && !step.PushCasFails? && !step.PopCasFails? ==>
                  StepsLeft(s'.pcs[step.t]) < StepsLeft(s.pcs[step.t]))
  {
    hide Pack, Bump;
  }

  /** The empty mark is the last 32-bit number, so no smaller pool can have it for an index. */
  lemma EmptyMark(index: nat)
    requires index < 0x1_0000_0000
    ensures index != EMPTY <==> index < 0xFFFF_FFFF
  {
  }

  // ------------------------------------------------------------- the bound is needed

  /** Running steps with no regard to how recent a load is. */
  ghost predicate ExecOk(s: State, steps: seq<Step>)
    decreases |steps|, 0
  {
    Sized(s) && (steps == [] ||
      var n := |steps| - 1;
      && ExecOk(s, steps[..n]) && Sized(Exec(s, steps[..n])) && CanStep(Exec(s, steps[..n]), steps[n]))
  }

  ghost function Exec(s: State, steps: seq<Step>): State
    requires ExecOk(s, steps)
    decreases |steps|
  {
    if steps == [] then s else
      var n := |steps| - 1;
      Take(Exec(s, steps[..n]), steps[n])
  }

  lemma Extend(s: State, steps: seq<Step>, step: Step)
    requires ExecOk(s, steps) && Sized(Exec(s, steps)) && CanStep(Exec(s, steps), step)
    ensures ExecOk(s, steps + [step]) && Exec(s, steps + [step]) == Take(Exec(s, steps), step)
  {
    assert (steps + [step])[..|steps|] == steps;
  }

  /** The states an execution goes through. */
  lemma {:induction false} Trace(s: State, steps: seq<Step>) returns (states: seq<State>)
    requires Initial(s) && ExecOk(s, steps)
    ensures IsExecution(states, steps) && states[0] == s && states[|steps|] == Exec(s, steps)
  {
    hide Initial, Take, CanStep, Sized;
    if steps == [] {
      states := [s];
    } else {
      var n := |steps| - 1;
      var before := Trace(s, steps[..n]);
      states := before + [Exec(s, steps)];
      forall i | 0 <= i < |steps| ensures Next(states[i], steps[i], states[i + 1]) {
        assert i < n ==> Next(before[i], steps[..n][i], before[i + 1]);
      }
    }
  }

  function Popped(s: State): State
    requires |s.loc| == |s.links| && s.top.index < |s.links|
  {
    s.(top := Bump(s.top, s.links[s.top.index]), era := s.era + 1, size := (s.size - 1) % TWO32,
       stack := if s.stack == [] then [] else s.stack[1..],
       acquires := s.acquires + 1, loc := s.loc[s.top.index := Client])
  }

  function Pushed(s: State, i: nat): State
    requires |s.loc| == |s.links| && i < |s.links|
  {
    s.(top := Bump(s.top, i), era := s.era + 1, size := (s.size + 1) % TWO32,
       links := s.links[i := s.top.index], stack := [i] + s.stack,
       releases := s.releases + 1, loc := s.loc[i := InStack])
  }

  /** An undisturbed acquire. */
  lemma PopAlone(s0: State, steps: seq<Step>, t: nat) returns (steps': seq<Step>)
    requires ExecOk(s0, steps) && Sized(Exec(s0, steps)) && t < |Exec(s0, steps).pcs|
    requires var s := Exec(s0, steps); s.pcs[t].Idle? && s.top.index < |s.links| && s.top.index != EMPTY
    ensures ExecOk(s0, steps') && Exec(s0, steps') == Popped(Exec(s0, steps)) && Sized(Exec(s0, steps'))
  {
    hide ExecOk, Exec, Bump, Pack;
    var s := Exec(s0, steps);
    Extend(s0, steps, LoadForPop(t));
    var a := steps + [LoadForPop(t)];
    Extend(s0, a, ReadLink(t));
    var b := a + [ReadLink(t)];
    Extend(s0, b, PopCas(t));
    var c := b + [PopCas(t)];
    Extend(s0, c, SubSize(t));
    var d := c + [SubSize(t)];
    Extend(s0, d, CountAcquire(t));
    steps' := d + [CountAcquire(t)];
    assert Exec(s0, steps').pcs == s.pcs;
    assert Exec(s0, steps').loc == Popped(s).loc;
  }

  /** An undisturbed release. */
  lemma PushAlone(s0: State, steps: seq<Step>, t: nat, i: nat) returns (steps': seq<Step>)
    requires ExecOk(s0, steps) && Sized(Exec(s0, steps)) && t < |Exec(s0, steps).pcs|
    requires var s := Exec(s0, steps); s.pcs[t].Idle? && i < |s.links| && s.loc[i] == Client
    ensures ExecOk(s0, steps') && Exec(s0, steps') == Pushed(Exec(s0, steps), i) && Sized(Exec(s0, steps'))
  {
    hide ExecOk, Exec, Bump, Pack;
    var s := Exec(s0, steps);
    Extend(s0, steps, LoadForPush(t, i));
    var a := steps + [LoadForPush(t, i)];
    Extend(s0, a, WriteLink(t));
    var b := a + [WriteLink(t)];
    Extend(s0, b, PushCas(t));
    var c := b + [PushCas(t)];
    Extend(s0, c, AddSize(t));
    var d := c + [AddSize(t)];
    Extend(s0, d, CountRelease(t));
    steps' := d + [CountRelease(t)];
    assert Exec(s0, steps').pcs == s.pcs;
    assert Exec(s0, steps').loc == Pushed(s, i).loc;
  }

  /** Three buffers, two threads, nothing started. */
  ghost function Start(): (s: State)
    ensures Initial(s)
  {
    State(Top(3, 2), [EMPTY, 0, 1], 3, 0, 0, 0, [Idle, Idle], [2, 1, 0], 3, [InStack, InStack, InStack])
  }

  /** Thread 0 sleeps before its swap while buffer 2 has gone round `k` times. */
  ghost function Asleep(k: nat): State {
    State(Top((7 + 2 * k) % TWO32, 2), [EMPTY, 0, EMPTY], 1, 3 + k, 1 + k, 0,
          [PopLinked(Top(3, 2), 1, 3), Idle], [2], 7 + 2 * k, [Client, Client, InStack])
  }

  /** The stack after thread 1's first `n` acquires. */
  ghost function Emptied(n: nat): State
    requires n <= 3
  {
    State(Top(3 + n, if n == 3 then EMPTY else 2 - n), [EMPTY, 0, 1], 3 - n, n, 0, 0,
          [PopLinked(Top(3, 2), 1, 3), Idle], [2, 1, 0][n..], 3 + n,
          [if n > 2 then Client else InStack, if n > 1 then Client else InStack,
           if n > 0 then Client else InStack])
  }

  lemma EmptiedSteps(n: nat)
    requires n < 3
    ensures Popped(Emptied(n)) == Emptied(n + 1)
  {
    var s, s' := Emptied(n), Popped(Emptied(n));
    assert s.links[s.top.index] == Emptied(n + 1).top.index;
    assert s'.stack == Emptied(n + 1).stack;
    assert s'.loc == Emptied(n + 1).loc;
  }

  lemma RefilledOnce()
    ensures Pushed(Emptied(3), 2) == Asleep(0)
  {
    var s := Pushed(Emptied(3), 2);
    assert s.links == [EMPTY, 0, EMPTY] && s.stack == [2] && s.loc == [Client, Client, InStack];
  }

  lemma RoundTrip(k: nat)
    ensures var s := Asleep(k); |s.pcs| == 2 && s.pcs[1].Idle? && s.top.index == 2
    ensures |Asleep(k).links| == 3 && |Asleep(k).loc| == 3
    ensures var p := Popped(Asleep(k));
            |p.loc| == 3 && p.loc[2] == Client && p.pcs == Asleep(k).pcs && |p.links| == 3
    ensures Pushed(Popped(Asleep(k)), 2) == Asleep(k + 1)
  {
    OutAlone(k);
    BackAgain(k);
  }

  /** Thread 0 sleeps while buffer 2 is out for the `k + 1`st time. */
  ghost function Away(k: nat): State {
    State(Top((8 + 2 * k) % TWO32, EMPTY), [EMPTY, 0, EMPTY], 0, 4 + k, 1 + k, 0,
          [PopLinked(Top(3, 2), 1, 3), Idle], [], 8 + 2 * k, [Client, Client, Client])
  }

  lemma OutAlone(k: nat)
    ensures Popped(Asleep(k)) == Away(k)
  {
    var p := Popped(Asleep(k));
    assert p.loc == [Client, Client, Client] && p.stack == [];
    NextGeneration(7 + 2 * k);
  }

  lemma BackAgain(k: nat)
    ensures Pushed(Away(k), 2) == Asleep(k + 1)
  {
    var q := Pushed(Away(k), 2);
    assert q.links == [EMPTY, 0, EMPTY] && q.stack == [2] && q.loc == [Client, Client, InStack];
    NextGeneration(8 + 2 * k);
  }

  lemma NextGeneration(n: nat)
    ensures (n % TWO32 + 1) % TWO32 == (n + 1) % TWO32
  {
  }

  lemma AsleepIsSized(k: nat)
    ensures Sized(Asleep(k))
  {
  }

  lemma Begin() returns (steps: seq<Step>)
    ensures ExecOk(Start(), steps) && Exec(Start(), steps) == Emptied(0)
  {
    var s0 := Start();
    assert ExecOk(s0, []) && Exec(s0, []) == s0;
    hide ExecOk, Exec, Pack;
    Extend(s0, [], LoadForPop(0));
    var a := [] + [LoadForPop(0)];
    Extend(s0, a, ReadLink(0));
    steps := a + [ReadLink(0)];
    assert Exec(s0, steps).stack == Emptied(0).stack;
  }

  lemma FallAsleep() returns (steps: seq<Step>)
    ensures ExecOk(Start(), steps) && Exec(Start(), steps) == Asleep(0)
  {
    hide ExecOk, Exec, Start, Popped, Pushed;
    steps := Begin();
    steps := PopAlone(Start(), steps, 1);
    EmptiedSteps(0);
    steps := PopAlone(Start(), steps, 1);
    EmptiedSteps(1);
    steps := PopAlone(Start(), steps, 1);
    EmptiedSteps(2);
    steps := PushAlone(Start(), steps, 1, 2);
    RefilledOnce();
  }

  lemma {:induction false} GoRound(k: nat) returns (steps: seq<Step>)
    ensures ExecOk(Start(), steps) && Exec(Start(), steps) == Asleep(k)
  {
    hide ExecOk, Exec, Start, Popped, Pushed, Asleep;
    if k == 0 {
      steps := FallAsleep();
    } else {
      steps := GoRound(k - 1);
      RoundTrip(k - 1);
      AsleepIsSized(k - 1);
      steps := PopAlone(Start(), steps, 1);
      steps := PushAlone(Start(), steps, 1, 2);
    }
  }

  lemma HeadRepeats(k: nat)
    requires 2 * k + 4 == TWO32
    ensures var s := Asleep(k);
            && Sized(s) && CanStep(s, PopCas(0)) && !LinkCurrent(s, PopCas(0))
            && |s.pcs| == 2 && s.pcs[0].PopLinked? && s.era - s.pcs[0].at == TWO32
    ensures var s' := Take(Asleep(k), PopCas(0)); |s'.loc| == 3 && s'.top.index == 1 && s'.loc[1] == Client
  {
    assert Asleep(k).top == Top(3, 2);
  }

  /**
   No larger bound will do. After 2^32 successful swaps the head repeats, bit for bit:
   the sleeping thread's swap goes through although the stack has changed, and leaves a
   buffer that a caller holds at the top of the free list. The execution is unsafe, by
   its very last step.
   */
  lemma GenerationWrapBreaksOwnership() returns (states: seq<State>, steps: seq<Step>)
    ensures IsExecution(states, steps) && steps != [] && steps[|steps| - 1] == PopCas(0)
    ensures var s := states[|steps| - 1];
            && |s.pcs| == 2 && s.pcs[0].PopLinked? && s.era - s.pcs[0].at == TWO32
    ensures var s' := states[|steps|];
            |s'.loc| == 3 && s'.top.index == 1 && s'.loc[1] == Client
    ensures !LinksCurrent(states, steps) && exists i :: 0 <= i < |states| && !Inv(states[i])
  {
    hide ExecOk, Exec, Start, Asleep, Take, CanStep, Sized, Inv, Initial, LinkCurrent;
    var k := TWO32 / 2 - 2;
    var before := GoRound(k);
    HeadRepeats(k);
    Extend(Start(), before, PopCas(0));
    steps := before + [PopCas(0)];
    states := Trace(Start(), steps);
    LastStep(states, steps, before, Asleep(k));
    SafeIffLinksCurrent(states, steps);
  }

  /** The state before the last step is the one the shorter execution ends in. */
  lemma LastStep(states: seq<State>, steps: seq<Step>, before: seq<Step>, s: State)
    requires IsExecution(states, steps) && steps == before + [PopCas(0)] && states[0] == Start()
    requires ExecOk(Start(), before) && Exec(Start(), before) == s
    ensures states[|before|] == s
  {
    hide Take, CanStep, Sized, Initial, Start;
    SameStates(states, steps, |before|);
    assert steps[..|before|] == before;
  }

  lemma {:induction false} SameStates(states: seq<State>, steps: seq<Step>, n: nat)
    requires IsExecution(states, steps) && n <= |steps|
    ensures ExecOk(states[0], steps[..n]) && Exec(states[0], steps[..n]) == states[n]
  {
    hide Take, CanStep, Sized, Initial;
    if n > 0 {
      SameStates(states, steps, n - 1);
      assert Next(states[n - 1], steps[n - 1], states[n]);
      Extend(states[0], steps[..n - 1], steps[n - 1]);
      assert steps[..n] == steps[..n - 1] + [steps[n - 1]];
    } else {
      assert steps[..0] == [];
      FirstSized(states[0]);
    }
  }

  lemma FirstSized(s: State)
    requires Initial(s)
    ensures Sized(s)
  {
  }
}
