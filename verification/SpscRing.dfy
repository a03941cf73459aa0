/**
 The single-producer single-consumer ring. First the ring as each call leaves
 it, then every load and store as a separate step of two concurrent threads,
 where a thread may read an out-of-date value of the other's index.
 */
module SpscRing {
  import opened Options
  import Words

  const TWO64: int := 0x1_0000_0000_0000_0000

  /** `size_t` image of an ideal counter. */
  function Wrap64(n: int): (w: nat) {
    n % 0x1_0000_0000_0000_0000
  }

  /** A power of two that fits a `size_t`: it divides 2^64. */
  predicate IsCapacity(n: nat) {
    0 < n < TWO64 && TWO64 % n == 0
  }

  lemma PowersAreCapacities(k: nat)
    requires k < 64
    ensures IsCapacity(Words.Pow2(k))
  {
    PowerSplit(k);
  }

  lemma PowerSplit(k: nat)
    requires k < 64
    ensures Words.Pow2(k) < TWO64 && TWO64 % Words.Pow2(k) == 0
  {
    var p, q := Words.Pow2(k), Words.Pow2(63 - k);
    assert Words.Pow2(64 - k) == 2 * q;
    hide Words.Pow2;
    PowerSum(k, 64 - k);
    TopPower();
    HalfOf(p, q);
  }

  lemma HalfOf(p: nat, q: nat)
    requires p > 0 && q > 0 && p * (2 * q) == TWO64
    ensures p < TWO64 && TWO64 % p == 0
  {
    AtLeast(p, q);
    Doubled(p, q);
    DivUnique(TWO64, p, 2 * q, 0);
  }

  lemma Doubled(p: nat, q: nat)
    ensures p * (2 * q) == 2 * (p * q)
  {
  }

  lemma AtLeast(n: int, k: int)
    requires n > 0 && k >= 1
    ensures n * k >= n
  {
  }

  /** Quotient and remainder are determined. */
  lemma DivUnique(x: int, n: int, q: int, r: int)
    requires n > 0 && 0 <= r < n && x == n * q + r
    ensures x / n == q && x % n == r
  {
    var a, b := x / n, x % n;
    assert x == n * a + b;
    assert n * (q - a) == b - r;
    assert n * (a - q) == r - b;
    if q > a { AtLeast(n, q - a); }
    if q < a { AtLeast(n, a - q); }
  }

  lemma {:induction false} PowerSum(a: nat, b: nat)
    ensures Words.Pow2(a) * Words.Pow2(b) == Words.Pow2(a + b)
  {
    if a > 0 {
      PowerSum(a - 1, b);
      assert Words.Pow2(a) * Words.Pow2(b) == 2 * (Words.Pow2(a - 1) * Words.Pow2(b));
    } else {
      assert Words.Pow2(0) * Words.Pow2(b) == Words.Pow2(b);
    }
  }

  lemma TopPower()
    ensures Words.Pow2(64) == TWO64
  {
    assert Words.Pow2(4) == 16;
    hide Words.Pow2;
    PowerSum(4, 4);
    PowerSum(8, 8);
    PowerSum(16, 16);
    PowerSum(32, 32);
  }

  /** Masking the wrapped counter picks the slot of the ideal one. */
  lemma SlotOfWrap(i: nat, n: nat)
    requires IsCapacity(n)
    ensures Wrap64(i) % n == i % n
  {
    var w := Wrap64(i);
    var q, m := i / TWO64, TWO64 / n;
    var a, b := w / n, w % n;
    assert TWO64 == n * m;
    assert TWO64 * q == n * (m * q);
    assert i == n * (m * q + a) + b;
    DivUnique(i, n, m * q + a, b);
  }

  /** Two counters less than a lap apart never share a slot. */
  lemma SlotsDiffer(i: nat, j: nat, n: nat)
    requires i < j < i + n
    ensures i % n != j % n
  {
    var a, b := i / n, j / n;
    assert j - i == n * (b - a) + (j % n - i % n);
    assert n * (a - b) == -(n * (b - a));
    if b > a { AtLeast(n, b - a); }
    if b < a { AtLeast(n, a - b); }
  }

  /** A difference of wrapped counters, for counters at most a capacity apart. */
  lemma DistanceOfWrap(h: nat, t: nat, n: nat)
    requires n < TWO64 && h <= t <= h + n
    ensures Wrap64(Wrap64(t) - Wrap64(h)) == t - h
    ensures Wrap64(h) == Wrap64(t) <==> h == t
  {
  }

  lemma WrapNext(i: nat)
    ensures Wrap64(Wrap64(i) + 1) == Wrap64(i + 1)
  {
  }

  lemma CapacityFits(n: nat)
    requires IsCapacity(n)
    ensures 0 < n < TWO64
  {
  }

  function SlotAt(i: nat, n: nat): (k: nat)
    requires n > 0
    ensures k < n
  {
    i % n
  }

  /** The items in the slots of the counters [lo, hi). */
  function Window<T>(slots: seq<T>, lo: nat, hi: nat): (w: seq<T>)
    requires |slots| > 0 && lo <= hi
    ensures |w| == hi - lo
  {
    seq(hi - lo, i requires 0 <= i < hi - lo => slots[SlotAt(lo + i, |slots|)])
  }

  lemma WindowPush<T>(slots: seq<T>, lo: nat, hi: nat, item: T)
    requires |slots| > 0 && lo <= hi < lo + |slots|
    ensures Window(slots[hi % |slots| := item], lo, hi + 1) == Window(slots, lo, hi) + [item]
  {
    var n := |slots|;
    var k := SlotAt(hi, n);
    assert k == hi % n;
    hide SlotAt;
    var slots' := slots[k := item];
    var a, b := Window(slots', lo, hi + 1), Window(slots, lo, hi) + [item];
    forall i | 0 <= i < hi + 1 - lo ensures a[i] == b[i] {
      if i < hi - lo {
        SlotsApart(lo + i, hi, n);
      } else {
        assert lo + i == hi;
      }
    }
  }

  lemma SlotsApart(i: nat, j: nat, n: nat)
    requires i < j < i + n
    ensures SlotAt(i, n) != SlotAt(j, n)
  {
    SlotsDiffer(i, j, n);
  }

  lemma WindowPop<T>(slots: seq<T>, lo: nat, hi: nat)
    requires |slots| > 0 && lo < hi
    ensures Window(slots, lo, hi) == [slots[lo % |slots|]] + Window(slots, lo + 1, hi)
  {
    assert SlotAt(lo, |slots|) == lo % |slots|;
    hide SlotAt;
    var a, b := Window(slots, lo, hi), [slots[SlotAt(lo, |slots|)]] + Window(slots, lo + 1, hi);
    forall i | 0 <= i < hi - lo ensures a[i] == b[i] {
      assert i > 0 ==> lo + i == lo + 1 + (i - 1);
    }
  }

  // ------------------------------------------------------------------- call by call

  class SPSCRing<T(0)> {
    const slots: array<T>
    var head: nat
    var tail: nat
    ghost var popped: nat   // ideal head
    ghost var pushed: nat   // ideal tail

    ghost predicate Valid()
      reads this
    {
      && IsCapacity(slots.Length)
      && popped <= pushed <= popped + slots.Length
      && head == Wrap64(popped) && tail == Wrap64(pushed)
    }

    /** The queued items, oldest first. */
    ghost function Contents(): (c: seq<T>)
      requires Valid()
      reads this, slots
      ensures |c| == pushed - popped
    {
      Window(slots[..], popped, pushed)
    }

    constructor (n: nat)
      requires IsCapacity(n)
      ensures Valid() && slots.Length == n && Contents() == [] && fresh(slots)
    {
      slots := new T[n];
      head, tail, popped, pushed := 0, 0, 0, 0;
    }

    method Push(item: T) returns (ok: bool)
      requires Valid()
      modifies this`tail, this`pushed, slots
      ensures Valid()
      ensures ok <==> |old(Contents())| < slots.Length
      ensures Contents() == if ok then old(Contents()) + [item] else old(Contents())
    {
      hide Wrap64, Window, IsCapacity;
      CapacityFits(slots.Length);
      DistanceOfWrap(popped, pushed, slots.Length);
      if Wrap64(tail - head) == slots.Length {
        return false;
      }
      SlotOfWrap(pushed, slots.Length);
      WindowPush(slots[..], popped, pushed, item);
      WrapNext(pushed);
      slots[tail % slots.Length] := item;
      tail := Wrap64(tail + 1);
      pushed := pushed + 1;
      return true;
    }

    method Pop() returns (item: Option<T>)
      requires Valid()
      modifies this`head, this`popped
      ensures Valid()
      ensures item.None? <==> old(Contents()) == []
      ensures if item.Some? then old(Contents()) == [item.value] + Contents() else Contents() == old(Contents())
    {
      hide Wrap64, Window, IsCapacity;
      CapacityFits(slots.Length);
      DistanceOfWrap(popped, pushed, slots.Length);
      if head == tail {
        return None;
      }
      SlotOfWrap(popped, slots.Length);
      WindowPop(slots[..], popped, pushed);
      WrapNext(popped);
      item := Some(slots[head % slots.Length]);
      head := Wrap64(head + 1);
      popped := popped + 1;
    }

    method IsEmpty() returns (empty: bool)
      requires Valid()
      ensures empty <==> Contents() == []
    {
      DistanceOfWrap(popped, pushed, slots.Length);
      empty := head == tail;
    }

    method Size() returns (n: nat)
      requires Valid()
      ensures n == |Contents()|
    {
      DistanceOfWrap(popped, pushed, slots.Length);
      n := Wrap64(tail - head);
    }
  }

  // ------------------------------------------------------------------- step by step

  datatype Producer<T> =
    | PIdle
    | PLoadedTail(item: T, tail: nat)
    | PLoadedHead(item: T, tail: nat, head: nat)
    | PWritten(item: T, tail: nat)

  datatype Consumer<T> =
    | CIdle
    | CLoadedHead(head: nat)
    | CLoadedTail(head: nat, tail: nat)
    | CRead(head: nat, item: T)

  datatype Ring<T> = Ring(
    slots: seq<T>, head: nat, tail: nat, p: Producer<T>, c: Consumer<T>,
    // what the proofs follow
    pushed: seq<T>,     // items whose tail store has happened
    popped: seq<T>,     // items whose head store has happened
    headSeen: nat,      // newest head the producer has read
    tailSeen: nat)      // newest tail the consumer has read

  /** Loads of the other side's index name the ideal value they return. */
  datatype Step<T> =
    | PushBegin(item: T)
    | PushLoadHead(seen: nat)
    | PushFull
    | PushWrite
    | PushPublish
    | PopBegin
    | PopLoadTail(seen: nat)
    | PopEmpty
    | PopRead
    | PopRelease

  /** The code's guards, on the wrapped values it holds. */
  predicate CanStep<T>(r: Ring<T>, step: Step<T>) {
    match step
    case PushBegin(_) => r.p.PIdle?
    case PushLoadHead(h) => r.p.PLoadedTail? && h <= |r.popped|
    case PushFull => r.p.PLoadedHead? && Wrap64(r.p.tail - r.p.head) == |r.slots|
    case PushWrite =>
      r.p.PLoadedHead? && Wrap64(r.p.tail - r.p.head) != |r.slots| && |r.slots| > 0
    case PushPublish => r.p.PWritten?
    case PopBegin => r.c.CIdle?
    case PopLoadTail(t) => r.c.CLoadedHead? && t <= |r.pushed|
    case PopEmpty => r.c.CLoadedTail? && r.c.head == r.c.tail
    case PopRead => r.c.CLoadedTail? && r.c.head != r.c.tail && |r.slots| > 0
    case PopRelease => r.c.CRead?
  }

  /**
   Read coherence: a thread's later load of a variable never returns an older
   value than an earlier one did.
   */
  predicate Coherent<T>(r: Ring<T>, step: Step<T>) {
    && (step.PushLoadHead? ==> r.headSeen <= step.seen)
    && (step.PopLoadTail? ==> r.tailSeen <= step.seen)
  }

  /** The stale value is not so old that a whole ring lies between it and the loading side. */
  predicate Fits<T>(r: Ring<T>, step: Step<T>) {
    && (step.PushLoadHead? ==> |r.pushed| <= step.seen + |r.slots|)
    && (step.PopLoadTail? ==> |r.popped| <= step.seen)
  }

  function Take<T>(r: Ring<T>, step: Step<T>): Ring<T>
    requires CanStep(r, step)
  {
    match step
    case PushBegin(item) => r.(p := PLoadedTail(item, r.tail))
    case PushLoadHead(h) => r.(p := PLoadedHead(r.p.item, r.p.tail, Wrap64(h)), headSeen := h)
    case PushFull => r.(p := PIdle)
    case PushWrite =>
      r.(slots := r.slots[r.p.tail % |r.slots| := r.p.item], p := PWritten(r.p.item, r.p.tail))
    case PushPublish => r.(tail := Wrap64(r.p.tail + 1), p := PIdle, pushed := r.pushed + [r.p.item])
    case PopBegin => r.(c := CLoadedHead(r.head))
    case PopLoadTail(t) => r.(c := CLoadedTail(r.c.head, Wrap64(t)), tailSeen := t)
    case PopEmpty => r.(c := CIdle)
    case PopRead => r.(c := CRead(r.c.head, r.slots[r.c.head % |r.slots|]))
    case PopRelease => r.(head := Wrap64(r.c.head + 1), c := CIdle, popped := r.popped + [r.c.item])
  }

  ghost predicate CountersOk<T>(r: Ring<T>) {
    && IsCapacity(|r.slots|)
    && r.head == Wrap64(|r.popped|) && r.tail == Wrap64(|r.pushed|)
    && r.headSeen <= |r.popped| <= r.tailSeen <= |r.pushed| <= r.headSeen + |r.slots|
    && r.popped <= r.pushed
  }

  /** Published items stay in their slots until they are released. */
  ghost predicate SlotsOk<T>(r: Ring<T>) {
    |r.slots| > 0 && forall i :: |r.popped| <= i < |r.pushed| ==> r.slots[i % |r.slots|] == r.pushed[i]
  }

  ghost predicate ProducerOk<T>(r: Ring<T>) {
    && |r.slots| > 0
    && (!r.p.PIdle? ==> r.p.tail == r.tail)
    && (r.p.PLoadedHead? ==> r.p.head == Wrap64(r.headSeen))
    && (r.p.PWritten? ==>
          |r.pushed| < r.headSeen + |r.slots| && r.slots[|r.pushed| % |r.slots|] == r.p.item)
  }

  ghost predicate ConsumerOk<T>(r: Ring<T>) {
    && (!r.c.CIdle? ==> r.c.head == r.head)
    && (r.c.CLoadedTail? ==> r.c.tail == Wrap64(r.tailSeen))
    && (r.c.CRead? ==> |r.popped| < r.tailSeen && |r.popped| < |r.pushed| && r.c.item == r.pushed[|r.popped|])
  }

  ghost predicate Inv<T>(r: Ring<T>) {
    CountersOk(r) && SlotsOk(r) && ProducerOk(r) && ConsumerOk(r)
  }

  /** The wrapped full test is exact for any head no older than the last one seen. */
  lemma FullTest<T>(r: Ring<T>)
    requires CountersOk(r) && ProducerOk(r) && r.p.PLoadedHead?
    ensures Wrap64(r.p.tail - r.p.head) == |r.slots| <==> |r.pushed| == r.headSeen + |r.slots|
  {
    DistanceOfWrap(r.headSeen, |r.pushed|, |r.slots|);
  }

  lemma EmptyTest<T>(r: Ring<T>)
    requires CountersOk(r) && ConsumerOk(r) && r.c.CLoadedTail?
    ensures r.c.head == r.c.tail <==> |r.popped| == r.tailSeen
  {
    DistanceOfWrap(|r.popped|, r.tailSeen, |r.slots|);
  }

  /**
   No race on a slot: a slot about to be written holds no unreleased item, and a
   slot about to be read has been published.
   */
  lemma NoSlotRace<T>(r: Ring<T>)
    requires Inv(r)
    ensures r.p.PLoadedHead? && Wrap64(r.p.tail - r.p.head) != |r.slots| ==>
              && |r.pushed| < |r.popped| + |r.slots|
              && r.p.tail % |r.slots| == |r.pushed| % |r.slots|
              && forall i :: |r.popped| <= i < |r.pushed| ==> i % |r.slots| != r.p.tail % |r.slots|
    ensures r.c.CLoadedTail? && r.c.head != r.c.tail ==>
              && |r.popped| < |r.pushed|
              && r.c.head % |r.slots| == |r.popped| % |r.slots|
  {
    if r.p.PLoadedHead? && Wrap64(r.p.tail - r.p.head) != |r.slots| {
      FullTest(r);
      SlotOfWrap(|r.pushed|, |r.slots|);
      forall i | |r.popped| <= i < |r.pushed| ensures i % |r.slots| != |r.pushed| % |r.slots| {
        SlotsDiffer(i, |r.pushed|, |r.slots|);
      }
    }
    if r.c.CLoadedTail? && r.c.head != r.c.tail {
      EmptyTest(r);
      SlotOfWrap(|r.popped|, |r.slots|);
    }
  }

  lemma WriteOk<T>(r: Ring<T>)
    requires Inv(r) && CanStep(r, PushWrite)
    ensures Inv(Take(r, PushWrite))
  {
    FullTest(r);
    NoSlotRace(r);
  }

  lemma PublishOk<T>(r: Ring<T>)
    requires Inv(r) && CanStep(r, PushPublish)
    ensures Inv(Take(r, PushPublish))
  {
    var r' := Take(r, PushPublish);
    hide Wrap64, IsCapacity;
    WrapNext(|r.pushed|);
    assert r.c.CRead? ==> r'.pushed[|r.popped|] == r.pushed[|r.popped|];
  }

  lemma ReadOk<T>(r: Ring<T>)
    requires Inv(r) && CanStep(r, PopRead)
    ensures Inv(Take(r, PopRead))
  {
    EmptyTest(r);
    NoSlotRace(r);
  }

  lemma ReleaseOk<T>(r: Ring<T>)
    requires Inv(r) && CanStep(r, PopRelease)
    ensures Inv(Take(r, PopRelease))
  {
    hide Wrap64, IsCapacity;
    WrapNext(|r.popped|);
    var r' := Take(r, PopRelease);
    assert r'.popped == r.pushed[..|r.popped| + 1];
  }

  /** The queue the two threads share: published and not yet released. */
  function Queue<T>(r: Ring<T>): seq<T>
    requires |r.popped| <= |r.pushed|
  {
    r.pushed[|r.popped|..]
  }

  /**
   Each step keeps the invariant; a tail store is an enqueue, a head store a
   dequeue of the oldest item, nothing else changes the queue.
   */
  lemma StepRefines<T>(r: Ring<T>, step: Step<T>)
    requires Inv(r) && CanStep(r, step) && Fits(r, step)
    ensures Inv(Take(r, step))
    ensures var q, q' := Queue(r), Queue(Take(r, step));
            && |q'| <= |r.slots|
            && (step.PushPublish? ==> q' == q + [r.p.item])
            && (step.PopRelease? ==> q == [r.c.item] + q')
            && (!step.PushPublish? && !step.PopRelease? ==> q' == q)
  {
    if step.PushWrite? {
      WriteOk(r);
    } else if step.PushPublish? {
      PublishOk(r);
    } else if step.PopRead? {
      ReadOk(r);
    } else if step.PopRelease? {
      ReleaseOk(r);
    }
  }

  /** Coherent loads are never too old. */
  lemma CoherentFits<T>(r: Ring<T>, step: Step<T>)
    requires Inv(r) && Coherent(r, step)
    ensures Fits(r, step)
  {
  }

  /**
   The answers. A push answers "full" exactly when, by the head it loaded, N items are in
   the ring, and otherwise goes on to write; a pop answers "empty" exactly when, by the
   tail it loaded, none is, and otherwise goes on to read.
   */
  lemma AnswersAreRight<T>(r: Ring<T>)
    requires Inv(r)
    ensures r.p.PLoadedHead? ==>
              && (CanStep(r, PushFull) <==> |r.pushed| == r.headSeen + |r.slots|)
              && (CanStep(r, PushWrite) <==> |r.pushed| < r.headSeen + |r.slots|)
    ensures r.c.CLoadedTail? ==>
              && (CanStep(r, PopEmpty) <==> |r.popped| == r.tailSeen)
              && (CanStep(r, PopRead) <==> |r.popped| < r.tailSeen)
  {
    hide Wrap64, IsCapacity;
    if r.p.PLoadedHead? { FullTest(r); }
    if r.c.CLoadedTail? { EmptyTest(r); }
  }

  /** Neither side ever waits: each has a step at every point, and the item pushed is the one given. */
  lemma NeverWaits<T>(r: Ring<T>, item: T)
    requires Inv(r)
    ensures match r.p
            case PIdle => CanStep(r, PushBegin(item)) && Take(r, PushBegin(item)).p.item == item
            case PLoadedTail(x, _) =>
              CanStep(r, PushLoadHead(|r.popped|)) && Take(r, PushLoadHead(|r.popped|)).p.item == x
            case PLoadedHead(x, _, _) =>
              && (CanStep(r, PushFull) || CanStep(r, PushWrite))
              && (CanStep(r, PushWrite) ==> Take(r, PushWrite).p.item == x)
            case PWritten(x, _) => CanStep(r, PushPublish) && Take(r, PushPublish).pushed == r.pushed + [x]
    ensures match r.c
            case CIdle => CanStep(r, PopBegin)
            case CLoadedHead(_) => CanStep(r, PopLoadTail(|r.pushed|))
            case CLoadedTail(_, _) => CanStep(r, PopEmpty) || CanStep(r, PopRead)
            case CRead(_, _) => CanStep(r, PopRelease)
  {
    hide Wrap64, IsCapacity;
  }

  /** Steps a push, or a pop, still needs. */
  function PushLeft<T>(p: Producer<T>): nat {
    match p case PIdle => 0 case PWritten(_, _) => 1 case PLoadedHead(_, _, _) => 2 case PLoadedTail(_, _) => 3
  }

  function PopLeft<T>(c: Consumer<T>): nat {
    match c case CIdle => 0 case CRead(_, _) => 1 case CLoadedTail(_, _) => 2 case CLoadedHead(_) => 3
  }

  predicate IsPushStep<T>(step: Step<T>) {
    step.PushBegin? || step.PushLoadHead? || step.PushFull? || step.PushWrite? || step.PushPublish?
  }

  /**
   Wait-freedom: a call begins idle, every later step of its own brings its end nearer,
   and a refusal ends it with the ring as it was. Neither side moves the other.
   */
  lemma CallsEnd<T>(r: Ring<T>, step: Step<T>)
    requires CanStep(r, step)
    ensures var r' := Take(r, step);
            && (IsPushStep(step) ==> r'.c == r.c && r'.head == r.head && r'.popped == r.popped)
            && (!IsPushStep(step) ==> r'.p == r.p && r'.tail == r.tail && r'.pushed == r.pushed && r'.slots == r.slots)
            && (IsPushStep(step) && !r.p.PIdle? ==> PushLeft(r'.p) < PushLeft(r.p))
            && (!IsPushStep(step) && !r.c.CIdle? ==> PopLeft(r'.c) < PopLeft(r.c))
            && (step.PushFull? ==> r' == r.(p := PIdle))
            && (step.PopEmpty? ==> r' == r.(c := CIdle))
  {
    hide Wrap64;
  }

  // ---------------------------------------------------------------------------- runs

  ghost predicate Initial<T>(r: Ring<T>) {
    && IsCapacity(|r.slots|) && r.head == 0 && r.tail == 0 && r.p.PIdle? && r.c.CIdle?
    && r.pushed == [] && r.popped == [] && r.headSeen == 0 && r.tailSeen == 0
  }

  /** Every interleaving the code allows, with loads as stale as they please. */
  ghost predicate IsExecution<T>(states: seq<Ring<T>>, steps: seq<Step<T>>) {
    && |states| == |steps| + 1 && Initial(states[0])
    && forall i :: 0 <= i < |steps| ==> Next(states[i], steps[i], states[i + 1])
  }

  ghost predicate Next<T>(r: Ring<T>, step: Step<T>, r': Ring<T>) {
    CanStep(r, step) && r' == Take(r, step)
  }

  /** No load is more than a ring's length old. */
  ghost predicate LoadsFit<T>(states: seq<Ring<T>>, steps: seq<Step<T>>)
    requires |states| > |steps|
  {
    forall i :: 0 <= i < |steps| ==> Fits(states[i], steps[i])
  }

  ghost predicate IsRun<T>(states: seq<Ring<T>>, steps: seq<Step<T>>) {
    IsExecution(states, steps) && LoadsFit(states, steps)
  }

  /** Over every such interleaving: what comes out is a prefix of what went in, at most N behind. */
  lemma {:induction false} FifoOverEveryRun<T>(states: seq<Ring<T>>, steps: seq<Step<T>>, i: nat)
    requires IsRun(states, steps) && i < |states|
    ensures Inv(states[i]) && |states[i].slots| == |states[0].slots|
    ensures states[i].popped <= states[i].pushed
    ensures |states[i].pushed| - |states[i].popped| <= |states[0].slots|
  {
    hide Wrap64, IsCapacity, Fits;
    if i > 0 {
      FifoOverEveryRun(states, steps, i - 1);
      assert Next(states[i - 1], steps[i - 1], states[i]) && Fits(states[i - 1], steps[i - 1]);
      StepRefines(states[i - 1], steps[i - 1]);
    } else {
      FirstState(states[0]);
    }
  }

  lemma FirstState<T>(r: Ring<T>)
    requires Initial(r)
    ensures Inv(r)
  {
  }

  /** Executions in which no thread's loads go backwards are such runs. */
  lemma {:induction false} CoherentIsSafe<T>(states: seq<Ring<T>>, steps: seq<Step<T>>, n: nat)
    requires IsExecution(states, steps) && n <= |steps|
    requires forall i :: 0 <= i < |steps| ==> Coherent(states[i], steps[i])
    ensures IsRun(states[..n + 1], steps[..n])
    ensures n == |steps| ==> IsRun(states, steps)
  {
    hide Initial, Take, CanStep, Inv, Fits, Coherent;
    if n > 0 {
      CoherentIsSafe(states, steps, n - 1);
      FifoOverEveryRun(states[..n], steps[..n - 1], n - 1);
      assert states[..n][n - 1] == states[n - 1];
      CoherentFits(states[n - 1], steps[n - 1]);
      forall i | 0 <= i < n ensures Fits(states[i], steps[i]) {
        assert i < n - 1 ==> Fits(states[..n][i], steps[..n - 1][i]);
      }
    }
    assert n == |steps| ==> states[..n + 1] == states && steps[..n] == steps;
  }

  /** The slot at the tail holds a published item that has not been released. */
  ghost predicate TailHoldsUnread<T>(r: Ring<T>)
    requires |r.slots| > 0
  {
    exists i :: |r.popped| <= i < |r.pushed| && SlotAt(i, |r.slots|) == SlotAt(r.tail, |r.slots|)
  }

  lemma TailHoldsUnreadIffFull<T>(r: Ring<T>)
    requires Inv(r)
    ensures TailHoldsUnread(r) <==> |r.pushed| == |r.popped| + |r.slots|
  {
    SlotOfWrap(|r.pushed|, |r.slots|);
    if |r.pushed| == |r.popped| + |r.slots| {
      OneLap(|r.popped|, |r.slots|);
      assert SlotAt(|r.popped|, |r.slots|) == SlotAt(r.tail, |r.slots|);
    } else {
      forall i | |r.popped| <= i < |r.pushed| ensures SlotAt(i, |r.slots|) != SlotAt(r.tail, |r.slots|) {
        SlotsDiffer(i, |r.pushed|, |r.slots|);
      }
    }
  }

  /**
   How stale a head may be, exactly. Loading ideal head `h` keeps the invariant if and
   only if a ring's length from it reaches the tail; and the write that follows destroys
   an unread item if and only if the ring is full and `h` is not, modulo 2^64, its head.
   */
  lemma StaleHeadOverwrites<T>(r: Ring<T>, h: nat)
    requires Inv(r) && CanStep(r, PushLoadHead(h))
    ensures Inv(Take(r, PushLoadHead(h))) <==> Fits(r, PushLoadHead(h))
    ensures var r' := Take(r, PushLoadHead(h));
            CanStep(r', PushWrite) && TailHoldsUnread(r') <==>
              |r.pushed| == |r.popped| + |r.slots| && (|r.popped| - h) % TWO64 != 0
  {
    var r' := Take(r, PushLoadHead(h));
    hide Wrap64, IsCapacity;
    CapacityFits(|r.slots|);
    LapDistance(h, |r.pushed|, |r.slots|);
    TailHoldsUnreadIffFull(r);
    assert TailHoldsUnread(r') <==> TailHoldsUnread(r);
  }

  /**
   The same for a stale tail: the read that follows finds nothing published if and only
   if the ring is empty and `t` is not, modulo 2^64, its head.
   */
  lemma StaleTailReadsAhead<T>(r: Ring<T>, t: nat)
    requires Inv(r) && CanStep(r, PopLoadTail(t))
    ensures Inv(Take(r, PopLoadTail(t))) <==> Fits(r, PopLoadTail(t))
    ensures CanStep(Take(r, PopLoadTail(t)), PopRead) && |r.pushed| == |r.popped| <==>
              |r.pushed| == |r.popped| && (|r.popped| - t) % TWO64 != 0
  {
    hide IsCapacity;
    LapEqual(|r.popped|, t);
  }

  /** The exact condition, over whole executions: the ring stays right if and only if no load is too old. */
  lemma SafeIffLoadsFit<T>(states: seq<Ring<T>>, steps: seq<Step<T>>)
    requires IsExecution(states, steps)
    ensures (forall i :: 0 <= i < |states| ==> Inv(states[i])) <==> LoadsFit(states, steps)
  {
    hide Initial, Take, CanStep, Inv, Fits;
    if LoadsFit(states, steps) {
      forall i | 0 <= i < |states| ensures Inv(states[i]) {
        FifoOverEveryRun(states, steps, i);
      }
    }
    if forall i :: 0 <= i < |states| ==> Inv(states[i]) {
      forall i | 0 <= i < |steps| ensures Fits(states[i], steps[i]) {
        assert Next(states[i], steps[i], states[i + 1]);
        KeptMeansFits(states[i], steps[i]);
      }
    }
  }

  lemma KeptMeansFits<T>(r: Ring<T>, step: Step<T>)
    requires Inv(r) && CanStep(r, step) && Inv(Take(r, step))
    ensures Fits(r, step)
  {
    hide Inv, Fits;
    match step
    case PushLoadHead(h) => StaleHeadOverwrites(r, h);
    case PopLoadTail(t) => StaleTailReadsAhead(r, t);
    case _ => OthersFit(r, step);
  }

  lemma OthersFit<T>(r: Ring<T>, step: Step<T>)
    requires !step.PushLoadHead? && !step.PopLoadTail?
    ensures Fits(r, step)
  {
  }

  lemma LapEqual(i: nat, j: nat)
    ensures Wrap64(i) == Wrap64(j) <==> (i - j) % TWO64 == 0
  {
  }

  lemma LapDistance(h: nat, t: nat, n: nat)
    requires n < TWO64
    ensures Wrap64(Wrap64(t) - Wrap64(h)) == n <==> (t - n - h) % TWO64 == 0
  {
    var d := Wrap64(Wrap64(t) - Wrap64(h));
    assert (t - h - d) % 0x1_0000_0000_0000_0000 == 0;
  }

  lemma OneLap(i: nat, n: nat)
    requires n > 0
    ensures (i + n) % n == i % n
  {
    DivUnique(i + n, n, i / n + 1, i % n);
  }
}
