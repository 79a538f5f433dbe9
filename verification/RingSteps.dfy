/** The ring under concurrency: any number of producers behind one spin lock and one lock-free
    consumer, interleaved at every shared load and store. */
module RingSteps {
  import opened Bytes
  import opened RingIndex
  import opened Ring

  /** Where a producer is inside try_push / try_push_pair. */
  datatype Producer<T> =
    | Outside
    | Locked(items: seq<T>)
    | HeadLoaded(items: seq<T>, h: u32)
    | TailLoaded(items: seq<T>, h: u32, t: u32, seen: nat)  // `seen`: elements popped at the load
    | Writing(items: seq<T>, h: u32, n: nat)                // `n` slots written
    | Leaving(ok: bool)

  /** Where the consumer is inside try_pop. */
  datatype Consumer<T> =
    | Resting
    | SawTail(t: u32)
    | SawHead(t: u32, h: u32, seen: nat)                    // `seen`: elements pushed at the load
    | GotItem(t: u32, x: T)

  datatype State<T> = State(
    buf: seq<T>, head: u32, tail: u32, lock: Option<nat>,
    producers: seq<Producer<T>>, consumer: Consumer<T>,
    pushed: seq<T>, popped: seq<T>)                         // histories, not machine state

  datatype Step<T> =
    | Acquire(p: nat, items: seq<T>) | LoadHead(p: nat) | LoadTail(p: nat) | Decide(p: nat)
    | StoreItem(p: nat) | Publish(p: nat) | Release(p: nat)
    | ReadTail | ReadHead | ReadItem | StoreTail

  predicate Enabled<T>(s: State<T>, step: Step<T>) {
    match step
    case Acquire(p, items) => p < |s.producers| && s.producers[p].Outside? && s.lock.None?
                              && (|items| == 1 || |items| == 2)
    case LoadHead(p) => p < |s.producers| && s.producers[p].Locked?
    case LoadTail(p) => p < |s.producers| && s.producers[p].HeadLoaded?
    case Decide(p) => p < |s.producers| && s.producers[p].TailLoaded?
    case StoreItem(p) => p < |s.producers| && |s.buf| > 0
                         && s.producers[p].Writing? && s.producers[p].n < |s.producers[p].items| <= 2
    case Publish(p) => p < |s.producers| && s.producers[p].Writing?
                       && s.producers[p].n == |s.producers[p].items| < WRAP
    case Release(p) => p < |s.producers| && s.producers[p].Leaving?
    case ReadTail => s.consumer.Resting?
    case ReadHead => s.consumer.SawTail?
    case ReadItem => s.consumer.SawHead? && |s.buf| > 0
    case StoreTail => s.consumer.GotItem?
  }

  function Next<T>(s: State<T>, step: Step<T>): State<T>
    requires Enabled(s, step)
  {
    match step
    case Acquire(p, items) => s.(lock := Some(p), producers := s.producers[p := Locked(items)])
    case LoadHead(p) => s.(producers := s.producers[p := HeadLoaded(s.producers[p].items, s.head)])
    case LoadTail(p) =>
      var q := s.producers[p];
      s.(producers := s.producers[p := TailLoaded(q.items, q.h, s.tail, |s.popped|)])
    case Decide(p) =>
      var q := s.producers[p];
      s.(producers := s.producers[p :=
           if Gap(q.h, q.t) + |q.items| > |s.buf| then Leaving(false) else Writing(q.items, q.h, 0)])
    case StoreItem(p) =>
      var q := s.producers[p];
      s.(buf := s.buf[Bump(q.h, q.n) % |s.buf| := q.items[q.n]],
         producers := s.producers[p := q.(n := q.n + 1)])
    case Publish(p) =>
      var q := s.producers[p];
      s.(head := Bump(q.h, q.n), producers := s.producers[p := Leaving(true)], pushed := s.pushed + q.items)
    case Release(p) => s.(lock := None, producers := s.producers[p := Outside])
    case ReadTail => s.(consumer := SawTail(s.tail))
    case ReadHead => s.(consumer := SawHead(s.consumer.t, s.head, |s.pushed|))
    case ReadItem =>
      s.(consumer := if s.consumer.t == s.consumer.h then Resting
                     else GotItem(s.consumer.t, s.buf[s.consumer.t % |s.buf|]))
    case StoreTail => s.(tail := Bump(s.consumer.t, 1), consumer := Resting,
                         popped := s.popped + [s.consumer.x])
  }

  // ---- invariant ------------------------------------------------------------

  /** What the consumer can reach: published and not yet taken. */
  function Queue<T>(s: State<T>): seq<T>
    requires |s.popped| <= |s.pushed|
  {
    s.pushed[|s.popped|..]
  }

  ghost predicate SharedInv<T>(s: State<T>) {
    && Capacity(|s.buf|)
    && |s.popped| <= |s.pushed| <= |s.popped| + |s.buf|
    && s.popped == s.pushed[..|s.popped|]
    && s.head == |s.pushed| % WRAP && s.tail == |s.popped| % WRAP
    && QueueOf(s.buf, |s.popped|, |s.pushed|) == Queue(s)
  }

  ghost predicate ProducerInv<T>(s: State<T>, q: Producer<T>)
    requires SharedInv(s)
  {
    match q
    case Outside => true
    case Locked(items) => 1 <= |items| <= 2
    case HeadLoaded(items, h) => 1 <= |items| <= 2 && h == s.head
    case TailLoaded(items, h, t, seen) =>
      && 1 <= |items| <= 2 && h == s.head && t == seen % WRAP
      && seen <= |s.popped| && |s.pushed| <= seen + |s.buf|
    case Writing(items, h, n) =>
      && n <= |items| <= 2 && h == s.head && 1 <= |items|
      && |s.pushed| + |items| <= |s.popped| + |s.buf|
      && QueueOf(s.buf, |s.popped|, |s.pushed| + n) == Queue(s) + items[..n]
    case Leaving(_) => true
  }

  ghost predicate ConsumerInv<T>(s: State<T>)
    requires SharedInv(s)
  {
    match s.consumer
    case Resting => true
    case SawTail(t) => t == s.tail
    case SawHead(t, h, seen) => t == s.tail && h == seen % WRAP && |s.popped| <= seen <= |s.pushed|
    case GotItem(t, x) => t == s.tail && |s.popped| < |s.pushed| && x == s.pushed[|s.popped|]
  }

  ghost predicate Inv<T>(s: State<T>) {
    && SharedInv(s) && ConsumerInv(s)
    && forall p :: 0 <= p < |s.producers| ==>
         ProducerInv(s, s.producers[p]) && (s.producers[p].Outside? || s.lock == Some(p))
  }

  /** One step of an atomic FIFO of this capacity: nothing, one append of one or two elements
      together, or one removal from the front. */
  ghost predicate FifoStep<T>(q: seq<T>, q': seq<T>, cap: nat) {
    || q' == q
    || (|q'| <= cap && q <= q' && 1 <= |q'| - |q| <= 2)
    || (q != [] && q' == q[1..])
  }

  // ---- every step keeps the invariant and is a FIFO step -----------------------

  /** A producer that has decided to write has room, whatever the consumer did since. */
  lemma DecideKeeps<T>(s: State<T>, p: nat)
    requires Inv(s) && Enabled(s, Decide(p))
    ensures Inv(Next(s, Decide(p)))
  {
    var q := s.producers[p];
    WrapGap(|s.pushed|, q.seen);
  }

  lemma QueuePrefix<T>(b: seq<T>, from: nat, mid: nat, to: nat)
    requires |b| > 0 && from <= mid <= to
    ensures QueueOf(b, from, mid) == QueueOf(b, from, to)[..mid - from]
  {
  }

  /** Writing slot `to` extends the queue up to `to` and leaves the published part alone. */
  lemma AppendBehind<T>(b: seq<T>, from: nat, mid: nat, to: nat, x: T)
    requires |b| > 0 && from <= mid <= to < from + |b|
    ensures var b' := b[Slot(to, |b|) := x];
            && QueueOf(b', from, mid) == QueueOf(b, from, mid)
            && QueueOf(b', from, to + 1) == QueueOf(b, from, to) + [x]
  {
    var b' := b[Slot(to, |b|) := x];
    QueueExtends(b, from, to, x);
    QueuePrefix(b', from, mid, to + 1);
    QueuePrefix(b, from, mid, to);
  }

  lemma StoreItemKeeps<T>(s: State<T>, p: nat)
    requires Inv(s) && Enabled(s, StoreItem(p))
    ensures Inv(Next(s, StoreItem(p))) && Queue(Next(s, StoreItem(p))) == Queue(s)
  {
    var q, s' := s.producers[p], Next(s, StoreItem(p));
    var from, to := |s.popped|, |s.pushed| + q.n;
    WrapBump(|s.pushed|, q.n);
    WrapSlot(to, |s.buf|);
    assert s'.buf == s.buf[Slot(to, |s.buf|) := q.items[q.n]];
    AppendBehind(s.buf, from, |s.pushed|, to, q.items[q.n]);
    assert q.items[..q.n] + [q.items[q.n]] == q.items[..q.n + 1];
  }

  lemma PublishKeeps<T>(s: State<T>, p: nat)
    requires Inv(s) && Enabled(s, Publish(p))
    ensures Inv(Next(s, Publish(p))) && Queue(Next(s, Publish(p))) == Queue(s) + s.producers[p].items
  {
    var q := s.producers[p];
    WrapBump(|s.pushed|, q.n);
    assert q.items[..q.n] == q.items;
    assert forall r :: 0 <= r < |s.producers| && r != p ==> s.producers[r].Outside?;
  }

  lemma ReadItemKeeps<T>(s: State<T>)
    requires Inv(s) && Enabled(s, ReadItem)
    ensures Inv(Next(s, ReadItem))
  {
    WrapGap(s.consumer.seen, |s.popped|);
    WrapSlot(|s.popped|, |s.buf|);
    if s.consumer.t != s.consumer.h {
      assert QueueOf(s.buf, |s.popped|, |s.pushed|)[0] == s.buf[Slot(|s.popped|, |s.buf|)];
    }
  }

  lemma QueueDrops<T>(b: seq<T>, from: nat, to: nat)
    requires |b| > 0 && from < to
    ensures QueueOf(b, from + 1, to) == QueueOf(b, from, to)[1..]
  {
  }

  lemma StoreTailShared<T>(s: State<T>)
    requires Inv(s) && Enabled(s, StoreTail)
    ensures SharedInv(Next(s, StoreTail)) && [s.consumer.x] + Queue(Next(s, StoreTail)) == Queue(s)
  {
    WrapBump(|s.popped|, 1);
    QueueDrops(s.buf, |s.popped|, |s.pushed|);
  }

  lemma StoreTailProducer<T>(s: State<T>, q: Producer<T>)
    requires Inv(s) && Enabled(s, StoreTail) && SharedInv(Next(s, StoreTail)) && ProducerInv(s, q)
    ensures ProducerInv(Next(s, StoreTail), q)
  {
    if q.Writing? {
      QueueDrops(s.buf, |s.popped|, |s.pushed| + q.n);
    }
  }

  lemma StoreTailKeeps<T>(s: State<T>)
    requires Inv(s) && Enabled(s, StoreTail)
    ensures Inv(Next(s, StoreTail)) && [s.consumer.x] + Queue(Next(s, StoreTail)) == Queue(s)
  {
    StoreTailShared(s);
    forall p | 0 <= p < |s.producers| ensures ProducerInv(Next(s, StoreTail), s.producers[p]) {
      StoreTailProducer(s, s.producers[p]);
    }
  }

  lemma OtherKeeps<T>(s: State<T>, step: Step<T>)
    requires Inv(s) && Enabled(s, step)
    requires !step.Decide? && !step.StoreItem? && !step.Publish? && !step.ReadItem? && !step.StoreTail?
    ensures Inv(Next(s, step)) && Queue(Next(s, step)) == Queue(s)
  {
  }

  /** Main theorem, one step: in every interleaving the ring is an atomic bounded FIFO. A pair
      becomes visible at once, and what the consumer takes is the oldest element. */
  lemma StepRefinesFifo<T>(s: State<T>, step: Step<T>)
    requires Inv(s) && Enabled(s, step)
    ensures Inv(Next(s, step))
    ensures FifoStep(Queue(s), Queue(Next(s, step)), |s.buf|)
    ensures step.Publish? ==> Queue(Next(s, step)) == Queue(s) + s.producers[step.p].items
    ensures step.StoreTail? ==> Queue(s) == [s.consumer.x] + Queue(Next(s, step))
    ensures !step.Publish? && !step.StoreTail? ==> Queue(Next(s, step)) == Queue(s)
  {
    match step {
      case Decide(p) => DecideKeeps(s, p);
      case StoreItem(p) => StoreItemKeeps(s, p);
      case Publish(p) => PublishKeeps(s, p);
      case ReadItem => ReadItemKeeps(s);
      case StoreTail => StoreTailKeeps(s);
      case _ => OtherKeeps(s, step);
    }
  }

  /** A push is refused only if the queue was too full when the tail was read, a pop only if the
      queue was empty when the head was read. */
  lemma RefusalsAreTrue<T>(s: State<T>, p: nat)
    requires Inv(s)
    ensures p < |s.producers| && s.producers[p].TailLoaded? ==>
              var q := s.producers[p];
              (Next(s, Decide(p)).producers[p] == Leaving(false) <==> |s.pushed| - q.seen + |q.items| > |s.buf|)
    ensures s.consumer.SawHead? ==>
              (Next(s, ReadItem).consumer.Resting? <==> s.consumer.seen == |s.popped|)
  {
    if p < |s.producers| && s.producers[p].TailLoaded? { WrapGap(|s.pushed|, s.producers[p].seen); }
    if s.consumer.SawHead? { WrapGap(s.consumer.seen, |s.popped|); }
  }

  ghost predicate Runs<T>(s: State<T>, steps: seq<Step<T>>)
    decreases |steps|
  {
    steps == [] || (Enabled(s, steps[0]) && Runs(Next(s, steps[0]), steps[1..]))
  }

  ghost function After<T>(s: State<T>, steps: seq<Step<T>>): State<T>
    requires Runs(s, steps)
    decreases |steps|
  {
    if steps == [] then s else After(Next(s, steps[0]), steps[1..])
  }

  /** Main theorem, whole runs: the consumer has taken a prefix of what was published, in order,
      and the rest is exactly what the ring still holds. */
  lemma {:induction false} RunRefinesFifo<T>(s: State<T>, steps: seq<Step<T>>)
    requires Inv(s) && Runs(s, steps)
    ensures var s' := After(s, steps);
            && Inv(s') && s'.pushed == s'.popped + QueueOf(s'.buf, |s'.popped|, |s'.pushed|)
            && |s'.pushed| - |s'.popped| <= |s'.buf|
    decreases |steps|
  {
    if steps != [] {
      StepRefinesFifo(s, steps[0]);
      RunRefinesFifo(Next(s, steps[0]), steps[1..]);
    }
  }

  /** A freshly initialised ring, with every producer and the consumer outside. */
  lemma FreshRing<T>(s: State<T>)
    requires Capacity(|s.buf|) && s.head == 0 && s.tail == 0 && s.lock.None? && s.consumer.Resting?
    requires s.pushed == [] && s.popped == []
    requires forall p :: 0 <= p < |s.producers| ==> s.producers[p].Outside?
    ensures Inv(s)
  {
  }

  // ---- undisturbed calls ------------------------------------------------------------------

  lemma StepThen<T>(s: State<T>, step: Step<T>, rest: seq<Step<T>>)
    requires Enabled(s, step) && Runs(Next(s, step), rest)
    ensures Runs(s, [step] + rest) && After(s, [step] + rest) == After(Next(s, step), rest)
  {
    assert ([step] + rest)[1..] == rest;
  }

  /** The stores of a producer that has decided to write, and the rest of its call. */
  lemma {:induction false} WriteAlone<T>(s: State<T>, p: nat) returns (steps: seq<Step<T>>)
    requires Inv(s) && p < |s.producers| && s.producers[p].Writing?
    ensures Runs(s, steps)
    ensures var s' := After(s, steps);
            && Inv(s') && |s'.producers| == |s.producers| && s'.producers[p].Outside? && s'.lock.None?
            && Queue(s') == Queue(s) + s.producers[p].items
    decreases 3 - s.producers[p].n
  {
    var q := s.producers[p];
    if q.n < |q.items| {
      StoreItemKeeps(s, p);
      var rest := WriteAlone(Next(s, StoreItem(p)), p);
      StepThen(s, StoreItem(p), rest);
      steps := [StoreItem(p)] + rest;
    } else {
      PublishKeeps(s, p);
      var s1 := Next(s, Publish(p));
      OtherKeeps(s1, Release(p));
      StepThen(s1, Release(p), []);
      StepThen(s, Publish(p), [Release(p)] + []);
      steps := [Publish(p)] + ([Release(p)] + []);
    }
  }

  /** From the decision on. */
  lemma DecideAlone<T>(s: State<T>, p: nat) returns (steps: seq<Step<T>>)
    requires Inv(s) && p < |s.producers| && s.producers[p].TailLoaded? && s.producers[p].seen == |s.popped|
    ensures Runs(s, steps)
    ensures var s', items := After(s, steps), s.producers[p].items;
            && Inv(s') && |s'.producers| == |s.producers| && s'.producers[p].Outside? && s'.lock.None?
            && Queue(s') == Queue(s) + if |Queue(s)| + |items| <= |s.buf| then items else []
  {
    DecideKeeps(s, p);
    RefusalsAreTrue(s, p);
    var s1 := Next(s, Decide(p));
    var rest;
    if s1.producers[p].Writing? {
      rest := WriteAlone(s1, p);
    } else {
      OtherKeeps(s1, Release(p));
      StepThen(s1, Release(p), []);
      rest := [Release(p)] + [];
    }
    StepThen(s, Decide(p), rest);
    steps := [Decide(p)] + rest;
  }

  /** A push that nobody disturbs appends its elements, or leaves the ring alone exactly if they do not
      fit, and frees the lock. */
  lemma PushAlone<T>(s: State<T>, p: nat, items: seq<T>) returns (steps: seq<Step<T>>)
    requires Inv(s) && Enabled(s, Acquire(p, items))
    ensures Runs(s, steps)
    ensures var s' := After(s, steps);
            && Inv(s') && |s'.producers| == |s.producers| && s'.producers[p].Outside? && s'.lock.None?
            && Queue(s') == Queue(s) + if |Queue(s)| + |items| <= |s.buf| then items else []
  {
    OtherKeeps(s, Acquire(p, items));
    var s1 := Next(s, Acquire(p, items));
    OtherKeeps(s1, LoadHead(p));
    var s2 := Next(s1, LoadHead(p));
    OtherKeeps(s2, LoadTail(p));
    var rest := DecideAlone(Next(s2, LoadTail(p)), p);
    StepThen(s2, LoadTail(p), rest);
    StepThen(s1, LoadHead(p), [LoadTail(p)] + rest);
    StepThen(s, Acquire(p, items), [LoadHead(p)] + ([LoadTail(p)] + rest));
    steps := [Acquire(p, items)] + ([LoadHead(p)] + ([LoadTail(p)] + rest));
  }

  /** A pop that nobody disturbs takes the oldest element, or nothing exactly if there is none. */
  lemma PopAlone<T>(s: State<T>) returns (steps: seq<Step<T>>)
    requires Inv(s) && s.consumer.Resting?
    ensures Runs(s, steps)
    ensures var s' := After(s, steps);
            && Inv(s') && s'.consumer.Resting?
            && (if Queue(s) == [] then s'.popped == s.popped && Queue(s') == []
                else s'.popped == s.popped + [Queue(s)[0]] && Queue(s') == Queue(s)[1..])
  {
    OtherKeeps(s, ReadTail);
    var s1 := Next(s, ReadTail);
    OtherKeeps(s1, ReadHead);
    var s2 := Next(s1, ReadHead);
    RefusalsAreTrue(s2, |s2.producers|);
    ReadItemKeeps(s2);
    var s3 := Next(s2, ReadItem);
    var rest: seq<Step<T>> := [];
    if s3.consumer.GotItem? {
      StoreTailKeeps(s3);
      StepThen(s3, StoreTail, []);
      rest := [StoreTail] + [];
    }
    StepThen(s2, ReadItem, rest);
    StepThen(s1, ReadHead, [ReadItem] + rest);
    StepThen(s, ReadTail, [ReadHead] + ([ReadItem] + rest));
    steps := [ReadTail] + ([ReadHead] + ([ReadItem] + rest));
  }

  // ---- counting without the lock ----------------------------------------------------------

  /** ne_ring_count loads the head in `s` and the tail after `steps`. */
  ghost function CountAcross<T>(s: State<T>, steps: seq<Step<T>>): u32
    requires Runs(s, steps)
  {
    Gap(s.head, After(s, steps).tail)
  }

  lemma {:induction false} HistoriesGrow<T>(s: State<T>, steps: seq<Step<T>>)
    requires Inv(s) && Runs(s, steps)
    ensures |s.pushed| <= |After(s, steps).pushed| && |s.popped| <= |After(s, steps).popped|
    ensures |After(s, steps).buf| == |s.buf|
    decreases |steps|
  {
    if steps != [] {
      StepRefinesFifo(s, steps[0]);
      HistoriesGrow(Next(s, steps[0]), steps[1..]);
    }
  }

  /** The count is what was pushed at the first load less what was popped at the second; it is
      negative, as a 32-bit word, exactly if the consumer overtook the first load. */
  lemma CountIs<T>(s: State<T>, steps: seq<Step<T>>)
    requires Inv(s) && Runs(s, steps)
    ensures var made, taken := |s.pushed|, |After(s, steps).popped|;
            && (taken <= made ==> CountAcross(s, steps) == made - taken <= |s.buf|)
            && (made < taken < made + WRAP ==> CountAcross(s, steps) == WRAP - (taken - made))
  {
    RunRefinesFifo(s, steps);
    HistoriesGrow(s, steps);
    var made, taken := |s.pushed|, |After(s, steps).popped|;
    if taken <= made { WrapGap(made, taken); } else if taken < made + WRAP { WrapGap(taken, made); }
  }

  lemma {:induction false} NoPop<T>(s: State<T>, steps: seq<Step<T>>)
    requires Inv(s) && Runs(s, steps) && forall i :: 0 <= i < |steps| ==> !steps[i].StoreTail?
    ensures After(s, steps).popped == s.popped
    decreases |steps|
  {
    if steps != [] {
      StepRefinesFifo(s, steps[0]);
      NoPop(Next(s, steps[0]), steps[1..]);
    }
  }

  /** The consumer's own count is never too high: what it counts is there to be popped. */
  lemma ConsumerCountIsSafe<T>(s: State<T>, steps: seq<Step<T>>)
    requires Inv(s) && Runs(s, steps) && forall i :: 0 <= i < |steps| ==> !steps[i].StoreTail?
    ensures CountAcross(s, steps) == |Queue(s)|
    ensures |After(s, steps).popped| + CountAcross(s, steps) <= |After(s, steps).pushed|
  {
    NoPop(s, steps);
    CountIs(s, steps);
    HistoriesGrow(s, steps);
  }

  /** The check before a split push, count + 2 > capacity on 32-bit words, refuses exactly if two
      slots were missing or the consumer has overtaken the count by more than two: in the second
      case it refuses a ring that has room. */
  lemma SplitCheckIff<T>(s: State<T>, steps: seq<Step<T>>)
    requires Inv(s) && Runs(s, steps) && |After(s, steps).popped| <= |s.pushed| + WRAP - |s.buf|
    ensures var made, taken := |s.pushed|, |After(s, steps).popped|;
            Bump(CountAcross(s, steps), 2) > |s.buf| <==> made - taken + 2 > |s.buf| || taken > made + 2
  {
    CountIs(s, steps);
    AtMostHalf(|s.buf|);
  }
}
