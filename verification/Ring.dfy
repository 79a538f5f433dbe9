/** The bounded FIFO behind packet rings and the frame pool: 32-bit indices over a fixed buffer. */
module Ring {
  import opened Bytes
  import opened RingIndex

  /** Elements number `from` up to `to` of everything ever queued, as the buffer holds them. */
  function QueueOf<T>(b: seq<T>, from: nat, to: nat): (q: seq<T>)
    requires |b| > 0 && from <= to
    ensures |q| == to - from
  {
    seq(to - from, i requires 0 <= i < to - from => b[Slot(from + i, |b|)])
  }

  /** Writing the next free slot appends to the queue. */
  lemma QueueExtends<T>(b: seq<T>, from: nat, to: nat, x: T)
    requires |b| > 0 && from <= to < from + |b|
    ensures QueueOf(b[Slot(to, |b|) := x], from, to + 1) == QueueOf(b, from, to) + [x]
  {
    var b' := b[Slot(to, |b|) := x];
    forall i | 0 <= i < to - from ensures QueueOf(b', from, to + 1)[i] == QueueOf(b, from, to)[i] {
      SlotsDiffer(from + i, to, |b|);
    }
  }

  class Ring<T(0)> {
    const buf: array<T>
    const cap: u32
    var head: u32
    var tail: u32
    ghost var pushes: nat  // what `head` would be without wrap-around
    ghost var pops: nat    // what `tail` would be without wrap-around

    ghost predicate Valid()
      reads this
    {
      && Capacity(cap) && buf.Length == cap
      && pops <= pushes <= pops + cap
      && head == pushes % WRAP && tail == pops % WRAP
    }

    /** The queue, oldest element first. */
    ghost function Contents(): (s: seq<T>)
      requires Valid()
      reads this, buf
      ensures |s| == pushes - pops
    {
      QueueOf(buf[..], pops, pushes)
    }

    constructor (cap: u32)
      requires Capacity(cap)
      ensures Valid() && this.cap == cap && Contents() == [] && fresh(buf)
    {
      this.cap := cap;
      buf := new T[cap];
      head, tail, pushes, pops := 0, 0, 0, 0;
    }

    /** The 32-bit subtraction gives the true length whatever the indices have wrapped to. */
    method Count() returns (n: u32)
      requires Valid()
      ensures n == |Contents()|
    {
      WrapGap(pushes, pops);
      n := Gap(head, tail);
    }

    /** Writes element number `n`, whose wrapped index is `at`, right behind the queue. */
    method Put(at: u32, ghost n: nat, x: T)
      requires Capacity(cap) && buf.Length == cap && at == n % WRAP && pops <= n < pops + cap
      modifies buf
      ensures QueueOf(buf[..], pops, n + 1) == old(QueueOf(buf[..], pops, n)) + [x]
    {
      WrapSlot(n, cap);
      QueueExtends(buf[..], pops, n, x);
      ghost var b := buf[..];
      buf[at % cap] := x;
      assert buf[..] == b[Slot(n, cap) := x];
    }

    method TryPush(x: T) returns (ok: bool)
      requires Valid()
      modifies this`head, this`pushes, buf
      ensures Valid()
      ensures ok == (old(|Contents()|) < cap)
      ensures Contents() == if ok then old(Contents()) + [x] else old(Contents())
    {
      WrapGap(pushes, pops);
      if Gap(head, tail) >= cap { return false; }
      Put(head, pushes, x);
      WrapBump(pushes, 1);
      head, pushes := Bump(head, 1), pushes + 1;
      ok := true;
    }

    /** Both elements are queued, next to each other, or neither is. */
    method TryPushPair(x: T, y: T) returns (ok: bool)
      requires Valid()
      modifies this`head, this`pushes, buf
      ensures Valid()
      ensures ok == (old(|Contents()|) + 2 <= cap)
      ensures Contents() == if ok then old(Contents()) + [x, y] else old(Contents())
    {
      if cap < 2 { return false; }
      WrapGap(pushes, pops);
      if Gap(head, tail) > cap - 2 { return false; }
      Put(head, pushes, x);
      WrapBump(pushes, 1);
      Put(Bump(head, 1), pushes + 1, y);
      WrapBump(pushes, 2);
      head, pushes := Bump(head, 2), pushes + 2;
      ok := true;
    }

    method TryPop() returns (x: Option<T>)
      requires Valid()
      modifies this`tail, this`pops
      ensures Valid()
      ensures x == if old(Contents()) == [] then None else Some(old(Contents())[0])
      ensures Contents() == if x.None? then [] else old(Contents())[1..]
    {
      WrapGap(pushes, pops);
      if tail == head { return None; }
      WrapSlot(pops, cap);
      x := Some(buf[tail % cap]);
      WrapBump(pops, 1);
      tail, pops := Bump(tail, 1), pops + 1;
    }

    /** pool_push: queues as many of the elements as there is room for. */
    method PushMany(xs: seq<T>) returns (put: nat)
      requires Valid() && |xs| < WRAP
      modifies this`head, this`pushes, buf
      ensures Valid()
      ensures put == if |xs| < old(cap - |Contents()|) then |xs| else old(cap - |Contents()|)
      ensures Contents() == old(Contents()) + xs[..put]
    {
      WrapGap(pushes, pops);
      var free := cap - Gap(head, tail);
      put := if |xs| < free then |xs| else free;
      for i := 0 to put
        invariant Valid() && pushes == old(pushes) && pops == old(pops) && head == old(head)
        invariant QueueOf(buf[..], pops, pushes + i) == old(Contents()) + xs[..i]
      {
        WrapBump(pushes, i);
        Put(Bump(head, i), pushes + i, xs[i]);
        assert xs[..i + 1] == xs[..i] + [xs[i]];
      }
      WrapBump(pushes, put);
      head, pushes := Bump(head, put), pushes + put;
    }

    /** pool_pop: takes up to `n` elements from the front. */
    method PopMany(n: u32) returns (xs: seq<T>)
      requires Valid()
      modifies this`tail, this`pops
      ensures Valid()
      ensures |xs| == if n < old(|Contents()|) then n else old(|Contents()|)
      ensures xs == old(Contents())[..|xs|] && Contents() == old(Contents())[|xs|..]
    {
      WrapGap(pushes, pops);
      var avail := Gap(head, tail);
      var got := if n < avail then n else avail;
      ghost var q := Contents();
      xs := [];
      for i := 0 to got
        invariant Valid() && Contents() == q && tail == old(tail) && pops == old(pops)
        invariant xs == q[..i]
      {
        WrapBump(pops, i);
        WrapSlot(pops + i, cap);
        xs := xs + [buf[Bump(tail, i) % cap]];
      }
      WrapBump(pops, got);
      tail, pops := Bump(tail, got), pops + got;
    }
  }
}
