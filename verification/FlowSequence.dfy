/** Sequence numbers: each direction of a table-resident flow is served 0, 1, 2, ... modulo 2^32,
    and no flow is ever served from both the table and the worker-local fallback. */
module FlowSequence {
  import opened RingIndex
  import opened FlowTable
  import opened FlowSteps
  import opened FlowSticky

  /** Table issues to one direction of a flow among the first `n` issues. */
  function Served(log: seq<Issue>, n: nat, k: Key, dir: bool): nat
    requires n <= |log|
  {
    if n == 0 then 0
    else Served(log, n - 1, k, dir) +
         if log[n - 1].table && log[n - 1].key == k && log[n - 1].dir == dir then 1 else 0
  }

  lemma {:induction false} ServedPrefix(log: seq<Issue>, more: seq<Issue>, n: nat, k: Key, dir: bool)
    requires n <= |log|
    ensures Served(log + more, n, k, dir) == Served(log, n, k, dir)
  {
    if n > 0 { ServedPrefix(log, more, n - 1, k, dir); }
  }

  lemma ServedNext(log: seq<Issue>, x: Issue, k: Key, dir: bool)
    ensures Served(log + [x], |log| + 1, k, dir) ==
            Served(log, |log|, k, dir) + if x.table && x.key == k && x.dir == dir then 1 else 0
  {
    ServedPrefix(log, [x], |log|, k, dir);
  }

  lemma {:induction false} NeverServed(log: seq<Issue>, n: nat, k: Key, dir: bool)
    requires n <= |log| && forall j :: 0 <= j < n && log[j].table ==> log[j].key != k
    ensures Served(log, n, k, dir) == 0
  {
    if n > 0 { NeverServed(log, n - 1, k, dir); }
  }

  // ---- invariant -------------------------------------------------------------------------

  /** Resident counters agree with the log. */
  ghost predicate CountersAgree(slots: seq<Entry>, log: seq<Issue>) {
    forall i, dir :: 0 <= i < |slots| && slots[i].valid ==>
      slots[i].Next(dir) == Served(log, |log|, slots[i].key, dir) % WRAP
  }

  ghost predicate Sources(c: Config, slots: seq<Entry>, log: seq<Issue>)
    requires |slots| == SLOTS
  {
    forall j :: 0 <= j < |log| ==>
      if log[j].table then Resident(c, slots, log[j].key) else Saturated(c, slots, log[j].key)
  }

  ghost predicate Consecutive(log: seq<Issue>) {
    forall j :: 0 <= j < |log| && log[j].table ==> log[j].value == Served(log, j, log[j].key, log[j].dir) % WRAP
  }

  ghost predicate SeqInv(c: Config, s: State) {
    Inv(c, s) && CountersAgree(s.slots, s.issued) && Sources(c, s.slots, s.issued) && Consecutive(s.issued)
  }

  lemma SourcesStable(c: Config, a: seq<Entry>, b: seq<Entry>, log: seq<Issue>)
    requires |a| == SLOTS && Grows(a, b) && Sources(c, a, log)
    ensures Sources(c, b, log)
  {
  }

  lemma LogGrows(log: seq<Issue>, x: Issue)
    requires Consecutive(log) && (x.table ==> x.value == Served(log, |log|, x.key, x.dir) % WRAP)
    ensures Consecutive(log + [x])
  {
    var more := log + [x];
    forall j | 0 <= j < |more| && more[j].table
      ensures more[j].value == Served(more, j, more[j].key, more[j].dir) % WRAP
    {
      var y := more[j];
      ServedPrefix(log, [x], j, y.key, y.dir);
      if j < |log| { assert log[j] == y; } else { assert y == x; }
    }
  }

  // ---- steps ------------------------------------------------------------------------------

  lemma TakeAgrees(s: State, t: nat, i: nat, dir: bool, j: nat, d: bool)
    requires t < |s.pcs| && i < |s.slots| && s.slots[i].valid && CountersAgree(s.slots, s.issued)
    requires j < |s.slots| && s.slots[j].valid && (s.slots[j].key == s.slots[i].key ==> j == i)
    ensures var s' := TakeNext(s, t, i, dir);
            s'.slots[j].Next(d) == Served(s'.issued, |s'.issued|, s'.slots[j].key, d) % WRAP
  {
    var k := s.slots[i].key;
    assert s.slots[j].Next(d) == Served(s.issued, |s.issued|, s.slots[j].key, d) % WRAP;
    ServedNext(s.issued, Issue(k, dir, s.slots[i].Next(dir), true), s.slots[j].key, d);
    if j == i && d == dir { WrapBump(Served(s.issued, |s.issued|, k, d), 1); }
  }

  /** A fetch-add serves the flow's next number. */
  lemma TakeKeepsSeq(c: Config, s: State, t: nat, i: nat, dir: bool, w: nat)
    requires SeqInv(c, s) && t < |s.pcs| && i < SLOTS && s.slots[i].valid
    requires w < WAYS && i == Loc(c, s.slots[i].key, w)
    requires Inv(c, TakeNext(s, t, i, dir))
    ensures SeqInv(c, TakeNext(s, t, i, dir))
  {
    var s' := TakeNext(s, t, i, dir);
    var k := s.slots[i].key;
    var x := Issue(k, dir, s.slots[i].Next(dir), true);
    assert s'.issued == s.issued + [x];
    forall j, d | 0 <= j < SLOTS && s'.slots[j].valid
      ensures s'.slots[j].Next(d) == Served(s'.issued, |s'.issued|, s'.slots[j].key, d) % WRAP
    {
      TakeAgrees(s, t, i, dir, j, d);
    }
    SourcesStable(c, s.slots, s'.slots, s.issued);
    assert At(s'.slots, Loc(c, k, w), k);
    assert Resident(c, s'.slots, k);
    LogGrows(s.issued, x);
  }

  /** A newly published flow has never been served. */
  lemma PublishKeepsSeq(c: Config, s: State, t: nat)
    requires SeqInv(c, s) && t < |s.pcs| && s.pcs[t].Fill? && Positioned(s.pcs[t])
    requires Inv(c, RunFill(c, s, t, s.pcs[t]))
    ensures SeqInv(c, RunFill(c, s, t, s.pcs[t]))
  {
    var p := s.pcs[t];
    var s' := RunFill(c, s, t, p);
    assert Knows(c, s.slots, p);
    assert Grows(s.slots, s'.slots);
    forall j | 0 <= j < |s.issued| && s.issued[j].table ensures s.issued[j].key != p.k {
      assert Resident(c, s.slots, s.issued[j].key);
    }
    NeverServed(s.issued, |s.issued|, p.k, false);
    NeverServed(s.issued, |s.issued|, p.k, true);
    forall i, d | 0 <= i < SLOTS && s'.slots[i].valid
      ensures s'.slots[i].Next(d) == Served(s'.issued, |s'.issued|, s'.slots[i].key, d) % WRAP
    {
      if s.slots[i].valid {
        assert s'.slots[i] == s.slots[i];
        assert s.slots[i].Next(d) == Served(s.issued, |s.issued|, s.slots[i].key, d) % WRAP;
      }
    }
    SourcesStable(c, s.slots, s'.slots, s.issued);
  }

  lemma FallbackKeepsSeq(c: Config, s: State, t: nat)
    requires SeqInv(c, s) && t < |s.pcs| && s.pcs[t].Fallback? && Positioned(s.pcs[t])
    requires Inv(c, RunThread(c, s, t))
    ensures SeqInv(c, RunThread(c, s, t))
  {
    var p := s.pcs[t];
    var s' := RunThread(c, s, t);
    var x := Issue(p.k, p.dir, 0, false);
    assert Knows(c, s.slots, p);
    assert s'.issued == s.issued + [x];
    forall i, d | 0 <= i < SLOTS && s'.slots[i].valid
      ensures s'.slots[i].Next(d) == Served(s'.issued, |s'.issued|, s'.slots[i].key, d) % WRAP
    {
      assert s.slots[i].Next(d) == Served(s.issued, |s.issued|, s.slots[i].key, d) % WRAP;
      ServedNext(s.issued, x, s.slots[i].key, d);
    }
    LogGrows(s.issued, x);
  }

  lemma StepKeepsSeq(c: Config, s: State, step: Step)
    requires SeqInv(c, s)
    ensures forall t :: 0 <= t < |s.pcs| ==> Positioned(s.pcs[t])
    ensures SeqInv(c, Apply(c, s, step))
  {
    StepKeepsInv(c, s, step);
    if step.t < |s.pcs| && step.Run? {
      var p := s.pcs[step.t];
      assert Knows(c, s.slots, p);
      if p.FindHit? && s.slots[Loc(c, p.k, p.w)].key == p.k {
        TakeKeepsSeq(c, s, step.t, Loc(c, p.k, p.w), p.dir, p.w);
      } else if p.Fill? {
        PublishKeepsSeq(c, s, step.t);
      } else if p.Fallback? {
        FallbackKeepsSeq(c, s, step.t);
      }
    }
  }

  // ---- whole runs ------------------------------------------------------------------------------

  lemma {:induction false} RunKeepsSeq(c: Config, s: State, steps: seq<Step>)
    requires SeqInv(c, s)
    ensures SeqInv(c, Reach(c, s, steps))
    decreases |steps|
  {
    if steps != [] {
      StepKeepsSeq(c, s, steps[0]);
      RunKeepsSeq(c, Apply(c, s, steps[0]), steps[1..]);
    }
  }

  /** In every run: the n-th number the table hands to one direction of a flow is n modulo 2^32,
      and the table and the fallback never serve the same flow. */
  lemma SequencesAreConsecutive(c: Config, threads: nat, steps: seq<Step>, i: nat, j: nat)
    requires ConfigOk(c)
    ensures Inv(c, Init(threads))
    ensures var log := Reach(c, Init(threads), steps).issued;
            && (i < |log| && log[i].table ==> log[i].value == Served(log, i, log[i].key, log[i].dir) % WRAP)
            && (i < |log| && j < |log| && log[i].key == log[j].key ==> log[i].table == log[j].table)
  {
    InitKeepsInv(c, threads);
    RunKeepsSeq(c, Init(threads), steps);
    var s := Reach(c, Init(threads), steps);
    var log := s.issued;
    if i < |log| && j < |log| && log[i].key == log[j].key && log[i].table != log[j].table {
      assert false;
    }
  }
}
