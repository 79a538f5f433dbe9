/** Stickiness: any two completed lookups of one flow return the same route, under every
    interleaving of lock-free scans, locked inserts and publications. */
module FlowSticky {
  import opened Limits
  import opened FlowTable
  import opened FlowSteps

  // ---- what the table says of a key ----------------------------------------------------

  predicate At(slots: seq<Entry>, i: nat, k: Key) {
    i < |slots| && slots[i].valid && slots[i].key == k
  }

  ghost predicate Resident(c: Config, slots: seq<Entry>, k: Key) {
    exists w :: 0 <= w < WAYS && At(slots, Loc(c, k, w), k)
  }

  /** The key's set is full of other flows. */
  predicate Saturated(c: Config, slots: seq<Entry>, k: Key)
    requires |slots| == SLOTS
  {
    forall w :: 0 <= w < WAYS ==> slots[Loc(c, k, w)].valid && slots[Loc(c, k, w)].key != k
  }

  /** The table determines the route of `k` to be `r`: an entry holds it, or no entry ever can. */
  ghost predicate Settled(c: Config, slots: seq<Entry>, k: Key, r: Route)
    requires ConfigOk(c) && |slots| == SLOTS
  {
    || (exists w :: 0 <= w < WAYS && At(slots, Loc(c, k, w), k) && slots[Loc(c, k, w)].route == r)
    || (Saturated(c, slots, k) && r == HashRoute(c, k))
  }

  predicate InRange(c: Config, r: Route) { r.worker < WORKERS && r.tx < c.active }

  /** Entries live in their key's set, no key has two, and their routes exist. */
  ghost predicate Placed(c: Config, slots: seq<Entry>)
    requires |slots| == SLOTS
  {
    && (forall i :: 0 <= i < SLOTS && slots[i].valid ==> InRange(c, slots[i].route))
    && (forall i :: 0 <= i < SLOTS && slots[i].valid ==> i / WAYS == c.hash(slots[i].key) % SETS)
    && (forall i, j :: 0 <= i < j < SLOTS && slots[i].valid && slots[j].valid ==> slots[i].key != slots[j].key)
  }

  // ---- what each thread knows ------------------------------------------------------------

  /** Way `e` is the first free one of the set and no way holds `k`. */
  ghost predicate Vacant(c: Config, slots: seq<Entry>, k: Key, e: nat)
    requires |slots| == SLOTS
  {
    && e < WAYS && !slots[Loc(c, k, e)].valid && (forall w :: 0 <= w < WAYS ==> !At(slots, Loc(c, k, w), k))
    && forall w :: 0 <= w < e ==> slots[Loc(c, k, w)].valid
  }

  predicate Written(e: Entry, p: Pc)
    requires p.Fill?
  {
    && (p.stage > 0 ==> e.key == p.k)
    && (p.stage > 1 ==> e.seq0 == e.seq1 == 0)
    && (p.stage > 2 ==> e.route == p.r)
  }

  /** The second search for a sequence counter finds the entry at or after way `w`, unless the
      set is saturated. */
  ghost predicate Ahead(c: Config, slots: seq<Entry>, k: Key, w: nat)
    requires |slots| == SLOTS
  {
    (exists j :: w <= j < WAYS && At(slots, Loc(c, k, j), k)) || Saturated(c, slots, k)
  }

  ghost predicate Knows(c: Config, slots: seq<Entry>, p: Pc)
    requires ConfigOk(c) && |slots| == SLOTS
  {
    match p
    case Idle => true
    case Find(k, _, _, again, w) => w <= WAYS && (again ==> Ahead(c, slots, k, w))
    case FindHit(k, _, _, again, w) =>
      w < WAYS && slots[Loc(c, k, w)].valid && (again ==> Ahead(c, slots, k, w))
    case Scan(_, _, _, w) => w <= WAYS
    case ScanHit(_, k, _, w) => w < WAYS && slots[Loc(c, k, w)].valid
    case Lock(_, _, _) => true
    case Rescan(_, k, _, w, empty) =>
      && w <= WAYS && -1 <= empty < w
      && (forall j :: 0 <= j < w ==> !At(slots, Loc(c, k, j), k))
      && (empty < 0 ==> forall j :: 0 <= j < w ==> slots[Loc(c, k, j)].valid)
      && (empty >= 0 ==> !slots[Loc(c, k, empty)].valid && forall j :: 0 <= j < empty ==> slots[Loc(c, k, j)].valid)
    case PickWorker(_, k, _, e) => Vacant(c, slots, k, e)
    case PickTx(_, k, _, worker, e) => worker < WORKERS && Vacant(c, slots, k, e)
    case Fill(_, k, _, r, e, stage) =>
      r.worker < WORKERS && r.tx < c.active && stage <= 5 && Vacant(c, slots, k, e)
      && Written(slots[Loc(c, k, e)], p)
    case Unlock(_, k, r) => Settled(c, slots, k, r)
    case Fallback(k, _) => Saturated(c, slots, k)
  }

  ghost predicate LockOk(s: State) {
    forall t :: 0 <= t < |s.pcs| ==> (Holding(s.pcs[t]) <==> s.owner == t)
  }

  ghost predicate Inv(c: Config, s: State) {
    && ConfigOk(c) && Shape(s) && LockOk(s) && Placed(c, s.slots)
    && (forall t :: 0 <= t < |s.pcs| ==> Knows(c, s.slots, s.pcs[t]))
    && (forall j :: 0 <= j < |s.done| ==> Settled(c, s.slots, s.done[j].0, s.done[j].1))
  }

  // ---- stability ----------------------------------------------------------------------------

  /** Published entries never change key or route and are never withdrawn. */
  predicate Grows(a: seq<Entry>, b: seq<Entry>) {
    |a| == |b| &&
    forall i :: 0 <= i < |a| && a[i].valid ==> b[i].valid && b[i].key == a[i].key && b[i].route == a[i].route
  }

  /** Besides, nothing is published and unpublished entries stay as they are. */
  predicate Steady(a: seq<Entry>, b: seq<Entry>) {
    Grows(a, b) && forall i :: 0 <= i < |a| && !a[i].valid ==> b[i] == a[i]
  }

  lemma SettledStable(c: Config, a: seq<Entry>, b: seq<Entry>, k: Key, r: Route)
    requires ConfigOk(c) && |a| == SLOTS && Grows(a, b) && Settled(c, a, k, r)
    ensures Settled(c, b, k, r)
  {
  }

  /** Two routes settled for one key are equal. */
  lemma SettledOnce(c: Config, slots: seq<Entry>, k: Key, r: Route, q: Route)
    requires ConfigOk(c) && |slots| == SLOTS && Placed(c, slots)
    requires Settled(c, slots, k, r) && Settled(c, slots, k, q)
    ensures r == q
  {
  }

  /** A thread without the lock keeps what it knows as the table grows; the lock's owner keeps it
      while the other threads only move sequence counters. */
  lemma KnowsStable(c: Config, a: seq<Entry>, b: seq<Entry>, p: Pc)
    requires ConfigOk(c) && |a| == SLOTS && Knows(c, a, p) && Grows(a, b)
    requires Holding(p) ==> Steady(a, b)
    ensures Knows(c, b, p)
  {
  }

  // ---- one step --------------------------------------------------------------------------------

  /** Thread `t` moves from `p` to `q`, possibly completing lookups. */
  ghost predicate Moves(c: Config, s: State, s': State, t: nat, q: Pc) {
    && Shape(s) && Shape(s') && t < |s.pcs| && s'.pcs == s.pcs[t := q]
    && Grows(s.slots, s'.slots) && (s.owner != t && s.owner != -1 ==> Steady(s.slots, s'.slots))
    && (if Holding(s.pcs[t]) == Holding(q) then s'.owner == s.owner
        else if Holding(q) then s.owner == -1 && s'.owner == t
        else s'.owner == -1)
  }

  lemma MovesKeepsInv(c: Config, s: State, s': State, t: nat, q: Pc)
    requires Inv(c, s) && Moves(c, s, s', t, q) && Placed(c, s'.slots) && Knows(c, s'.slots, q)
    requires s'.done == s.done ||
             exists k, r :: s'.done == s.done + [(k, r)] && Settled(c, s'.slots, k, r)
    ensures Inv(c, s')
  {
    forall u | 0 <= u < |s'.pcs| ensures Knows(c, s'.slots, s'.pcs[u]) && (Holding(s'.pcs[u]) <==> s'.owner == u) {
      if u != t {
        assert s'.pcs[u] == s.pcs[u];
        assert Holding(s.pcs[u]) <==> s.owner == u;
        assert Holding(s.pcs[t]) <==> s.owner == t;
        KnowsStable(c, s.slots, s'.slots, s.pcs[u]);
      } else {
        assert Holding(s.pcs[t]) <==> s.owner == t;
      }
    }
    forall j | 0 <= j < |s'.done| ensures Settled(c, s'.slots, s'.done[j].0, s'.done[j].1) {
      if j < |s.done| {
        assert s'.done[j] == s.done[j];
        SettledStable(c, s.slots, s'.slots, s.done[j].0, s.done[j].1);
      }
    }
  }

  /** Loading `valid` of way `w` and finding it clear, or the key different, moves a second search
      past `w`. */
  lemma AheadPasses(c: Config, slots: seq<Entry>, k: Key, w: nat)
    requires |slots| == SLOTS && w < WAYS && Ahead(c, slots, k, w) && !At(slots, Loc(c, k, w), k)
    ensures Ahead(c, slots, k, w + 1)
  {
  }

  lemma FindKeeps(c: Config, s: State, t: nat)
    requires Inv(c, s) && t < |s.pcs| && s.pcs[t].Find?
    ensures Inv(c, RunFind(c, s, t, s.pcs[t]))
  {
    var p := s.pcs[t];
    var s' := RunFind(c, s, t, p);
    assert Knows(c, s.slots, p);
    if p.w < WAYS && !s.slots[Loc(c, p.k, p.w)].valid && p.again {
      AheadPasses(c, s.slots, p.k, p.w);
    }
    MovesKeepsInv(c, s, s', t, s'.pcs[t]);
  }

  lemma FindHitKeeps(c: Config, s: State, t: nat)
    requires Inv(c, s) && t < |s.pcs| && s.pcs[t].FindHit? && s.pcs[t].w < WAYS
    ensures Inv(c, RunFindHit(c, s, t, s.pcs[t]))
  {
    var p := s.pcs[t];
    var s' := RunFindHit(c, s, t, p);
    assert Knows(c, s.slots, p);
    if s.slots[Loc(c, p.k, p.w)].key != p.k && p.again {
      AheadPasses(c, s.slots, p.k, p.w);
    }
    MovesKeepsInv(c, s, s', t, s'.pcs[t]);
  }

  lemma ScanKeeps(c: Config, s: State, t: nat)
    requires Inv(c, s) && t < |s.pcs| && s.pcs[t].Scan?
    ensures Inv(c, RunScan(c, s, t, s.pcs[t]))
  {
  }

  lemma FinishKeeps(c: Config, s: State, owner: int, t: nat, goal: Goal, k: Key, r: Route)
    requires Inv(c, s) && t < |s.pcs| && Settled(c, s.slots, k, r)
    requires owner == if Holding(s.pcs[t]) then -1 else s.owner
    ensures Inv(c, Finish(s.(owner := owner), t, goal, k, r))
  {
  }

  lemma ScanHitKeeps(c: Config, s: State, t: nat)
    requires Inv(c, s) && t < |s.pcs| && s.pcs[t].ScanHit? && s.pcs[t].w < WAYS
    ensures Inv(c, RunScanHit(c, s, t, s.pcs[t]))
  {
  }

  lemma LockKeeps(c: Config, s: State, t: nat)
    requires Inv(c, s) && t < |s.pcs| && s.pcs[t].Lock?
    ensures Inv(c, RunLock(s, t, s.pcs[t]))
  {
  }

  lemma RescanKeeps(c: Config, s: State, t: nat)
    requires Inv(c, s) && t < |s.pcs| && s.pcs[t].Rescan?
    ensures Inv(c, RunRescan(c, s, t, s.pcs[t]))
  {
    var p := s.pcs[t];
    var s' := RunRescan(c, s, t, p);
    assert Knows(c, s.slots, p);
    if p.w < WAYS && s.slots[Loc(c, p.k, p.w)].valid && s.slots[Loc(c, p.k, p.w)].key == p.k {
      assert At(s.slots, Loc(c, p.k, p.w), p.k);
    } else if p.w >= WAYS && p.empty < 0 {
      forall w | 0 <= w < WAYS
        ensures s.slots[Loc(c, p.k, w)].valid && s.slots[Loc(c, p.k, w)].key != p.k
      {
        assert !At(s.slots, Loc(c, p.k, w), p.k);
      }
      assert Saturated(c, s.slots, p.k);
    }
    MovesKeepsInv(c, s, s', t, s'.pcs[t]);
  }

  lemma PickKeeps(c: Config, s: State, t: nat)
    requires Inv(c, s) && t < |s.pcs| && (s.pcs[t].PickWorker? || s.pcs[t].PickTx?)
    ensures Inv(c, RunThread(c, s, t))
  {
  }

  /** An entry is found by probing its own key's ways. */
  lemma InOwnSet(c: Config, slots: seq<Entry>, j: nat)
    requires |slots| == SLOTS && Placed(c, slots) && j < SLOTS && slots[j].valid
    ensures j == Loc(c, slots[j].key, j % WAYS) && At(slots, Loc(c, slots[j].key, j % WAYS), slots[j].key)
  {
  }

  lemma FillKeeps(c: Config, s: State, t: nat)
    requires Inv(c, s) && t < |s.pcs| && s.pcs[t].Fill? && Positioned(s.pcs[t])
    ensures Inv(c, RunFill(c, s, t, s.pcs[t]))
  {
    var p := s.pcs[t];
    var s' := RunFill(c, s, t, p);
    assert Knows(c, s.slots, p);
    var i := Loc(c, p.k, p.e);
    assert Holding(p) <==> s.owner == t;
    if p.stage < 5 {
      assert Vacant(c, s'.slots, p.k, p.e) by {
        forall w | 0 <= w < WAYS ensures !At(s'.slots, Loc(c, p.k, w), p.k) {
          assert !At(s.slots, Loc(c, p.k, w), p.k);
        }
      }
    } else {
      forall j | 0 <= j < SLOTS && s.slots[j].valid ensures s.slots[j].key != p.k {
        InOwnSet(c, s.slots, j);
      }
      assert At(s'.slots, Loc(c, p.k, p.e), p.k);
    }
    MovesKeepsInv(c, s, s', t, s'.pcs[t]);
  }

  /** Every step of every thread keeps the invariant. */
  lemma StepKeepsInv(c: Config, s: State, step: Step)
    requires Inv(c, s)
    ensures forall t :: 0 <= t < |s.pcs| ==> Positioned(s.pcs[t])
    ensures Inv(c, Apply(c, s, step))
  {
    forall t | 0 <= t < |s.pcs| ensures Positioned(s.pcs[t]) {
      assert Knows(c, s.slots, s.pcs[t]);
    }
    if step.t < |s.pcs| {
      var p := s.pcs[step.t];
      if step.Run? {
        match p
        case Idle =>
        case Find(_, _, _, _, _) => FindKeeps(c, s, step.t);
        case FindHit(_, _, _, _, _) => FindHitKeeps(c, s, step.t);
        case Scan(_, _, _, _) => ScanKeeps(c, s, step.t);
        case ScanHit(_, _, _, _) => ScanHitKeeps(c, s, step.t);
        case Lock(_, _, _) => LockKeeps(c, s, step.t);
        case Rescan(_, _, _, _, _) => RescanKeeps(c, s, step.t);
        case PickWorker(_, _, _, _) => PickKeeps(c, s, step.t);
        case PickTx(_, _, _, _, _) => PickKeeps(c, s, step.t);
        case Fill(_, _, _, _, _, _) => FillKeeps(c, s, step.t);
        case Unlock(goal, k, r) =>
          assert Knows(c, s.slots, p);
          FinishKeeps(c, s, -1, step.t, goal, k, r);
        case Fallback(k, dir) =>
          var s' := Apply(c, s, step);
          MovesKeepsInv(c, s, s', step.t, Idle);
      } else if p.Idle? {
        var s' := Apply(c, s, step);
        MovesKeepsInv(c, s, s', step.t, s'.pcs[step.t]);
      }
    }
  }

  // ---- whole runs -------------------------------------------------------------------------------

  lemma InitKeepsInv(c: Config, threads: nat)
    requires ConfigOk(c)
    ensures Inv(c, Init(threads))
  {
  }

  /** The states of a run; `Reach` folds the steps one by one. */
  ghost function Reach(c: Config, s: State, steps: seq<Step>): (s': State)
    requires Inv(c, s)
    ensures Inv(c, s')
    decreases |steps|
  {
    if steps == [] then s
    else
      StepKeepsInv(c, s, steps[0]);
      Reach(c, Apply(c, s, steps[0]), steps[1..])
  }

  /** Stickiness. In every run of any number of threads, any two completed lookups of one key,
      whatever their hints and however they interleave, returned the same worker and TX slot, and
      these exist. */
  lemma LookupsAreSticky(c: Config, threads: nat, steps: seq<Step>, i: nat, j: nat)
    requires ConfigOk(c)
    ensures Inv(c, Init(threads))
    ensures var done := Reach(c, Init(threads), steps).done;
            i < |done| && j < |done| && done[i].0 == done[j].0 ==> done[i].1 == done[j].1 && InRange(c, done[i].1)
  {
    InitKeepsInv(c, threads);
    var s := Reach(c, Init(threads), steps);
    if i < |s.done| && j < |s.done| && s.done[i].0 == s.done[j].0 {
      SettledOnce(c, s.slots, s.done[i].0, s.done[i].1, s.done[j].1);
    }
  }

  /** A lookup answered without an entry was answered by the flow's hash, and the set is full of other
      flows. */
  lemma OthersAreHashed(c: Config, threads: nat, steps: seq<Step>, i: nat)
    requires ConfigOk(c) && Inv(c, Init(threads))
    requires var s := Reach(c, Init(threads), steps); i < |s.done| && !Resident(c, s.slots, s.done[i].0)
    ensures var s := Reach(c, Init(threads), steps);
            var (k, r) := s.done[i];
            && r.worker == c.hash(k) % 6 && r.tx == c.hash(k) % c.active
            && forall w :: 0 <= w < 8 ==> s.slots[Loc(c, k, w)].valid && s.slots[Loc(c, k, w)].key != k
  {
    var s := Reach(c, Init(threads), steps);
    assert Settled(c, s.slots, s.done[i].0, s.done[i].1);
  }

  /** So both directions of a flow share one route. */
  lemma DirectionsShareRoute(c: Config, threads: nat, steps: seq<Step>, i: nat, j: nat, t: Tuple)
    requires ConfigOk(c) && KeyOf(t).Some?
    ensures Inv(c, Init(threads)) && KeyOf(Reverse(t)).Some?
    ensures var done := Reach(c, Init(threads), steps).done;
            i < |done| && j < |done| && done[i].0 == KeyOf(t).value.0 && done[j].0 == KeyOf(Reverse(t)).value.0
            ==> done[i].1 == done[j].1
  {
    KeyIsCanonical(t, t);
    LookupsAreSticky(c, threads, steps, i, j);
  }
}
