/** Accounting: connection counters count published flows, TX loads stay within one of each other,
    and the round-robin cursors never wrap. */
module FlowAccounts {
  import opened Bytes
  import opened Limits
  import opened FlowTable
  import opened FlowSteps
  import opened FlowSticky

  /** Which counter an entry belongs to. */
  function Side(e: Entry, tx: bool): nat { if tx then e.route.tx else e.route.worker }

  /** Published entries among the first `n` slots that are assigned to `x`. */
  function Tally(slots: seq<Entry>, n: nat, tx: bool, x: nat): nat
    requires n <= |slots|
  {
    if n == 0 then 0
    else Tally(slots, n - 1, tx, x) + One(slots[n - 1].valid && Side(slots[n - 1], tx) == x)
  }

  function Published(slots: seq<Entry>, n: nat): nat
    requires n <= |slots|
  {
    if n == 0 then 0 else Published(slots, n - 1) + One(slots[n - 1].valid)
  }

  lemma {:induction false} TallyWrite(slots: seq<Entry>, n: nat, i: nat, e: Entry, tx: bool, x: nat)
    requires n <= |slots| && i < |slots|
    ensures Tally(slots[i := e], n, tx, x) + (if i < n then One(slots[i].valid && Side(slots[i], tx) == x) else 0)
         == Tally(slots, n, tx, x) + (if i < n then One(e.valid && Side(e, tx) == x) else 0)
    ensures Published(slots[i := e], n) + (if i < n then One(slots[i].valid) else 0)
         == Published(slots, n) + (if i < n then One(e.valid) else 0)
  {
    if n > 0 { TallyWrite(slots, n - 1, i, e, tx, x); }
  }

  lemma {:induction false} TallyBound(slots: seq<Entry>, n: nat, tx: bool, x: nat)
    requires n <= |slots|
    ensures Tally(slots, n, tx, x) <= Published(slots, n) <= n
    ensures forall i :: 0 <= i < n && !slots[i].valid ==> Published(slots, n) < n
  {
    if n > 0 { TallyBound(slots, n - 1, tx, x); }
  }

  // ---- invariant -------------------------------------------------------------------------

  /** The lock owner's position; only the owner touches counters and cursors. */
  function Critical(s: State): Pc
    requires Shape(s)
  {
    if s.owner == -1 then Idle else s.pcs[s.owner]
  }

  ghost predicate Counted(counts: seq<nat>, slots: seq<Entry>, p: Pc, tx: bool) {
    forall x :: 0 <= x < |counts| ==>
      counts[x] == Tally(slots, |slots|, tx, x) +
        One(p.Fill? && p.stage > (if tx then 4 else 3) && (if tx then p.r.tx else p.r.worker) == x)
  }

  /** The loads of the active TX slots differ by at most one, and the slot about to be charged is a
      least loaded one. */
  ghost predicate Balanced(counts: seq<nat>, active: nat, p: Pc)
    requires active <= |counts|
  {
    && (forall i, j :: 0 <= i < active && 0 <= j < active ==> counts[i] <= counts[j] + 1)
    && (p.Fill? && p.stage <= 4 && p.r.tx < active ==> forall j :: 0 <= j < active ==> counts[p.r.tx] <= counts[j])
  }

  /** One TX cursor step per insertion, at most one worker cursor step. */
  ghost predicate Cursors(s: State, p: Pc) {
    && s.tCur == Published(s.slots, |s.slots|) + One(p.Fill?)
    && s.wCur <= Published(s.slots, |s.slots|) + One(p.Fill? || p.PickTx?)
  }

  ghost predicate AccountInv(c: Config, s: State) {
    && Inv(c, s)
    && Counted(s.wCount, s.slots, Critical(s), false)
    && Counted(s.tCount, s.slots, Critical(s), true)
    && Balanced(s.tCount, c.active, Critical(s))
    && Cursors(s, Critical(s))
  }

  // ---- steps -----------------------------------------------------------------------------

  /** A write that leaves an unpublished entry unpublished, or a published one on its route, moves
      no tally. */
  lemma NeutralWrite(slots: seq<Entry>, i: nat, e: Entry)
    requires i < |slots| && e.valid == slots[i].valid && (e.valid ==> e.route == slots[i].route)
    ensures forall tx, x :: Tally(slots[i := e], |slots|, tx, x) == Tally(slots, |slots|, tx, x)
    ensures Published(slots[i := e], |slots|) == Published(slots, |slots|)
  {
    forall tx, x ensures Tally(slots[i := e], |slots|, tx, x) == Tally(slots, |slots|, tx, x) {
      TallyWrite(slots, |slots|, i, e, tx, x);
    }
    TallyWrite(slots, |slots|, i, e, true, 0);
  }

  /** An owner placing a flow has a free slot, so neither cursor can pass the table's capacity. */
  lemma RoomLeft(c: Config, s: State, p: Pc)
    requires AccountInv(c, s) && p == Critical(s) && (p.PickWorker? || p.PickTx? || p.Fill?)
    ensures Published(s.slots, SLOTS) < SLOTS
  {
    assert Knows(c, s.slots, p);
    TallyBound(s.slots, SLOTS, true, 0);
  }

  /** Publishing the entry moves its route from the one about to be counted to the counted ones. */
  lemma PublishTallies(slots: seq<Entry>, i: nat, e: Entry)
    requires i < |slots| && !slots[i].valid && e.valid
    ensures forall tx, x :: Tally(slots[i := e], |slots|, tx, x) ==
              Tally(slots, |slots|, tx, x) + One((if tx then e.route.tx else e.route.worker) == x)
    ensures Published(slots[i := e], |slots|) == Published(slots, |slots|) + 1
  {
    forall tx, x
      ensures Tally(slots[i := e], |slots|, tx, x)
           == Tally(slots, |slots|, tx, x) + One((if tx then e.route.tx else e.route.worker) == x)
    {
      TallyWrite(slots, |slots|, i, e, tx, x);
    }
    TallyWrite(slots, |slots|, i, e, true, 0);
  }

  lemma PublishKeepsAccounts(c: Config, s: State, t: nat)
    requires AccountInv(c, s) && t < |s.pcs| && s.pcs[t].Fill? && s.pcs[t].stage == 5 && Positioned(s.pcs[t])
    requires Inv(c, RunFill(c, s, t, s.pcs[t]))
    ensures AccountInv(c, RunFill(c, s, t, s.pcs[t]))
  {
    var p, s' := s.pcs[t], RunFill(c, s, t, s.pcs[t]);
    assert Knows(c, s.slots, p);
    assert Holding(p) <==> s.owner == t;
    PublishTallies(s.slots, Loc(c, p.k, p.e), s'.slots[Loc(c, p.k, p.e)]);
  }

  lemma FillKeepsAccounts(c: Config, s: State, t: nat)
    requires AccountInv(c, s) && t < |s.pcs| && s.pcs[t].Fill? && Positioned(s.pcs[t])
    requires Inv(c, RunFill(c, s, t, s.pcs[t]))
    ensures AccountInv(c, RunFill(c, s, t, s.pcs[t]))
  {
    var p, s' := s.pcs[t], RunFill(c, s, t, s.pcs[t]);
    if p.stage == 5 {
      PublishKeepsAccounts(c, s, t);
    } else {
      assert Knows(c, s.slots, p);
      assert Holding(p) <==> s.owner == t;
      if p.stage < 3 { NeutralWrite(s.slots, Loc(c, p.k, p.e), s'.slots[Loc(c, p.k, p.e)]); }
    }
  }

  lemma PickKeepsAccounts(c: Config, s: State, t: nat)
    requires AccountInv(c, s) && t < |s.pcs| && (s.pcs[t].PickWorker? || s.pcs[t].PickTx?)
    requires Inv(c, RunThread(c, s, t))
    ensures AccountInv(c, RunThread(c, s, t))
  {
    assert Holding(s.pcs[t]) <==> s.owner == t;
    RoomLeft(c, s, s.pcs[t]);
    LeastLoadedIsLeast(s.tCount, c.active, s.tCur);
  }

  predicate Quiet(p: Pc) { !p.Fill? && !p.PickTx? }

  predicate SameRoute(e: Entry, e': Entry) { e'.valid == e.valid && e'.route == e.route }

  /** At most one entry changed, and not in what is counted. */
  ghost predicate SameRoutes(a: seq<Entry>, b: seq<Entry>) {
    b == a || exists i: nat, e: Entry :: i < |a| && b == a[i := e] && SameRoute(a[i], e)
  }

  /** Steps that touch neither counters nor cursors and move no tally. */
  lemma QuietKeepsAccounts(c: Config, s: State, s': State)
    requires AccountInv(c, s) && Inv(c, s')
    requires s'.wCount == s.wCount && s'.tCount == s.tCount && s'.wCur == s.wCur && s'.tCur == s.tCur
    requires SameRoutes(s.slots, s'.slots)
    requires Critical(s') == Critical(s) || (Quiet(Critical(s)) && Quiet(Critical(s')))
    ensures AccountInv(c, s')
  {
    if s'.slots != s.slots {
      var i: nat, e: Entry :| i < |s.slots| && s'.slots == s.slots[i := e] && SameRoute(s.slots[i], e);
      NeutralWrite(s.slots, i, e);
    }
  }

  lemma OwnerMovesQuietly(c: Config, s: State, s': State, t: nat)
    requires Inv(c, s) && t < |s.pcs| && |s'.pcs| == |s.pcs|
    requires Shape(s') && Quiet(s.pcs[t]) && Quiet(s'.pcs[t])
    requires forall u :: 0 <= u < |s.pcs| && u != t ==> s'.pcs[u] == s.pcs[u]
    requires s'.owner == s.owner || ((s.owner == -1 || s.owner == t) && (s'.owner == -1 || s'.owner == t))
    ensures Critical(s') == Critical(s) || (Quiet(Critical(s)) && Quiet(Critical(s')))
  {
  }

  /** Every step but a placement leaves counters and cursors alone and at most moves one
      sequence counter. */
  lemma OtherStepsAreQuiet(c: Config, s: State, step: Step)
    requires ConfigOk(c) && Shape(s) && LockOk(s) && forall t :: 0 <= t < |s.pcs| ==> Positioned(s.pcs[t])
    requires step.t < |s.pcs| && Quiet(s.pcs[step.t]) && !s.pcs[step.t].PickWorker?
    ensures var s' := Apply(c, s, step);
            && s'.wCount == s.wCount && s'.tCount == s.tCount && s'.wCur == s.wCur && s'.tCur == s.tCur
            && |s'.pcs| == |s.pcs| && Quiet(s'.pcs[step.t])
            && (forall u :: 0 <= u < |s.pcs| && u != step.t ==> s'.pcs[u] == s.pcs[u])
            && (s'.owner == s.owner || ((s.owner == -1 || s.owner == step.t) && (s'.owner == -1 || s'.owner == step.t)))
  {
    assert Holding(s.pcs[step.t]) <==> s.owner == step.t;
  }

  lemma OtherStepsKeepRoutes(c: Config, s: State, step: Step)
    requires ConfigOk(c) && Shape(s) && forall t :: 0 <= t < |s.pcs| ==> Positioned(s.pcs[t])
    requires step.t < |s.pcs| && !s.pcs[step.t].Fill?
    ensures SameRoutes(s.slots, Apply(c, s, step).slots)
  {
    var s', p := Apply(c, s, step), s.pcs[step.t];
    if step.Run? && p.FindHit? && s'.slots != s.slots {
      var i := Loc(c, p.k, p.w);
      assert s'.slots == s.slots[i := s'.slots[i]] && SameRoute(s.slots[i], s'.slots[i]);
    }
  }

  lemma OtherStepsKeepAccounts(c: Config, s: State, step: Step, s': State)
    requires AccountInv(c, s) && Inv(c, s') && forall t :: 0 <= t < |s.pcs| ==> Positioned(s.pcs[t])
    requires step.t < |s.pcs| && Quiet(s.pcs[step.t]) && !s.pcs[step.t].PickWorker?
    requires s' == Apply(c, s, step)
    ensures AccountInv(c, s')
  {
    OtherStepsAreQuiet(c, s, step);
    OtherStepsKeepRoutes(c, s, step);
    OwnerMovesQuietly(c, s, s', step.t);
    QuietKeepsAccounts(c, s, s');
  }

  lemma StepKeepsAccounts(c: Config, s: State, step: Step)
    requires AccountInv(c, s)
    ensures forall t :: 0 <= t < |s.pcs| ==> Positioned(s.pcs[t])
    ensures AccountInv(c, Apply(c, s, step))
  {
    StepKeepsInv(c, s, step);
    if step.t < |s.pcs| {
      var p := s.pcs[step.t];
      if Quiet(p) && !p.PickWorker? {
        OtherStepsKeepAccounts(c, s, step, Apply(c, s, step));
      } else if step.Run? && p.Fill? {
        FillKeepsAccounts(c, s, step.t);
      } else if step.Run? {
        PickKeepsAccounts(c, s, step.t);
      }
    }
  }

  // ---- whole runs ------------------------------------------------------------------------------

  lemma {:induction false} NothingPublished(slots: seq<Entry>, n: nat, tx: bool, x: nat)
    requires n <= |slots| && forall i :: 0 <= i < n ==> !slots[i].valid
    ensures Tally(slots, n, tx, x) == 0 && Published(slots, n) == 0
  {
    if n > 0 { NothingPublished(slots, n - 1, tx, x); }
  }

  lemma InitAccounts(c: Config, threads: nat)
    requires ConfigOk(c)
    ensures AccountInv(c, Init(threads))
  {
    InitKeepsInv(c, threads);
    var s := Init(threads);
    forall tx, x ensures Tally(s.slots, SLOTS, tx, x) == 0 {
      NothingPublished(s.slots, SLOTS, tx, x);
    }
    NothingPublished(s.slots, SLOTS, true, 0);
  }

  lemma {:induction false} RunKeepsAccounts(c: Config, s: State, steps: seq<Step>)
    requires AccountInv(c, s)
    ensures AccountInv(c, Reach(c, s, steps))
    decreases |steps|
  {
    if steps != [] {
      StepKeepsAccounts(c, s, steps[0]);
      RunKeepsAccounts(c, Apply(c, s, steps[0]), steps[1..]);
    }
  }

  /** In every reachable state: no connection counter exceeds the flows published by more than the
      one insertion in progress, and with the lock free each equals its tally exactly; active TX
      loads differ by at most one; and the cursors are far from wrapping. */
  lemma AccountsBalance(c: Config, threads: nat, steps: seq<Step>)
    requires ConfigOk(c)
    ensures Inv(c, Init(threads))
    ensures var s := Reach(c, Init(threads), steps);
            && (s.owner == -1 ==>
                  && (forall x :: 0 <= x < WORKERS ==> s.wCount[x] == Tally(s.slots, SLOTS, false, x))
                  && (forall x :: 0 <= x < TX_SLOTS ==> s.tCount[x] == Tally(s.slots, SLOTS, true, x))
                  && s.tCur == Published(s.slots, SLOTS))
            && (forall i, j :: 0 <= i < c.active && 0 <= j < c.active ==> s.tCount[i] <= s.tCount[j] + 1)
            && s.wCur <= SLOTS && s.tCur <= SLOTS
            && (forall x :: 0 <= x < WORKERS ==> Tally(s.slots, SLOTS, false, x) <= s.wCount[x] <= SLOTS)
            && (forall x :: 0 <= x < TX_SLOTS ==> Tally(s.slots, SLOTS, true, x) <= s.tCount[x] <= SLOTS)
  {
    InitAccounts(c, threads);
    RunKeepsAccounts(c, Init(threads), steps);
    var s := Reach(c, Init(threads), steps);
    var p := Critical(s);
    if p.PickWorker? || p.PickTx? || p.Fill? { RoomLeft(c, s, p); }
    TallyBound(s.slots, SLOTS, true, 0);
    forall tx, x ensures Tally(s.slots, SLOTS, tx, x) <= Published(s.slots, SLOTS) <= SLOTS {
      TallyBound(s.slots, SLOTS, tx, x);
    }
  }
}
