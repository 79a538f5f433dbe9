/** Where flows are placed: on the worker their caller asked for, or else on a least loaded one; so
    that without such requests the workers' loads stay within one of each other. */
module FlowPlacement {
  import opened Bytes
  import opened Limits
  import opened FlowTable
  import opened FlowSteps
  import opened FlowSticky
  import opened FlowAccounts

  predicate Asks(hint: int) { 0 <= hint < 6 }

  // ---- what the lock owner has chosen ------------------------------------------------------

  /** Among the first `n` counters, none undercuts that of `x`, and the ones between the cursor and
      `x` are strictly larger. `charged` is 1 if the flow being placed is counted already. */
  ghost predicate Least(x: nat, counts: seq<nat>, n: nat, cursor: int, charged: nat) {
    && x < n <= |counts| && cursor >= 0
    && (forall j :: 0 <= j < n ==> counts[x] <= counts[j] + charged)
    && (forall j :: 0 <= j < n && ProbeOf(cursor, n, j) < ProbeOf(cursor, n, x) ==> counts[x] < counts[j] + charged)
  }

  /** The worker asked for, or a least loaded one. */
  ghost predicate WorkerChosen(hint: int, w: nat, counts: seq<nat>, cursor: int, charged: nat) {
    if Asks(hint) then w == hint else Least(w, counts, 6, cursor, charged)
  }

  ghost predicate Chosen(c: Config, s: State, p: Pc) {
    && (p.PickTx? ==> WorkerChosen(p.hint, p.worker, s.wCount, s.wCur - 1, 0))
    && (p.Fill? ==>
          && WorkerChosen(p.hint, p.r.worker, s.wCount, s.wCur - 1, One(p.stage > 3))
          && Least(p.r.tx, s.tCount, c.active, s.tCur - 1, One(p.stage > 4)))
  }

  lemma LeastLoadedChosen(counts: seq<nat>, n: nat, cursor: nat)
    requires 0 < n <= |counts|
    ensures Least(LeastLoaded(counts, n, cursor), counts, n, cursor, 0)
  {
    LeastLoadedIsLeast(counts, n, cursor);
    forall j | 0 <= j < n && ProbeOf(cursor, n, j) < ProbeOf(cursor, n, LeastLoaded(counts, n, cursor))
      ensures counts[LeastLoaded(counts, n, cursor)] < counts[j]
    {
      TiesGoRoundRobin(counts, n, cursor, j);
    }
  }

  ghost predicate PlacementInv(c: Config, s: State) { AccountInv(c, s) && Chosen(c, s, Critical(s)) }

  lemma WorkerPickKeepsChosen(c: Config, s: State, t: nat)
    requires PlacementInv(c, s) && t < |s.pcs| && s.pcs[t].PickWorker?
    ensures var s' := RunPickWorker(s, t, s.pcs[t]); Shape(s') && Chosen(c, s', Critical(s'))
  {
    assert Holding(s.pcs[t]) <==> s.owner == t;
    RoomLeft(c, s, s.pcs[t]);
    LeastLoadedChosen(s.wCount, WORKERS, s.wCur);
  }

  lemma TxPickKeepsChosen(c: Config, s: State, t: nat)
    requires PlacementInv(c, s) && t < |s.pcs| && s.pcs[t].PickTx?
    ensures var s' := RunPickTx(c, s, t, s.pcs[t]); Shape(s') && Chosen(c, s', Critical(s'))
  {
    assert Holding(s.pcs[t]) <==> s.owner == t;
    RoomLeft(c, s, s.pcs[t]);
    LeastLoadedChosen(s.tCount, c.active, s.tCur);
  }

  lemma FillKeepsChosen(c: Config, s: State, t: nat)
    requires PlacementInv(c, s) && t < |s.pcs| && s.pcs[t].Fill? && Positioned(s.pcs[t])
    ensures var s' := RunFill(c, s, t, s.pcs[t]); Shape(s') && Chosen(c, s', Critical(s'))
  {
    assert Knows(c, s.slots, s.pcs[t]);
    assert Holding(s.pcs[t]) <==> s.owner == t;
  }

  lemma ChosenStays(c: Config, s: State, s': State, p: Pc, q: Pc)
    requires s'.wCount == s.wCount && s'.tCount == s.tCount && s'.wCur == s.wCur && s'.tCur == s.tCur
    requires Chosen(c, s, p) && (q == p || Quiet(q))
    ensures Chosen(c, s', q)
  {
  }

  lemma OthersKeepChosen(c: Config, s: State, step: Step, s': State)
    requires PlacementInv(c, s) && Inv(c, s') && forall t :: 0 <= t < |s.pcs| ==> Positioned(s.pcs[t])
    requires step.t < |s.pcs| && Quiet(s.pcs[step.t]) && !s.pcs[step.t].PickWorker?
    requires s' == Apply(c, s, step)
    ensures Chosen(c, s', Critical(s'))
  {
    OtherStepsAreQuiet(c, s, step);
    OwnerMovesQuietly(c, s, s', step.t);
    ChosenStays(c, s, s', Critical(s), Critical(s'));
  }

  lemma StepKeepsPlacement(c: Config, s: State, step: Step)
    requires PlacementInv(c, s)
    ensures forall t :: 0 <= t < |s.pcs| ==> Positioned(s.pcs[t])
    ensures PlacementInv(c, Apply(c, s, step))
  {
    StepKeepsAccounts(c, s, step);
    if step.t < |s.pcs| {
      var p := s.pcs[step.t];
      if Quiet(p) && !p.PickWorker? {
        OthersKeepChosen(c, s, step, Apply(c, s, step));
      } else if step.Run? && p.Fill? {
        FillKeepsChosen(c, s, step.t);
      } else if step.Run? && p.PickWorker? {
        WorkerPickKeepsChosen(c, s, step.t);
      } else if step.Run? {
        TxPickKeepsChosen(c, s, step.t);
      }
    }
  }

  // ---- where hints come from ---------------------------------------------------------------

  /** The key and hint a thread is working on, unless it only looks for a number. */
  function Carries(p: Pc): Option<(Key, int)> {
    match p
    case Find(k, _, hint, again, _) => if again then None else Some((k, hint))
    case FindHit(k, _, hint, again, _) => if again then None else Some((k, hint))
    case Scan(_, k, hint, _) => Some((k, hint))
    case ScanHit(_, k, hint, _) => Some((k, hint))
    case Lock(_, k, hint) => Some((k, hint))
    case Rescan(_, k, hint, _, _) => Some((k, hint))
    case PickWorker(_, k, hint, _) => Some((k, hint))
    case PickTx(_, k, hint, _, _) => Some((k, hint))
    case Fill(_, k, hint, _, _, _) => Some((k, hint))
    case _ => None
  }

  function CallOf(step: Step): set<(Key, int)> {
    match step
    case Lookup(_, k, hint) => {(k, hint)}
    case NextSeq(_, k, _, hint) => {(k, hint)}
    case Run(_) => {}
  }

  /** The calls made in a run. */
  function Calls(steps: seq<Step>): set<(Key, int)> {
    if steps == [] then {} else CallOf(steps[0]) + Calls(steps[1..])
  }

  ghost predicate Traced(s: State, calls: set<(Key, int)>) {
    forall t :: 0 <= t < |s.pcs| && Carries(s.pcs[t]).Some? ==> Carries(s.pcs[t]).value in calls
  }

  /** One thread moves, and goes on with what it carried or takes up a call. */
  ghost predicate CarriesOn(s: State, s': State, t: nat, call: set<(Key, int)>) {
    && t < |s.pcs| == |s'.pcs| && s'.pcs == s.pcs[t := s'.pcs[t]]
    && (Carries(s'.pcs[t]).Some? ==> Carries(s'.pcs[t]) == Carries(s.pcs[t]) || Carries(s'.pcs[t]).value in call)
  }

  predicate Searching(p: Pc) { p.Find? || p.FindHit? || p.Scan? || p.ScanHit? }

  lemma SearchCarries(c: Config, s: State, t: nat)
    requires ConfigOk(c) && Shape(s) && t < |s.pcs| && Positioned(s.pcs[t]) && Searching(s.pcs[t])
    ensures CarriesOn(s, RunThread(c, s, t), t, {})
  {
  }

  lemma InsertCarries(c: Config, s: State, t: nat)
    requires ConfigOk(c) && Shape(s) && t < |s.pcs| && Positioned(s.pcs[t]) && !Searching(s.pcs[t])
    ensures CarriesOn(s, RunThread(c, s, t), t, {})
  {
  }

  lemma StepTraced(c: Config, s: State, step: Step, calls: set<(Key, int)>)
    requires Inv(c, s) && Traced(s, calls) && forall t :: 0 <= t < |s.pcs| ==> Positioned(s.pcs[t])
    ensures Traced(Apply(c, s, step), calls + CallOf(step))
  {
    if step.t < |s.pcs| {
      if step.Run? {
        if Searching(s.pcs[step.t]) { SearchCarries(c, s, step.t); } else { InsertCarries(c, s, step.t); }
      }
      assert CarriesOn(s, Apply(c, s, step), step.t, CallOf(step));
    }
  }

  // ---- balance without requests ---------------------------------------------------------------

  ghost predicate NobodyAsks(calls: set<(Key, int)>) { forall x :: x in calls ==> !Asks(x.1) }

  ghost predicate Even(counts: seq<nat>) {
    forall i, j :: 0 <= i < |counts| && 0 <= j < |counts| ==> counts[i] <= counts[j] + 1
  }

  /** The workers' cursor moves with every insertion, just before that of the TX slots. */
  ghost predicate InStep(s: State, p: Pc) { s.wCur == s.tCur + One(p.PickTx?) }

  lemma StepKeepsInStep(c: Config, s: State, step: Step, calls: set<(Key, int)>)
    requires PlacementInv(c, s) && Traced(s, calls) && NobodyAsks(calls) && InStep(s, Critical(s))
    requires forall t :: 0 <= t < |s.pcs| ==> Positioned(s.pcs[t])
    requires Inv(c, Apply(c, s, step))
    ensures InStep(Apply(c, s, step), Critical(Apply(c, s, step)))
  {
    if step.t < |s.pcs| {
      var p := s.pcs[step.t];
      assert Holding(p) <==> s.owner == step.t;
      if Quiet(p) && !p.PickWorker? {
        OtherStepsAreQuiet(c, s, step);
        OwnerMovesQuietly(c, s, Apply(c, s, step), step.t);
      } else if step.Run? && !p.Fill? {
        assert Carries(p) == Some((p.k, p.hint));
        RoomLeft(c, s, p);
      }
    }
  }

  lemma StepKeepsEven(c: Config, s: State, step: Step, calls: set<(Key, int)>)
    requires PlacementInv(c, s) && Traced(s, calls) && NobodyAsks(calls) && Even(s.wCount)
    requires forall t :: 0 <= t < |s.pcs| ==> Positioned(s.pcs[t])
    ensures Even(Apply(c, s, step).wCount)
  {
    if step.t < |s.pcs| {
      var p := s.pcs[step.t];
      assert Holding(p) <==> s.owner == step.t;
      if Quiet(p) && !p.PickWorker? {
        OtherStepsAreQuiet(c, s, step);
      } else if step.Run? && p.Fill? && p.stage == 3 {
        assert Carries(p) == Some((p.k, p.hint));
      }
    }
  }

  // ---- whole runs --------------------------------------------------------------------------------

  lemma {:induction false} RunKeepsPlacement(c: Config, s: State, steps: seq<Step>, calls: set<(Key, int)>)
    requires PlacementInv(c, s) && Traced(s, calls)
    ensures PlacementInv(c, Reach(c, s, steps)) && Traced(Reach(c, s, steps), calls + Calls(steps))
    decreases |steps|
  {
    if steps != [] {
      StepKeepsPlacement(c, s, steps[0]);
      StepTraced(c, s, steps[0], calls);
      RunKeepsPlacement(c, Apply(c, s, steps[0]), steps[1..], calls + CallOf(steps[0]));
      assert calls + CallOf(steps[0]) + Calls(steps[1..]) == calls + Calls(steps);
    }
  }

  lemma {:induction false} RunKeepsEven(c: Config, s: State, steps: seq<Step>, calls: set<(Key, int)>)
    requires PlacementInv(c, s) && Traced(s, calls) && NobodyAsks(calls + Calls(steps))
    requires Even(s.wCount) && InStep(s, Critical(s))
    ensures var s' := Reach(c, s, steps); Even(s'.wCount) && InStep(s', Critical(s'))
    decreases |steps|
  {
    if steps != [] {
      assert NobodyAsks(calls) && NobodyAsks(calls + CallOf(steps[0]));
      StepKeepsPlacement(c, s, steps[0]);
      StepTraced(c, s, steps[0], calls);
      StepKeepsEven(c, s, steps[0], calls);
      StepKeepsInStep(c, s, steps[0], calls);
      assert calls + CallOf(steps[0]) + Calls(steps[1..]) == calls + Calls(steps);
      RunKeepsEven(c, Apply(c, s, steps[0]), steps[1..], calls + CallOf(steps[0]));
    }
  }

  lemma InitPlacement(c: Config, threads: nat)
    requires ConfigOk(c)
    ensures var s := Init(threads);
            PlacementInv(c, s) && Traced(s, {}) && Even(s.wCount) && InStep(s, Critical(s))
  {
    InitAccounts(c, threads);
  }

  /** The step publishes slot `i`. */
  ghost predicate Publishes(c: Config, s: State, step: Step, i: nat)
    requires Inv(c, s)
  {
    StepKeepsInv(c, s, step);
    i < SLOTS && !s.slots[i].valid && Apply(c, s, step).slots[i].valid
  }

  function Loads(slots: seq<Entry>, tx: bool): (counts: seq<nat>)
    ensures |counts| == if tx then TX_SLOTS else WORKERS
    ensures forall x :: 0 <= x < |counts| ==> counts[x] == Tally(slots, |slots|, tx, x)
  {
    seq(if tx then TX_SLOTS else WORKERS, x requires 0 <= x => Tally(slots, |slots|, tx, x))
  }

  /** A published flow is on the worker that was asked for, or on the first from the cursor on that
      no other worker had fewer flows than; and so among the active TX slots. */
  ghost predicate PlacedFor(c: Config, s: State, hint: int, r: Route) {
    && WorkerChosen(hint, r.worker, Loads(s.slots, false), s.wCur - 1, 0)
    && Least(r.tx, Loads(s.slots, true), c.active, s.tCur - 1, 0)
  }

  /** Slot `i` is free, and the ways of its set before it are taken. */
  predicate FirstFree(slots: seq<Entry>, i: nat) {
    && i < |slots| && !slots[i].valid && 8 <= |slots|
    && forall j :: i - i % 8 <= j < i ==> slots[j].valid
  }

  lemma FirstFreeAt(c: Config, slots: seq<Entry>, k: Key, e: nat)
    requires |slots| == SLOTS && Vacant(c, slots, k, e)
    ensures FirstFree(slots, Loc(c, k, e))
  {
    var i := Loc(c, k, e);
    assert i % 8 == e;
    forall j | i - e <= j < i ensures slots[j].valid {
      assert j == Loc(c, k, j - (i - e));
    }
  }

  lemma PublishedAs(c: Config, s: State, step: Step, i: nat)
    requires PlacementInv(c, s) && Publishes(c, s, step, i)
    ensures forall t :: 0 <= t < |s.pcs| ==> Positioned(s.pcs[t])
    ensures step.t < |s.pcs| && s.pcs[step.t].Fill?
    ensures var p, e := s.pcs[step.t], Apply(c, s, step).slots[i];
            e.key == p.k && PlacedFor(c, s, p.hint, e.route) && FirstFree(s.slots, i)
  {
    StepKeepsInv(c, s, step);
    var p := s.pcs[step.t];
    assert Holding(p) <==> s.owner == step.t;
    assert Knows(c, s.slots, p);
    FirstFreeAt(c, s.slots, p.k, p.e);
  }

  /** Main theorem: in every run, whoever publishes a flow does it for a call made with this key, on
      the worker of that call's hint, or else on a least loaded one, at that moment, in the first free
      way of its set. */
  lemma PlacementFollowsCalls(c: Config, threads: nat, steps: seq<Step>, step: Step, i: nat) returns (hint: int)
    requires ConfigOk(c) && Inv(c, Init(threads)) && Publishes(c, Reach(c, Init(threads), steps), step, i)
    ensures var s := Reach(c, Init(threads), steps);
            && (forall t :: 0 <= t < |s.pcs| ==> Positioned(s.pcs[t]))
            && var e := Apply(c, s, step).slots[i];
               (e.key, hint) in Calls(steps) && PlacedFor(c, s, hint, e.route) && FirstFree(s.slots, i)
  {
    var s := Reach(c, Init(threads), steps);
    InitPlacement(c, threads);
    RunKeepsPlacement(c, Init(threads), steps, {});
    PublishedAs(c, s, step, i);
    hint := s.pcs[step.t].hint;
    assert Carries(s.pcs[step.t]).Some?;
  }

  /** Main theorem: in every run in which no call asks for a worker, the workers' loads differ by at
      most one, and so do the flows published on them while nobody is inserting; and the cursor has
      moved once for each. */
  lemma WorkersBalance(c: Config, threads: nat, steps: seq<Step>)
    requires ConfigOk(c) && NobodyAsks(Calls(steps))
    ensures Inv(c, Init(threads))
    ensures var s := Reach(c, Init(threads), steps);
            forall i, j :: 0 <= i < 6 && 0 <= j < 6 ==>
              && s.wCount[i] <= s.wCount[j] + 1
              && (s.owner == -1 ==>
                    && Tally(s.slots, SLOTS, false, i) <= Tally(s.slots, SLOTS, false, j) + 1
                    && s.wCur == Published(s.slots, SLOTS))
  {
    InitPlacement(c, threads);
    assert {} + Calls(steps) == Calls(steps);
    RunKeepsPlacement(c, Init(threads), steps, {});
    RunKeepsEven(c, Init(threads), steps, {});
  }
}
