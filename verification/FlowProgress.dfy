/** Lookups finish: a thread that runs while nobody else holds the insert lock, alone from then on,
    answers its call within 74 accesses. So nothing but the lock's owner can hold anyone up, and the
    owner itself always gets to its unlock. Lookups of flows in the table do not even need the lock. */
module FlowProgress {
  import opened FlowTable
  import opened FlowSteps
  import opened FlowSticky

  /** An upper bound on the accesses still to come. */
  function Rank(p: Pc): int {
    match p
    case Idle => 0
    case Find(_, _, _, again, w) => 2 * (WAYS - w) + if again then 2 else 58
    case FindHit(_, _, _, again, w) => 2 * (WAYS - w) + if again then 1 else 57
    case Scan(_, _, _, w) => 2 * (WAYS - w) + 40
    case ScanHit(_, _, _, w) => 2 * (WAYS - w) + 39
    case Lock(_, _, _) => 38
    case Rescan(_, _, _, w, _) => WAYS - w + 29
    case PickWorker(_, _, _, _) => 28
    case PickTx(_, _, _, _, _) => 27
    case Fill(_, _, _, _, _, stage) => 26 - stage
    case Unlock(_, _, _) => 20
    case Fallback(_, _) => 1
  }

  /** The key a thread works for, and the direction if it wants a sequence number. */
  datatype Aim = Nothing | WantsRoute(k: Key) | WantsNumber(k: Key, dir: bool)

  function AimFor(goal: Goal, k: Key): Aim {
    match goal case ForRoute => WantsRoute(k) case ForSeq(dir) => WantsNumber(k, dir)
  }

  function AimOf(p: Pc): Aim {
    match p
    case Idle => Nothing
    case Find(k, dir, _, _, _) => WantsNumber(k, dir)
    case FindHit(k, dir, _, _, _) => WantsNumber(k, dir)
    case Scan(goal, k, _, _) => AimFor(goal, k)
    case ScanHit(goal, k, _, _) => AimFor(goal, k)
    case Lock(goal, k, _) => AimFor(goal, k)
    case Rescan(goal, k, _, _, _) => AimFor(goal, k)
    case PickWorker(goal, k, _, _) => AimFor(goal, k)
    case PickTx(goal, k, _, _, _) => AimFor(goal, k)
    case Fill(goal, k, _, _, _, _) => AimFor(goal, k)
    case Unlock(goal, k, _) => AimFor(goal, k)
    case Fallback(k, dir) => WantsNumber(k, dir)
  }

  /** The last answer given is for this aim. */
  predicate Answered(s: State, aim: Aim) {
    match aim
    case Nothing => true
    case WantsRoute(k) => |s.done| > 0 && s.done[|s.done| - 1].0 == k
    case WantsNumber(k, dir) =>
      |s.issued| > 0 && s.issued[|s.issued| - 1].key == k && s.issued[|s.issued| - 1].dir == dir
  }

  /** Nobody else holds the lock. */
  predicate Clear(s: State, t: nat) { s.owner == -1 || s.owner == t }

  /** The thread gets closer to its answer, or gives it. */
  ghost predicate Advances(s: State, s': State, t: nat) {
    && t < |s.pcs| == |s'.pcs| && Clear(s', t)
    && Rank(s'.pcs[t]) < Rank(s.pcs[t])
    && (if s'.pcs[t].Idle? then Answered(s', AimOf(s.pcs[t])) else AimOf(s'.pcs[t]) == AimOf(s.pcs[t]))
  }

  lemma SearchAdvances(c: Config, s: State, t: nat)
    requires Inv(c, s) && t < |s.pcs| && Clear(s, t) && Positioned(s.pcs[t])
    requires s.pcs[t].Find? || s.pcs[t].FindHit? || s.pcs[t].Scan? || s.pcs[t].ScanHit? || s.pcs[t].Fallback?
    ensures Advances(s, RunThread(c, s, t), t)
  {
    assert Knows(c, s.slots, s.pcs[t]);
  }

  lemma InsertAdvances(c: Config, s: State, t: nat)
    requires Inv(c, s) && t < |s.pcs| && Clear(s, t) && Positioned(s.pcs[t])
    requires Holding(s.pcs[t]) || s.pcs[t].Lock?
    ensures Advances(s, RunThread(c, s, t), t)
  {
    assert Knows(c, s.slots, s.pcs[t]);
    assert Holding(s.pcs[t]) <==> s.owner == t;
  }

  lemma StepAdvances(c: Config, s: State, t: nat)
    requires Inv(c, s) && t < |s.pcs| && Clear(s, t) && !s.pcs[t].Idle?
    ensures forall u :: 0 <= u < |s.pcs| ==> Positioned(s.pcs[u])
    ensures Inv(c, Apply(c, s, Run(t))) && Advances(s, Apply(c, s, Run(t)), t)
  {
    StepKeepsInv(c, s, Run(t));
    if Holding(s.pcs[t]) || s.pcs[t].Lock? { InsertAdvances(c, s, t); } else { SearchAdvances(c, s, t); }
  }

  lemma RankBounds(c: Config, s: State, t: nat)
    requires Inv(c, s) && t < |s.pcs|
    ensures 0 <= Rank(s.pcs[t]) <= 74 && (s.pcs[t].Idle? <==> Rank(s.pcs[t]) == 0)
  {
    assert Knows(c, s.slots, s.pcs[t]);
  }

  /** Main theorem: from every state in which nobody else holds the lock, a busy thread that runs
      alone answers its call within 74 accesses, and leaves the lock free. */
  lemma {:induction false} CompletesAlone(c: Config, s: State, t: nat) returns (steps: seq<Step>)
    requires Inv(c, s) && t < |s.pcs| && Clear(s, t) && !s.pcs[t].Idle?
    ensures |steps| <= Rank(s.pcs[t]) <= 74 && forall i :: 0 <= i < |steps| ==> steps[i] == Run(t)
    ensures var s' := Reach(c, s, steps);
            t < |s'.pcs| && s'.pcs[t].Idle? && s'.owner == -1 && Answered(s', AimOf(s.pcs[t]))
    decreases Rank(s.pcs[t])
  {
    StepAdvances(c, s, t);
    RankBounds(c, s, t);
    var s1 := Apply(c, s, Run(t));
    RankBounds(c, s1, t);
    var rest: seq<Step> := [];
    if s1.pcs[t].Idle? {
      assert Holding(s1.pcs[t]) <==> s1.owner == t;
    } else {
      rest := CompletesAlone(c, s1, t);
    }
    steps := [Run(t)] + rest;
    assert steps[1..] == rest;
    assert Reach(c, s, steps) == Reach(c, s1, rest);
  }

  // ---- established flows -----------------------------------------------------------------

  /** The thread is searching, and an entry of its key lies at its way or behind it. */
  ghost predicate EntryAhead(c: Config, s: State, p: Pc)
    requires Shape(s)
  {
    match p
    case Find(k, _, _, _, w) => exists j :: w <= j < WAYS && At(s.slots, Loc(c, k, j), k)
    case FindHit(k, _, _, _, w) => exists j :: w <= j < WAYS && At(s.slots, Loc(c, k, j), k)
    case Scan(_, k, _, w) => exists j :: w <= j < WAYS && At(s.slots, Loc(c, k, j), k)
    case ScanHit(_, k, _, w) => exists j :: w <= j < WAYS && At(s.slots, Loc(c, k, j), k)
    case _ => false
  }

  /** A call for a flow in the table begins so. */
  lemma StartsAhead(c: Config, s: State, t: nat, k: Key, hint: int, dir: bool)
    requires Inv(c, s) && t < |s.pcs| && s.pcs[t].Idle? && Resident(c, s.slots, k)
    ensures forall u :: 0 <= u < |s.pcs| ==> Positioned(s.pcs[u])
    ensures EntryAhead(c, s, Apply(c, s, Lookup(t, k, hint)).pcs[t])
    ensures k.proto == 17 ==> EntryAhead(c, s, Apply(c, s, NextSeq(t, k, dir, hint)).pcs[t])
  {
    StepKeepsInv(c, s, Lookup(t, k, hint));
  }

  lemma SearchGoesOn(c: Config, s: State, t: nat)
    requires Inv(c, s) && t < |s.pcs| && EntryAhead(c, s, s.pcs[t]) && Positioned(s.pcs[t])
    ensures var s', p := RunThread(c, s, t), s.pcs[t];
            && Shape(s') && |s'.pcs| == |s.pcs| && s'.owner == s.owner && Rank(s'.pcs[t]) < Rank(p)
            && (if s'.pcs[t].Idle? then Answered(s', AimOf(p))
                else AimOf(s'.pcs[t]) == AimOf(p) && EntryAhead(c, s', s'.pcs[t]))
  {
    assert Knows(c, s.slots, s.pcs[t]);
  }

  /** Main theorem: a lookup of a flow in the table never waits for the insert lock. Whoever holds it,
      the thread alone answers within 74 accesses without touching it. */
  lemma {:induction false} EstablishedIsLockFree(c: Config, s: State, t: nat) returns (steps: seq<Step>)
    requires Inv(c, s) && t < |s.pcs| && EntryAhead(c, s, s.pcs[t])
    ensures |steps| <= Rank(s.pcs[t]) <= 74 && forall i :: 0 <= i < |steps| ==> steps[i] == Run(t)
    ensures var s' := Reach(c, s, steps);
            t < |s'.pcs| && s'.pcs[t].Idle? && s'.owner == s.owner && Answered(s', AimOf(s.pcs[t]))
    decreases Rank(s.pcs[t])
  {
    StepKeepsInv(c, s, Run(t));
    RankBounds(c, s, t);
    SearchGoesOn(c, s, t);
    var s1 := Apply(c, s, Run(t));
    RankBounds(c, s1, t);
    var rest: seq<Step> := [];
    if !s1.pcs[t].Idle? { rest := EstablishedIsLockFree(c, s1, t); }
    steps := [Run(t)] + rest;
    assert steps[1..] == rest;
    assert Reach(c, s, steps) == Reach(c, s1, rest);
  }
}
