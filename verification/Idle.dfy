/** Sleep and wake-up of one ring consumer, one shared access per step: producers push, load the
    sleeping flag and signal; the consumer arms, rechecks its rings, polls, drains and disarms. */
module Idle {

  const EFD_MAX := 0xFFFF_FFFF_FFFF_FFFE

  /** `rechecked` of the consumer's rings are looked at between arming and polling; the code looks
      at all of them. */
  datatype Setup = Setup(rings: nat, rechecked: nat, producers: nat, capacity: nat)

  datatype Consumer = Working | Checking(r: nat) | Polling | Draining | Disarming
  datatype Producer = Resting | Pushed | Signalling

  /** Ring lengths, the sleeping flag and the event counter; `alarm` is a shutdown wake-up that has
      set the flag and not yet signalled. */
  datatype State = State(counts: seq<nat>, sleeping: bool, efd: nat, consumer: Consumer,
                         producers: seq<Producer>, alarm: bool)

  datatype Step =
    | Pop(r: nat)
    | Arm
    | Continue               // the consumer's next access
    | Timeout                // poll returns after its millisecond
    | Push(p: nat, r: nat)
    | Advance(p: nat)        // the producer's next access
    | WakeAll                // the shutdown wake-up's next access

  predicate SetupOk(c: Setup) { c.rechecked <= c.rings && 0 < c.capacity }

  predicate Shape(c: Setup, s: State) {
    SetupOk(c) && |s.counts| == c.rings && |s.producers| == c.producers
  }

  function Init(c: Setup): State {
    State(seq(c.rings, _ => 0), false, 0, Working, seq(c.producers, _ => Resting), false)
  }

  /** A write to the non-blocking event counter; a full counter stays as it is. */
  function Signal(efd: nat): nat { if efd < EFD_MAX then efd + 1 else efd }

  function Consume(c: Setup, s: State): State
    requires Shape(c, s)
  {
    match s.consumer
    case Working => s
    case Checking(r) =>
      if r >= c.rechecked then s.(consumer := Polling)
      else if s.counts[r] > 0 then s.(consumer := Disarming)
      else s.(consumer := Checking(r + 1))
    case Polling => if s.efd > 0 then s.(consumer := Draining) else s
    case Draining => if s.efd > 0 then s.(efd := 0) else s.(consumer := Disarming)
    case Disarming => s.(sleeping := false, consumer := Working)
  }

  function Produce(s: State, p: nat): State
    requires p < |s.producers|
  {
    match s.producers[p]
    case Resting => s
    case Pushed => s.(producers := s.producers[p := if s.sleeping then Signalling else Resting])
    case Signalling => s.(producers := s.producers[p := Resting], efd := Signal(s.efd))
  }

  function Apply(c: Setup, s: State, step: Step): State
    requires Shape(c, s)
  {
    match step
    case Pop(r) =>
      if s.consumer.Working? && r < c.rings && s.counts[r] > 0
      then s.(counts := s.counts[r := s.counts[r] - 1]) else s
    case Arm => if s.consumer.Working? then s.(sleeping := true, consumer := Checking(0)) else s
    case Continue => Consume(c, s)
    case Timeout => if s.consumer.Polling? then s.(consumer := Draining) else s
    case Push(p, r) =>
      if p < c.producers && s.producers[p].Resting? && r < c.rings && s.counts[r] < c.capacity
      then s.(counts := s.counts[r := s.counts[r] + 1], producers := s.producers[p := Pushed]) else s
    case Advance(p) => if p < c.producers then Produce(s, p) else s
    case WakeAll =>
      if s.alarm then s.(alarm := false, efd := Signal(s.efd)) else s.(alarm := true, sleeping := true)
  }

  // ---- no lost wake-up ----------------------------------------------------------------------

  /** A signal is pending, or a producer is about to look at the flag or to signal. */
  ghost predicate Covered(s: State) {
    s.efd > 0 || exists p :: 0 <= p < |s.producers| && s.producers[p] != Resting
  }

  /** From arming on the flag is up, and a ring that was seen empty and no longer is, is covered. */
  ghost predicate Inv(c: Setup, s: State) {
    && Shape(c, s)
    && (s.consumer != Working ==> s.sleeping)
    && (s.consumer.Checking? ==>
          s.consumer.r <= c.rechecked && forall r :: 0 <= r < s.consumer.r && s.counts[r] > 0 ==> Covered(s))
    && (s.consumer.Polling? ==> forall r :: 0 <= r < c.rechecked && s.counts[r] > 0 ==> Covered(s))
  }

  /** While the flag is up a producer goes from pushing to signalling, and the signal stays. */
  lemma AdvanceKeepsCover(s: State, p: nat)
    requires p < |s.producers| && s.sleeping && Covered(s)
    ensures Covered(Produce(s, p))
  {
    var s' := Produce(s, p);
    if s.efd == 0 {
      var q :| 0 <= q < |s.producers| && s.producers[q] != Resting;
      if q != p { assert s'.producers[q] == s.producers[q]; }
      else if s.producers[p] == Pushed { assert s'.producers[p] == Signalling; }
    }
  }

  lemma StepKeepsInv(c: Setup, s: State, step: Step)
    requires Inv(c, s)
    ensures Inv(c, Apply(c, s, step))
  {
    var s' := Apply(c, s, step);
    if step.Push? && s' != s {
      assert s'.producers[step.p] == Pushed;
    } else if step.Advance? && step.p < c.producers && s.sleeping && Covered(s) {
      AdvanceKeepsCover(s, step.p);
    }
  }

  ghost function Run(c: Setup, s: State, steps: seq<Step>): (s': State)
    requires Inv(c, s)
    ensures Inv(c, s')
    decreases |steps|
  {
    if steps == [] then s
    else
      StepKeepsInv(c, s, steps[0]);
      Run(c, Apply(c, s, steps[0]), steps[1..])
  }

  /** The consumer is blocked in poll, a ring has work, and nobody is going to wake it. */
  ghost predicate Lost(s: State) {
    s.consumer.Polling? && !Covered(s) && exists r :: 0 <= r < |s.counts| && s.counts[r] > 0
  }

  /** The steps producer `p` still has to take before the consumer is signalled. */
  function Pending(p: nat, q: Producer): seq<Step> {
    match q
    case Resting => []
    case Pushed => [Advance(p), Advance(p)]
    case Signalling => [Advance(p)]
  }

  lemma PendingSignals(c: Setup, s: State, p: nat)
    requires Inv(c, s) && s.consumer.Polling? && p < c.producers && s.producers[p] != Resting
    ensures Run(c, s, Pending(p, s.producers[p])).efd > 0
  {
    var one := Apply(c, s, Advance(p));
    StepKeepsInv(c, s, Advance(p));
    if s.producers[p] == Signalling {
      assert [Advance(p)][1..] == [];
      assert Run(c, s, [Advance(p)]) == Run(c, one, []);
    } else {
      var two := Apply(c, one, Advance(p));
      StepKeepsInv(c, one, Advance(p));
      assert [Advance(p), Advance(p)][1..] == [Advance(p)] && [Advance(p)][1..] == [];
      assert Run(c, s, [Advance(p), Advance(p)]) == Run(c, one, [Advance(p)]) == Run(c, two, []);
    }
  }

  /** A blocked consumer with work in a rechecked ring is woken: its poll is ready now, or is after
      the one or two steps some producer is in the middle of. */
  lemma BlockedIsWoken(c: Setup, steps: seq<Step>, r: nat) returns (p: nat)
    requires SetupOk(c) && r < c.rechecked
    ensures Inv(c, Init(c))
    ensures var s := Run(c, Init(c), steps);
            s.consumer.Polling? && s.counts[r] > 0 ==>
            s.efd > 0 || (p < c.producers && s.producers[p] != Resting &&
                          Run(c, s, Pending(p, s.producers[p])).efd > 0)
  {
    var s := Run(c, Init(c), steps);
    p := 0;
    if s.consumer.Polling? && s.counts[r] > 0 && s.efd == 0 {
      p :| 0 <= p < |s.producers| && s.producers[p] != Resting;
      PendingSignals(c, s, p);
    }
  }

  /** Once signalled, the consumer is back at work after four steps of its own, with the signal
      taken and the flag down. */
  lemma WokenResumes(c: Setup, s: State)
    requires Inv(c, s) && s.consumer.Polling? && s.efd > 0
    ensures var s' := Run(c, s, [Continue, Continue, Continue, Continue]);
            s'.consumer.Working? && !s'.sleeping && s'.efd == 0 && s'.counts == s.counts
  {
    var s1 := Apply(c, s, Continue);
    StepKeepsInv(c, s, Continue);
    var s2 := Apply(c, s1, Continue);
    StepKeepsInv(c, s1, Continue);
    var s3 := Apply(c, s2, Continue);
    StepKeepsInv(c, s2, Continue);
    var s4 := Apply(c, s3, Continue);
    StepKeepsInv(c, s3, Continue);
    var four := [Continue, Continue, Continue, Continue];
    assert four[1..] == [Continue, Continue, Continue] && four[1..][1..] == [Continue, Continue];
    assert four[1..][1..][1..] == [Continue] && [Continue][1..] == [];
    assert Run(c, s, four) == Run(c, s1, four[1..]) == Run(c, s2, [Continue, Continue]);
    assert [Continue, Continue][1..] == [Continue];
    assert Run(c, s2, [Continue, Continue]) == Run(c, s3, [Continue]) == Run(c, s4, []);
  }

  ghost predicate Awake(s: State) {
    !s.sleeping && !s.alarm && forall p :: 0 <= p < |s.producers| ==> s.producers[p] != Signalling
  }

  /** While the consumer is not armed, nobody writes the event counter, whatever is pushed. */
  lemma {:induction false} AwakeIsQuiet(c: Setup, s: State, steps: seq<Step>)
    requires Inv(c, s) && Awake(s) && forall i :: 0 <= i < |steps| ==> !steps[i].Arm? && !steps[i].WakeAll?
    ensures Awake(Run(c, s, steps)) && Run(c, s, steps).efd == s.efd
    decreases |steps|
  {
    if steps != [] {
      StepKeepsInv(c, s, steps[0]);
      AwakeIsQuiet(c, Apply(c, s, steps[0]), steps[1..]);
    }
  }

  /** A recheck that finds work sends the consumer back to it. */
  lemma RecheckResumes(c: Setup, s: State)
    requires Inv(c, s) && s.consumer.Checking? && s.consumer.r < c.rechecked && s.counts[s.consumer.r] > 0
    ensures var s1 := Apply(c, s, Continue); Inv(c, s1) && Apply(c, s1, Continue).consumer.Working?
    ensures !Apply(c, Apply(c, s, Continue), Continue).sleeping
  {
    StepKeepsInv(c, s, Continue);
  }

  // ---- the recheck is exactly what is needed -----------------------------------------------------

  function Repeat(step: Step, n: nat): (r: seq<Step>)
    ensures |r| == n && forall i :: 0 <= i < n ==> r[i] == step
  {
    seq(n, _ => step)
  }

  lemma {:induction false} RunConcat(c: Setup, s: State, a: seq<Step>, b: seq<Step>)
    requires Inv(c, s)
    ensures Run(c, s, a + b) == Run(c, Run(c, s, a), b)
    decreases |a|
  {
    if a == [] {
      assert a + b == b;
    } else {
      StepKeepsInv(c, s, a[0]);
      assert (a + b)[1..] == a[1..] + b;
      RunConcat(c, Apply(c, s, a[0]), a[1..], b);
    }
  }

  /** Empty rings let the recheck through to poll. */
  lemma {:induction false} ChecksThrough(c: Setup, s: State, r: nat)
    requires Inv(c, s) && s.consumer == Checking(r)
    requires forall i :: 0 <= i < c.rechecked ==> s.counts[i] == 0
    ensures Run(c, s, Repeat(Continue, c.rechecked - r + 1)) == s.(consumer := Polling)
    decreases c.rechecked - r
  {
    var steps := Repeat(Continue, c.rechecked - r + 1);
    StepKeepsInv(c, s, Continue);
    var s' := Apply(c, s, Continue);
    if r < c.rechecked {
      assert steps[1..] == Repeat(Continue, c.rechecked - (r + 1) + 1);
      ChecksThrough(c, s', r + 1);
    } else {
      assert steps[1..] == [];
    }
  }

  /** A push to a ring that is not rechecked, completed before the consumer arms, is lost. */
  lemma UncheckedIsLost(c: Setup) returns (steps: seq<Step>)
    requires SetupOk(c) && c.rechecked < c.rings && c.producers > 0
    ensures Inv(c, Init(c)) && Lost(Run(c, Init(c), steps))
  {
    var s0 := Init(c);
    var head := [Push(0, c.rechecked), Advance(0), Arm];
    StepKeepsInv(c, s0, head[0]);
    var s1 := Apply(c, s0, head[0]);
    StepKeepsInv(c, s1, head[1]);
    var s2 := Apply(c, s1, head[1]);
    StepKeepsInv(c, s2, head[2]);
    var s3 := Apply(c, s2, head[2]);
    assert head[1..][1..] == [Arm] && head[1..][0] == Advance(0) && [Arm][1..] == [];
    assert Run(c, s0, head) == Run(c, s1, head[1..]) == Run(c, s2, [Arm]) == Run(c, s3, []);
    ChecksThrough(c, s3, 0);
    var tail := Repeat(Continue, c.rechecked + 1);
    RunConcat(c, s0, head, tail);
    steps := head + tail;
    var s := Run(c, s0, steps);
    assert s == s3.(consumer := Polling) && s.counts[c.rechecked] > 0;
  }

  ghost predicate LosesBy(c: Setup, steps: seq<Step>)
    requires SetupOk(c)
  {
    Lost(Run(c, Init(c), steps))
  }

  /** No run loses a wake-up exactly when every ring is rechecked, as the code does. */
  lemma NoLostWakeUpIff(c: Setup)
    requires SetupOk(c) && c.producers > 0
    ensures (forall steps :: !LosesBy(c, steps)) <==> c.rechecked == c.rings
  {
    if c.rechecked < c.rings {
      var steps := UncheckedIsLost(c);
      assert LosesBy(c, steps);
    } else {
      forall steps ensures !LosesBy(c, steps) {
        assert Inv(c, Run(c, Init(c), steps));
      }
    }
  }
}
