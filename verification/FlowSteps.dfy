/** Concurrent use of the flow table, one shared access per step: lock-free scan, insert lock,
    rescan, placement, field writes, publication, and the per-flow sequence counters. */
module FlowSteps {
  import opened Bytes
  import opened Limits
  import opened RingIndex
  import opened FlowTable

  const SETS := 8192
  const SLOTS := SETS * WAYS

  datatype Route = Route(worker: nat, tx: nat)

  /** The entry of one way; `seq0` and `seq1` are the two directions' next sequence numbers. */
  datatype Entry = Entry(valid: bool, key: Key, route: Route, seq0: u32, seq1: u32) {
    function Next(dir: bool): u32 { if dir then seq1 else seq0 }
  }

  /** The flow hash is any function of the canonical key; the active TX slot count is fixed. */
  datatype Config = Config(hash: Key -> u32, active: nat)

  predicate ConfigOk(c: Config) { 0 < c.active <= TX_SLOTS }

  function Loc(c: Config, k: Key, w: nat): nat { c.hash(k) % SETS * WAYS + w }

  function HashRoute(c: Config, k: Key): Route
    requires ConfigOk(c)
  {
    Route(c.hash(k) % WORKERS, c.hash(k) % c.active)
  }

  /** What a lookup is for: its caller wants the route, or the flow's next sequence number. */
  datatype Goal = ForRoute | ForSeq(dir: bool)

  datatype Pc =
    | Idle
    | Find(k: Key, dir: bool, hint: int, again: bool, w: nat)    // dp_next_udp_tx_seq, load valid
    | FindHit(k: Key, dir: bool, hint: int, again: bool, w: nat) // valid was set: compare, fetch-add
    | Scan(goal: Goal, k: Key, hint: int, w: nat)                // lock-free lookup, load valid
    | ScanHit(goal: Goal, k: Key, hint: int, w: nat)             // valid was set: compare, read route
    | Lock(goal: Goal, k: Key, hint: int)
    | Rescan(goal: Goal, k: Key, hint: int, w: nat, empty: int)
    | PickWorker(goal: Goal, k: Key, hint: int, e: nat)
    | PickTx(goal: Goal, k: Key, hint: int, worker: nat, e: nat)
    | Fill(goal: Goal, k: Key, hint: int, r: Route, e: nat, stage: nat)
    | Unlock(goal: Goal, k: Key, r: Route)
    | Fallback(k: Key, dir: bool)

  predicate Holding(p: Pc) { p.Rescan? || p.PickWorker? || p.PickTx? || p.Fill? || p.Unlock? }

  datatype Issue = Issue(key: Key, dir: bool, value: u32, table: bool)

  /** `owner` is -1 while the lock byte is 0. `done` and `issued` record every completed lookup and
      every sequence number handed out, in order; a fallback issue records no value (see SeqLru). */
  datatype State = State(
    slots: seq<Entry>, owner: int, wCount: seq<nat>, tCount: seq<nat>, wCur: u32, tCur: u32,
    pcs: seq<Pc>, done: seq<(Key, Route)>, issued: seq<Issue>)

  datatype Step =
    | Lookup(t: nat, k: Key, hint: int)
    | NextSeq(t: nat, k: Key, dir: bool, hint: int)
    | Run(t: nat)

  const EMPTY_ENTRY := Entry(false, Key(0, 0, 0, 0, 0), Route(0, 0), 0, 0)

  function Init(threads: nat): State {
    State(seq(SLOTS, _ => EMPTY_ENTRY), -1, seq(WORKERS, _ => 0), seq(TX_SLOTS, _ => 0), 0, 0,
          seq(threads, _ => Idle), [], [])
  }

  // ---- steps ---------------------------------------------------------------------------

  predicate Shape(s: State) {
    |s.slots| == SLOTS && |s.wCount| == WORKERS && |s.tCount| == TX_SLOTS && -1 <= s.owner < |s.pcs|
  }

  function Goto(s: State, t: nat, p: Pc): State
    requires t < |s.pcs|
  {
    s.(pcs := s.pcs[t := p])
  }

  /** A lookup returns `r`; one made for a sequence number goes on with the second search. */
  function Finish(s: State, t: nat, goal: Goal, k: Key, r: Route): State
    requires t < |s.pcs|
  {
    Goto(s.(done := s.done + [(k, r)]), t,
         match goal case ForRoute => Idle case ForSeq(dir) => Find(k, dir, -1, true, 0))
  }

  /** fetch_add on the sequence counter of slot `i`. */
  function TakeNext(s: State, t: nat, i: nat, dir: bool): State
    requires t < |s.pcs| && i < |s.slots|
  {
    var e := s.slots[i];
    var v := e.Next(dir);
    Goto(s.(slots := s.slots[i := if dir then e.(seq1 := Bump(v, 1)) else e.(seq0 := Bump(v, 1))],
            issued := s.issued + [Issue(e.key, dir, v, true)]), t, Idle)
  }

  function RunFind(c: Config, s: State, t: nat, p: Pc): State
    requires Shape(s) && t < |s.pcs| && p.Find?
  {
    if p.w < WAYS && s.slots[Loc(c, p.k, p.w)].valid then Goto(s, t, FindHit(p.k, p.dir, p.hint, p.again, p.w))
    else if p.w < WAYS then Goto(s, t, Find(p.k, p.dir, p.hint, p.again, p.w + 1))
    else if p.again then Goto(s, t, Fallback(p.k, p.dir))
    else Goto(s, t, Scan(ForSeq(p.dir), p.k, p.hint, 0))
  }

  function RunFindHit(c: Config, s: State, t: nat, p: Pc): State
    requires Shape(s) && t < |s.pcs| && p.FindHit? && p.w < WAYS
  {
    if s.slots[Loc(c, p.k, p.w)].key == p.k then TakeNext(s, t, Loc(c, p.k, p.w), p.dir)
    else Goto(s, t, Find(p.k, p.dir, p.hint, p.again, p.w + 1))
  }

  function RunScan(c: Config, s: State, t: nat, p: Pc): State
    requires Shape(s) && t < |s.pcs| && p.Scan?
  {
    if p.w < WAYS && s.slots[Loc(c, p.k, p.w)].valid then Goto(s, t, ScanHit(p.goal, p.k, p.hint, p.w))
    else if p.w < WAYS then Goto(s, t, Scan(p.goal, p.k, p.hint, p.w + 1))
    else Goto(s, t, Lock(p.goal, p.k, p.hint))
  }

  function RunScanHit(c: Config, s: State, t: nat, p: Pc): State
    requires Shape(s) && t < |s.pcs| && p.ScanHit? && p.w < WAYS
  {
    var e := s.slots[Loc(c, p.k, p.w)];
    if e.key == p.k then Finish(s, t, p.goal, p.k, e.route)
    else Goto(s, t, Scan(p.goal, p.k, p.hint, p.w + 1))
  }

  function RunLock(s: State, t: nat, p: Pc): State
    requires t < |s.pcs| && p.Lock?
  {
    if s.owner != -1 then s
    else Goto(s.(owner := t), t, Rescan(p.goal, p.k, p.hint, 0, -1))
  }

  function RunRescan(c: Config, s: State, t: nat, p: Pc): State
    requires ConfigOk(c) && Shape(s) && t < |s.pcs| && p.Rescan?
  {
    if p.w < WAYS then
      var e := s.slots[Loc(c, p.k, p.w)];
      if !e.valid then Goto(s, t, Rescan(p.goal, p.k, p.hint, p.w + 1, if p.empty < 0 then p.w else p.empty))
      else if e.key == p.k then Goto(s, t, Unlock(p.goal, p.k, e.route))
      else Goto(s, t, Rescan(p.goal, p.k, p.hint, p.w + 1, p.empty))
    else if p.empty < 0 then Goto(s, t, Unlock(p.goal, p.k, HashRoute(c, p.k)))
    else Goto(s, t, PickWorker(p.goal, p.k, p.hint, p.empty))
  }

  function RunPickWorker(s: State, t: nat, p: Pc): State
    requires Shape(s) && t < |s.pcs| && p.PickWorker?
  {
    if 0 <= p.hint < WORKERS then Goto(s, t, PickTx(p.goal, p.k, p.hint, p.hint, p.e))
    else Goto(s.(wCur := Bump(s.wCur, 1)), t,
              PickTx(p.goal, p.k, p.hint, LeastLoaded(s.wCount, WORKERS, s.wCur), p.e))
  }

  function RunPickTx(c: Config, s: State, t: nat, p: Pc): State
    requires ConfigOk(c) && Shape(s) && t < |s.pcs| && p.PickTx?
  {
    Goto(s.(tCur := Bump(s.tCur, 1)), t,
         Fill(p.goal, p.k, p.hint, Route(p.worker, LeastLoaded(s.tCount, c.active, s.tCur)), p.e, 0))
  }

  /** Write key, counters and route into the chosen way, count the connection, publish. */
  function RunFill(c: Config, s: State, t: nat, p: Pc): State
    requires Shape(s) && t < |s.pcs| && p.Fill? && p.e < WAYS && p.r.worker < WORKERS && p.r.tx < TX_SLOTS
  {
    var i := Loc(c, p.k, p.e);
    var e := s.slots[i];
    var next := p.(stage := p.stage + 1);
    match p.stage
    case 0 => Goto(s.(slots := s.slots[i := e.(key := p.k)]), t, next)
    case 1 => Goto(s.(slots := s.slots[i := e.(seq0 := 0, seq1 := 0)]), t, next)
    case 2 => Goto(s.(slots := s.slots[i := e.(route := p.r)]), t, next)
    case 3 => Goto(s.(wCount := s.wCount[p.r.worker := s.wCount[p.r.worker] + 1]), t, next)
    case 4 => Goto(s.(tCount := s.tCount[p.r.tx := s.tCount[p.r.tx] + 1]), t, next)
    case _ => Goto(s.(slots := s.slots[i := e.(valid := true)]), t, Unlock(p.goal, p.k, p.r))
  }

  /** Positions a thread can be in: the bounds every step of the code keeps. */
  predicate Positioned(p: Pc) {
    && (p.FindHit? || p.ScanHit? ==> p.w < WAYS)
    && (p.Fill? ==> p.e < WAYS && p.r.worker < WORKERS && p.r.tx < TX_SLOTS)
  }

  function RunThread(c: Config, s: State, t: nat): State
    requires ConfigOk(c) && Shape(s) && t < |s.pcs| && Positioned(s.pcs[t])
  {
    var p := s.pcs[t];
    match p
    case Idle => s
    case Find(_, _, _, _, _) => RunFind(c, s, t, p)
    case FindHit(_, _, _, _, _) => RunFindHit(c, s, t, p)
    case Scan(_, _, _, _) => RunScan(c, s, t, p)
    case ScanHit(_, _, _, _) => RunScanHit(c, s, t, p)
    case Lock(_, _, _) => RunLock(s, t, p)
    case Rescan(_, _, _, _, _) => RunRescan(c, s, t, p)
    case PickWorker(_, _, _, _) => RunPickWorker(s, t, p)
    case PickTx(_, _, _, _, _) => RunPickTx(c, s, t, p)
    case Fill(_, _, _, _, _, _) => RunFill(c, s, t, p)
    case Unlock(goal, k, r) => Finish(s.(owner := -1), t, goal, k, r)
    case Fallback(k, dir) => Goto(s.(issued := s.issued + [Issue(k, dir, 0, false)]), t, Idle)
  }

  /** Any thread may move at any time; a thread that is not idle takes no new call. Sequence
      numbers are for UDP keys only. */
  function Apply(c: Config, s: State, step: Step): State
    requires ConfigOk(c) && Shape(s) && forall t :: 0 <= t < |s.pcs| ==> Positioned(s.pcs[t])
  {
    if step.t >= |s.pcs| then s
    else match step
      case Run(t) => RunThread(c, s, t)
      case Lookup(t, k, hint) =>
        if s.pcs[t].Idle? then Goto(s, t, Scan(ForRoute, k, hint, 0)) else s
      case NextSeq(t, k, dir, hint) =>
        if s.pcs[t].Idle? && k.proto == 17 then Goto(s, t, Find(k, dir, hint, false, 0)) else s
  }
}
