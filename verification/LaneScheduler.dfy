/**
 The worker's render admission as a step relation over any number of concurrent calls.

 A call takes a slot of the outer concurrency limit, sweeps the lane counters one by one,
 claims the least loaded lane it saw by compare-and-swap (sweeping again when it lost a
 race), waits for a slot of that lane's own limit, renders, and gives everything back. Every
 atomic operation of the code is one step, and steps of different calls interleave freely.

 One relation covers both schedulers: the socket spread and the warm daemon pool differ
 only in how a sweep starts and compares.
 */
module LaneScheduler {

  const MAX_INT64: int := 0x7fff_ffff_ffff_ffff
  const TWO_64: int := 0x1_0000_0000_0000_0000

  /** Which sweep: `socket_spread.go` starts from the largest int64 and takes strictly
      smaller loads; `daemon_pool.go` starts from no lane and a load of zero. */
  datatype Rule = SocketSpread | DaemonPool

  /** `lanes` lanes, each limited to `perLane` renders, behind an outer limit. */
  datatype Config = Config(rule: Rule, lanes: nat, outerLimit: nat, perLane: nat)

  predicate ValidConfig(cfg: Config) {
    0 < cfg.lanes <= MAX_INT64 && 0 < cfg.outerLimit && 0 < cfg.perLane
  }

  /** The channel capacity `LimitConcurrency` uses. */
  function Capacity(maxConcurrency: int): nat {
    if maxConcurrency < 1 then 1 else maxConcurrency
  }

  /** Splits the worker's lanes over the sockets, rounding up: the least per-socket share
      that still holds all of them, and never zero. */
  function LanesPerSocket(totalLanes: int, socketCount: int): (share: int)
    ensures share >= 1
    ensures socketCount >= 1 ==> (share - 1) * socketCount < Capacity(totalLanes) <= share * socketCount
  {
    if socketCount < 1 then 1
    else
      var total := if totalLanes < 1 then 1 else totalLanes;
      (total + socketCount - 1) / socketCount
  }

  // ----- State -----

  /** Where one call is. `Scanning` has read `offset` counters; `seenAt` and `begunAt` record
      how many counter changes had happened when the best load was read and when the sweep
      began. */
  datatype Phase =
    | Waiting
    | Entered
    | Scanning(slot: nat, offset: nat, best: int, bestLoad: int, seenAt: nat, begunAt: nat)
    | Assigned(lane: nat)
    | Admitted(lane: nat)
    | Running(lane: nat)
    | Finished(lane: nat)
    | Released(lane: nat)
    | Exiting
    | Done

  datatype Call = Call(phase: Phase, retries: nat)

  /** `load` is the code's inflight counters, `held` the filled slots of each lane's channel,
      `active` each lane's active field, `outer` the filled slots of the outer channel.
      `changes` counts all counter changes so far and `stamp` dates each lane's last one. */
  datatype Pool = Pool(
    load: seq<int>, next: nat, outer: nat, held: seq<nat>, active: seq<nat>,
    changes: nat, stamp: seq<nat>, calls: seq<Call>)

  function Init(cfg: Config): Pool {
    var zeros := seq(cfg.lanes, _ => 0);
    Pool(zeros, 0, 0, zeros, zeros, 0, zeros, [])
  }

  datatype Step =
    | Arrive | GiveUp(c: nat) | EnterOuter(c: nat) | StartScan(c: nat) | Read(c: nat)
    | Claim(c: nat) | EnterLane(c: nat) | GiveUpLane(c: nat) | Begin(c: nat) | End(c: nat)
    | LeaveLane(c: nat) | Uncount(c: nat) | LeaveOuter(c: nat)

  /** The lane a sweep from `slot` reads at `offset`, in uint64 arithmetic. */
  function LaneAt(slot: nat, offset: nat, lanes: nat): (lane: nat)
    requires lanes > 0
    ensures lane < lanes
  {
    (slot + offset) % TWO_64 % lanes
  }

  function EmptyScan(cfg: Config, slot: nat, now: nat): Phase {
    Scanning(slot, 0, -1, if cfg.rule.SocketSpread? then MAX_INT64 else 0, now, now)
  }

  /** Whether a load just read replaces the best one so far. */
  predicate Better(rule: Rule, best: int, bestLoad: int, load: int) {
    match rule
    case SocketSpread => load < bestLoad
    case DaemonPool => best < 0 || load < bestLoad
  }

  predicate Sized(cfg: Config, s: Pool) {
    |s.load| == |s.held| == |s.active| == |s.stamp| == cfg.lanes
  }

  predicate ValidLane(cfg: Config, p: Phase) {
    CounterLane(p) < cfg.lanes
  }

  predicate Enabled(cfg: Config, s: Pool, step: Step)
    requires ValidConfig(cfg) && Sized(cfg, s)
  {
    if step.Arrive? then true
    else
      step.c < |s.calls| &&
      var p := s.calls[step.c].phase;
      ValidLane(cfg, p) &&
      match step
      case GiveUp(_) => p.Waiting?
      case EnterOuter(_) => p.Waiting? && s.outer < cfg.outerLimit
      case StartScan(_) => p.Entered?
      case Read(_) => p.Scanning? && p.offset < cfg.lanes
      case Claim(_) => p.Scanning? && p.offset == cfg.lanes && 0 <= p.best < cfg.lanes
      case EnterLane(_) => p.Assigned? && s.held[p.lane] < cfg.perLane
      case GiveUpLane(_) => p.Assigned?
      case Begin(_) => p.Admitted?
      case End(_) => p.Running? && s.active[p.lane] > 0
      case LeaveLane(_) => p.Finished? && s.held[p.lane] > 0
      case Uncount(_) => p.Released?
      case LeaveOuter(_) => p.Exiting? && s.outer > 0
  }

  /** What a sweep holds after reading one more counter. */
  function AfterRead(cfg: Config, s: Pool, p: Phase): Phase
    requires ValidConfig(cfg) && Sized(cfg, s) && p.Scanning?
  {
    var lane := LaneAt(p.slot, p.offset, cfg.lanes);
    var load := s.load[lane];
    if Better(cfg.rule, p.best, p.bestLoad, load)
    then Scanning(p.slot, p.offset + 1, lane, load, s.changes, p.begunAt)
    else p.(offset := p.offset + 1)
  }

  function Move(s: Pool, c: nat, p: Phase): Pool
    requires c < |s.calls|
  {
    s.(calls := s.calls[c := s.calls[c].(phase := p)])
  }

  function Bump(s: Pool, lane: nat, delta: int): Pool
    requires lane < |s.load| && lane < |s.stamp|
  {
    s.(load := s.load[lane := s.load[lane] + delta], changes := s.changes + 1,
       stamp := s.stamp[lane := s.changes + 1])
  }

  function Apply(cfg: Config, s: Pool, step: Step): Pool
    requires ValidConfig(cfg) && Sized(cfg, s) && Enabled(cfg, s, step)
  {
    if step.Arrive? then s.(calls := s.calls + [Call(Waiting, 0)])
    else
      var c := step.c;
      var p := s.calls[c].phase;
      match step
      case GiveUp(_) => Move(s, c, Done)
      case EnterOuter(_) => Move(s, c, Entered).(outer := s.outer + 1)
      case StartScan(_) => Move(s, c, EmptyScan(cfg, s.next, s.changes)).(next := (s.next + 1) % TWO_64)
      case Read(_) =>
        Move(s, c, AfterRead(cfg, s, p))
      case Claim(_) =>
        if s.load[p.best] == p.bestLoad then Move(Bump(s, p.best, 1), c, Assigned(p.best))
        else
          s.(calls := s.calls[c := Call(EmptyScan(cfg, p.slot, s.changes), s.calls[c].retries + 1)])
      case EnterLane(_) => Move(s, c, Admitted(p.lane)).(held := s.held[p.lane := s.held[p.lane] + 1])
      case GiveUpLane(_) => Move(s, c, Released(p.lane))
      case Begin(_) => Move(s, c, Running(p.lane)).(active := s.active[p.lane := s.active[p.lane] + 1])
      case End(_) => Move(s, c, Finished(p.lane)).(active := s.active[p.lane := s.active[p.lane] - 1])
      case LeaveLane(_) => Move(s, c, Released(p.lane)).(held := s.held[p.lane := s.held[p.lane] - 1])
      case Uncount(_) => Move(Bump(s, p.lane, -1), c, Exiting)
      case LeaveOuter(_) => Move(s, c, Done).(outer := s.outer - 1)
  }

  /** `states` is a run of `steps` from an idle pool. */
  predicate IsRun(cfg: Config, steps: seq<Step>, states: seq<Pool>)
    requires ValidConfig(cfg)
  {
    && |states| == |steps| + 1
    && states[0] == Init(cfg)
    && (forall i | 0 <= i < |states| :: Sized(cfg, states[i]))
    && (forall i | 0 <= i < |steps| ::
          Enabled(cfg, states[i], steps[i]) && states[i + 1] == Apply(cfg, states[i], steps[i]))
  }

  // ----- Counting calls -----

  /** Ways to be counted. */
  datatype Tag = InOuter | Begun | Counted | OnLane(lane: nat) | InLane(lane: nat) | Rendering(lane: nat) | AnyRender | Queued(lane: nat)

  /** The lane whose counter the call holds, or -1. */
  function CounterLane(p: Phase): int {
    match p
    case Assigned(l) => l
    case Admitted(l) => l
    case Running(l) => l
    case Finished(l) => l
    case Released(l) => l
    case _ => -1
  }

  /** The lane whose channel slot the call holds, or -1. */
  function SlotLane(p: Phase): int {
    match p
    case Admitted(l) => l
    case Running(l) => l
    case Finished(l) => l
    case _ => -1
  }

  predicate Has(tag: Tag, p: Phase) {
    match tag
    case InOuter => !p.Waiting? && !p.Done?
    case Begun => !p.Waiting? && !p.Entered?
    case Counted => CounterLane(p) >= 0
    case OnLane(l) => CounterLane(p) == l
    case InLane(l) => SlotLane(p) == l
    case Rendering(l) => p == Running(l)
    case AnyRender => p.Running?
    case Queued(l) => p == Assigned(l)
  }

  function One(tag: Tag, p: Phase): nat { if Has(tag, p) then 1 else 0 }

  /** Number of calls that carry the tag. */
  function Count(calls: seq<Call>, tag: Tag): nat {
    if calls == [] then 0 else One(tag, calls[|calls| - 1].phase) + Count(calls[..|calls| - 1], tag)
  }

  lemma {:induction false} CountMove(calls: seq<Call>, c: nat, x: Call, tag: Tag)
    requires c < |calls|
    ensures Count(calls[c := x], tag) + One(tag, calls[c].phase) == Count(calls, tag) + One(tag, x.phase)
  {
    var n := |calls| - 1;
    if c == n {
      assert calls[c := x][..n] == calls[..n];
    } else {
      assert calls[c := x][..n] == calls[..n][c := x];
      CountMove(calls[..n], c, x, tag);
    }
  }

  lemma CountArrive(calls: seq<Call>, x: Call, tag: Tag)
    ensures Count(calls + [x], tag) == Count(calls, tag) + One(tag, x.phase)
  {
    assert (calls + [x])[..|calls|] == calls;
  }

  lemma {:induction false} CountLess(calls: seq<Call>, a: Tag, b: Tag)
    requires forall p :: One(a, p) <= One(b, p)
    ensures Count(calls, a) <= Count(calls, b)
  {
    if calls != [] { CountLess(calls[..|calls| - 1], a, b); }
  }

  lemma {:induction false} CountSplit(calls: seq<Call>, a: Tag, b: Tag, whole: Tag)
    requires forall p :: One(a, p) + One(b, p) <= One(whole, p)
    ensures Count(calls, a) + Count(calls, b) <= Count(calls, whole)
  {
    if calls != [] { CountSplit(calls[..|calls| - 1], a, b, whole); }
  }

  lemma {:induction false} CountSome(calls: seq<Call>, c: nat, tag: Tag)
    requires c < |calls| && Has(tag, calls[c].phase)
    ensures Count(calls, tag) >= 1
  {
    var n := |calls| - 1;
    if c < n { CountSome(calls[..n], c, tag); }
  }

  lemma {:induction false} CountBounded(calls: seq<Call>, tag: Tag)
    ensures Count(calls, tag) <= |calls|
  {
    if calls != [] { CountBounded(calls[..|calls| - 1], tag); }
  }

  function Sum(xs: seq<int>): int {
    if xs == [] then 0 else xs[|xs| - 1] + Sum(xs[..|xs| - 1])
  }

  lemma {:induction false} SumUpdate(xs: seq<int>, i: nat, x: int)
    requires i < |xs|
    ensures Sum(xs[i := x]) == Sum(xs) - xs[i] + x
  {
    var n := |xs| - 1;
    if i == n {
      assert xs[i := x][..n] == xs[..n];
    } else {
      assert xs[i := x][..n] == xs[..n][i := x];
      SumUpdate(xs[..n], i, x);
    }
  }

  lemma {:induction false} SumAtLeast(xs: seq<int>, m: int)
    requires forall i | 0 <= i < |xs| :: xs[i] >= m
    ensures Sum(xs) >= m * |xs|
  {
    if xs != [] { SumAtLeast(xs[..|xs| - 1], m); }
  }

  // ----- Conservation: what every counter counts, over every run -----

  predicate Conserved(cfg: Config, s: Pool) {
    && Sized(cfg, s)
    && (forall c | 0 <= c < |s.calls| :: ValidLane(cfg, s.calls[c].phase))
    && s.outer == Count(s.calls, InOuter) <= cfg.outerLimit
    && Sum(s.load) == Count(s.calls, Counted)
    && (forall l | 0 <= l < cfg.lanes ::
          && s.load[l] == Count(s.calls, OnLane(l))
          && s.held[l] == Count(s.calls, InLane(l)) <= cfg.perLane
          && s.active[l] == Count(s.calls, Rendering(l)))
  }

  /** One call moves and the counters move with it. */
  lemma MoveConserves(cfg: Config, s: Pool, c: nat, x: Call, s': Pool)
    requires Conserved(cfg, s) && Sized(cfg, s') && ValidLane(cfg, x.phase)
    requires c < |s.calls| && s'.calls == s.calls[c := x]
    requires var p := s.calls[c].phase;
             && s'.outer + One(InOuter, p) == s.outer + One(InOuter, x.phase) && s'.outer <= cfg.outerLimit
             && Sum(s'.load) + One(Counted, p) == Sum(s.load) + One(Counted, x.phase)
             && forall l | 0 <= l < cfg.lanes ::
                  && s'.load[l] + One(OnLane(l), p) == s.load[l] + One(OnLane(l), x.phase)
                  && s'.held[l] + One(InLane(l), p) == s.held[l] + One(InLane(l), x.phase)
                  && s'.held[l] <= cfg.perLane
                  && s'.active[l] + One(Rendering(l), p) == s.active[l] + One(Rendering(l), x.phase)
    ensures Conserved(cfg, s')
  {
    hide Has;
    CountMove(s.calls, c, x, InOuter);
    CountMove(s.calls, c, x, Counted);
    forall l | 0 <= l < cfg.lanes
      ensures s'.load[l] == Count(s'.calls, OnLane(l))
      ensures s'.held[l] == Count(s'.calls, InLane(l))
      ensures s'.active[l] == Count(s'.calls, Rendering(l))
    {
      CountMove(s.calls, c, x, OnLane(l));
      CountMove(s.calls, c, x, InLane(l));
      CountMove(s.calls, c, x, Rendering(l));
    }
  }

  lemma ArriveConserves(cfg: Config, s: Pool, s': Pool)
    requires Conserved(cfg, s) && s' == s.(calls := s.calls + [Call(Waiting, 0)])
    ensures Conserved(cfg, s')
  {
    var x := Call(Waiting, 0);
    CountArrive(s.calls, x, InOuter);
    CountArrive(s.calls, x, Counted);
    forall l | 0 <= l < cfg.lanes
      ensures Count(s'.calls, OnLane(l)) == Count(s.calls, OnLane(l))
      ensures Count(s'.calls, InLane(l)) == Count(s.calls, InLane(l))
      ensures Count(s'.calls, Rendering(l)) == Count(s.calls, Rendering(l))
    {
      CountArrive(s.calls, x, OnLane(l));
      CountArrive(s.calls, x, InLane(l));
      CountArrive(s.calls, x, Rendering(l));
    }
  }

  predicate SameLanes(s: Pool, s': Pool) {
    s'.load == s.load && s'.held == s.held && s'.active == s.active
  }

  /** A move that touches no lane, except perhaps the outer slots. */
  lemma PlainMove(cfg: Config, s: Pool, c: nat, x: Call, s': Pool)
    requires Conserved(cfg, s) && Sized(cfg, s') && SameLanes(s, s')
    requires c < |s.calls| && s'.calls == s.calls[c := x]
    requires var p := s.calls[c].phase;
             && CounterLane(p) == CounterLane(x.phase) && SlotLane(p) == SlotLane(x.phase)
             && !p.Running? && !x.phase.Running?
             && s'.outer + One(InOuter, p) == s.outer + One(InOuter, x.phase) && s'.outer <= cfg.outerLimit
    ensures Conserved(cfg, s')
  {
    MoveConserves(cfg, s, c, x, s');
  }

  /** A move that takes or returns a lane's counter. */
  lemma CounterMove(cfg: Config, s: Pool, c: nat, x: Call, s': Pool, lane: nat, delta: int)
    requires Conserved(cfg, s) && Sized(cfg, s') && lane < cfg.lanes
    requires s'.load == s.load[lane := s.load[lane] + delta] && s'.held == s.held && s'.active == s.active
    requires s'.outer == s.outer && c < |s.calls| && s'.calls == s.calls[c := x]
    requires var p := s.calls[c].phase;
             || (delta == 1 && p.Scanning? && x.phase == Assigned(lane))
             || (delta == -1 && p == Released(lane) && x.phase == Exiting)
    ensures Conserved(cfg, s')
  {
    ConservedCaps(cfg, s);
    hide Conserved, Count, Sum;
    SumUpdate(s.load, lane, s.load[lane] + delta);
    MoveConserves(cfg, s, c, x, s');
  }

  /** A move that takes or returns a slot of a lane. */
  lemma SlotMove(cfg: Config, s: Pool, c: nat, x: Call, s': Pool, lane: nat, delta: int)
    requires Conserved(cfg, s) && Sized(cfg, s') && lane < cfg.lanes
    requires 0 <= s.held[lane] + delta <= cfg.perLane
    requires s'.held == s.held[lane := s.held[lane] + delta] && s'.load == s.load && s'.active == s.active
    requires s'.outer == s.outer && c < |s.calls| && s'.calls == s.calls[c := x]
    requires var p := s.calls[c].phase;
             || (delta == 1 && p == Assigned(lane) && x.phase == Admitted(lane))
             || (delta == -1 && p == Finished(lane) && x.phase == Released(lane))
    ensures Conserved(cfg, s')
  {
    MoveConserves(cfg, s, c, x, s');
  }

  /** A move that starts or ends a render. */
  lemma ActiveMove(cfg: Config, s: Pool, c: nat, x: Call, s': Pool, lane: nat, delta: int)
    requires Conserved(cfg, s) && Sized(cfg, s') && lane < cfg.lanes
    requires 0 <= s.active[lane] + delta
    requires s'.active == s.active[lane := s.active[lane] + delta] && s'.load == s.load && s'.held == s.held
    requires s'.outer == s.outer && c < |s.calls| && s'.calls == s.calls[c := x]
    requires var p := s.calls[c].phase;
             || (delta == 1 && p == Admitted(lane) && x.phase == Running(lane))
             || (delta == -1 && p == Running(lane) && x.phase == Finished(lane))
    ensures Conserved(cfg, s')
  {
    MoveConserves(cfg, s, c, x, s');
  }

  predicate IsLaneStep(step: Step) {
    step.Claim? || step.EnterLane? || step.LeaveLane? || step.Begin? || step.End? || step.Uncount?
  }

  lemma PlainStepConserves(cfg: Config, s: Pool, step: Step)
    requires ValidConfig(cfg) && Conserved(cfg, s) && Enabled(cfg, s, step)
    requires !step.Arrive? && !IsLaneStep(step)
    ensures Conserved(cfg, Apply(cfg, s, step))
  {
    ConservedCaps(cfg, s);
    hide Conserved, Better, LaneAt;
    var s' := Apply(cfg, s, step);
    PlainMove(cfg, s, step.c, s'.calls[step.c], s');
  }

  lemma ClaimConserves(cfg: Config, s: Pool, c: nat)
    requires ValidConfig(cfg) && Conserved(cfg, s) && Enabled(cfg, s, Claim(c))
    ensures Conserved(cfg, Apply(cfg, s, Claim(c)))
  {
    ConservedCaps(cfg, s);
    hide Conserved, Count, Sum, LaneAt;
    var s' := Apply(cfg, s, Claim(c));
    var p, x := s.calls[c].phase, s'.calls[c];
    if s.load[p.best] == p.bestLoad {
      CounterMove(cfg, s, c, x, s', p.best, 1);
    } else {
      PlainMove(cfg, s, c, x, s');
    }
  }

  lemma SlotStepConserves(cfg: Config, s: Pool, step: Step)
    requires ValidConfig(cfg) && Conserved(cfg, s) && Enabled(cfg, s, step) && (step.EnterLane? || step.LeaveLane?)
    ensures Conserved(cfg, Apply(cfg, s, step))
  {
    ConservedCaps(cfg, s);
    hide Conserved, Count, Sum, LaneAt;
    var s' := Apply(cfg, s, step);
    var c := step.c;
    var p, x := s.calls[c].phase, s'.calls[c];
    SlotMove(cfg, s, c, x, s', p.lane, if step.EnterLane? then 1 else -1);
  }

  lemma ActiveStepConserves(cfg: Config, s: Pool, step: Step)
    requires ValidConfig(cfg) && Conserved(cfg, s) && Enabled(cfg, s, step) && (step.Begin? || step.End?)
    ensures Conserved(cfg, Apply(cfg, s, step))
  {
    ConservedCaps(cfg, s);
    hide Conserved, Count, Sum, LaneAt;
    var s' := Apply(cfg, s, step);
    var c := step.c;
    var p, x := s.calls[c].phase, s'.calls[c];
    ActiveMove(cfg, s, c, x, s', p.lane, if step.Begin? then 1 else -1);
  }

  lemma UncountConserves(cfg: Config, s: Pool, step: Step)
    requires ValidConfig(cfg) && Conserved(cfg, s) && Enabled(cfg, s, step) && step.Uncount?
    ensures Conserved(cfg, Apply(cfg, s, step))
  {
    ConservedCaps(cfg, s);
    hide Conserved, Count, Sum, LaneAt;
    var s' := Apply(cfg, s, step);
    var c := step.c;
    var p, x := s.calls[c].phase, s'.calls[c];
    CounterMove(cfg, s, c, x, s', p.lane, -1);
  }

  lemma StepConserves(cfg: Config, s: Pool, step: Step)
    requires ValidConfig(cfg) && Conserved(cfg, s) && Enabled(cfg, s, step)
    ensures Conserved(cfg, Apply(cfg, s, step))
  {
    if step.Arrive? { ArriveConserves(cfg, s, Apply(cfg, s, step)); }
    else if step.Claim? { ClaimConserves(cfg, s, step.c); }
    else if step.EnterLane? || step.LeaveLane? { SlotStepConserves(cfg, s, step); }
    else if step.Begin? || step.End? { ActiveStepConserves(cfg, s, step); }
    else if step.Uncount? { UncountConserves(cfg, s, step); }
    else { PlainStepConserves(cfg, s, step); }
  }

  lemma ConservedCaps(cfg: Config, s: Pool)
    requires Conserved(cfg, s)
    ensures Sized(cfg, s) && s.outer <= cfg.outerLimit
    ensures forall l | 0 <= l < cfg.lanes :: s.held[l] <= cfg.perLane
  {
  }

  lemma {:induction false} SumOfZeros(n: nat)
    ensures Sum(seq(n, _ => 0)) == 0
  {
    if n > 0 {
      SumOfZeros(n - 1);
      assert seq(n, _ => 0)[..n - 1] == seq(n - 1, _ => 0);
    }
  }

  /** In every state of every run, with arrivals, cancellations and completions: each counter
      is the number of calls that hold it. */
  lemma {:induction false} RunConserves(cfg: Config, steps: seq<Step>, states: seq<Pool>, i: nat)
    requires ValidConfig(cfg) && IsRun(cfg, steps, states) && i < |states|
    ensures Conserved(cfg, states[i])
  {
    if i == 0 {
      SumOfZeros(cfg.lanes);
    } else {
      RunConserves(cfg, steps, states, i - 1);
      StepConserves(cfg, states[i - 1], steps[i - 1]);
    }
  }

  /** What the counters guarantee: at most `outerLimit` renders run at once, a lane's active
      count is within its filled slots, which are within its capacity, and when no call is
      under way every counter is zero. */
  lemma CapsHold(cfg: Config, steps: seq<Step>, states: seq<Pool>, i: nat)
    requires ValidConfig(cfg) && IsRun(cfg, steps, states) && i < |states|
    ensures var s := states[i];
            && Count(s.calls, AnyRender) <= s.outer <= cfg.outerLimit
            && (forall l | 0 <= l < cfg.lanes ::
                  0 <= s.active[l] <= s.held[l] <= cfg.perLane && s.held[l] <= s.load[l])
            && ((forall c | 0 <= c < |s.calls| :: s.calls[c].phase.Done?) ==>
                  forall l | 0 <= l < cfg.lanes :: s.load[l] == s.held[l] == s.active[l] == s.outer == 0)
  {
    RunConserves(cfg, steps, states, i);
    var s := states[i];
    CountLess(s.calls, AnyRender, InOuter);
    forall l | 0 <= l < cfg.lanes
      ensures s.active[l] <= s.held[l] <= s.load[l]
    {
      CountLess(s.calls, Rendering(l), InLane(l));
      CountLess(s.calls, InLane(l), OnLane(l));
    }
    if forall c | 0 <= c < |s.calls| :: s.calls[c].phase.Done? {
      CountNone(s.calls, InOuter);
      forall l | 0 <= l < cfg.lanes ensures s.load[l] == 0 { CountNone(s.calls, OnLane(l)); }
    }
  }

  lemma {:induction false} CountNone(calls: seq<Call>, tag: Tag)
    requires forall c | 0 <= c < |calls| :: !Has(tag, calls[c].phase)
    ensures Count(calls, tag) == 0
  {
    if calls != [] { CountNone(calls[..|calls| - 1], tag); }
  }

  /** A call that holds a slot or a counter can always take its next step: giving back what it
      took never blocks and never drives a count below zero. */
  lemma GivingBackNeverBlocks(cfg: Config, steps: seq<Step>, states: seq<Pool>, i: nat, c: nat)
    requires ValidConfig(cfg) && IsRun(cfg, steps, states) && i < |states| && c < |states[i].calls|
    ensures var s := states[i];
            match s.calls[c].phase
            case Admitted(_) => Enabled(cfg, s, Begin(c))
            case Running(l) => l < cfg.lanes && s.active[l] > 0 && Enabled(cfg, s, End(c))
            case Finished(l) => l < cfg.lanes && s.held[l] > 0 && Enabled(cfg, s, LeaveLane(c))
            case Released(l) => l < cfg.lanes && s.load[l] > 0 && Enabled(cfg, s, Uncount(c))
            case Exiting => s.outer > 0 && Enabled(cfg, s, LeaveOuter(c))
            case _ => true
  {
    RunConserves(cfg, steps, states, i);
    var s := states[i];
    assert ValidLane(cfg, s.calls[c].phase);
    match s.calls[c].phase
    case Running(l) => CountSome(s.calls, c, Rendering(l));
    case Finished(l) => CountSome(s.calls, c, InLane(l));
    case Released(l) => CountSome(s.calls, c, OnLane(l));
    case Exiting => CountSome(s.calls, c, InOuter);
    case _ =>
  }

  // ----- Progress: a claim is lost only to a change of that very counter -----

  predicate SweepOk(cfg: Config, s: Pool, x: Call)
    requires Sized(cfg, s)
  {
    && x.retries <= s.changes
    && (x.phase.Scanning? ==>
          var p := x.phase;
          && p.offset <= cfg.lanes && p.slot < TWO_64 && -1 <= p.best < cfg.lanes
          && x.retries <= p.begunAt <= p.seenAt <= s.changes
          && (p.best >= 0 ==> s.load[p.best] == p.bestLoad || s.stamp[p.best] > p.seenAt))
  }

  predicate SweepsOk(cfg: Config, s: Pool) {
    && Sized(cfg, s) && s.next < TWO_64
    && (forall l | 0 <= l < cfg.lanes :: s.stamp[l] <= s.changes)
    && (forall c | 0 <= c < |s.calls| :: SweepOk(cfg, s, s.calls[c]))
  }

  lemma StepKeepsSweeps(cfg: Config, s: Pool, step: Step)
    requires ValidConfig(cfg) && SweepsOk(cfg, s) && Enabled(cfg, s, step)
    ensures SweepsOk(cfg, Apply(cfg, s, step))
  {
    var s' := Apply(cfg, s, step);
    forall c | 0 <= c < |s'.calls| ensures SweepOk(cfg, s', s'.calls[c]) {
      if c < |s.calls| { assert SweepOk(cfg, s, s.calls[c]); }
    }
  }

  lemma {:induction false} RunKeepsSweeps(cfg: Config, steps: seq<Step>, states: seq<Pool>, i: nat)
    requires ValidConfig(cfg) && IsRun(cfg, steps, states) && i < |states|
    ensures SweepsOk(cfg, states[i])
  {
    if i > 0 {
      RunKeepsSweeps(cfg, steps, states, i - 1);
      StepKeepsSweeps(cfg, states[i - 1], steps[i - 1]);
    }
  }

  /** In every run, a claim that fails was beaten by a change of that counter made after the
      sweep read it, and no call ever sweeps again more often than counters changed. */
  lemma ClaimLostOnlyToAChange(cfg: Config, steps: seq<Step>, states: seq<Pool>, i: nat, c: nat)
    requires ValidConfig(cfg) && IsRun(cfg, steps, states) && i < |states| && c < |states[i].calls|
    ensures var s := states[i];
            var p := s.calls[c].phase;
            && s.calls[c].retries <= s.changes
            && (Enabled(cfg, s, Claim(c)) && s.load[p.best] != p.bestLoad ==> p.seenAt < s.stamp[p.best] <= s.changes)
  {
    RunKeepsSweeps(cfg, steps, states, i);
    assert SweepOk(cfg, states[i], states[i].calls[c]);
  }

  // ----- Balance, until some render gives its counter back -----

  predicate Balanced(load: seq<int>) {
    forall i, j | 0 <= i < |load| && 0 <= j < |load| :: load[i] <= load[j] + 1
  }

  /** No render has given its counter back in the first `n` steps. */
  predicate Quiet(steps: seq<Step>, n: nat) {
    forall i | 0 <= i < n && i < |steps| :: !steps[i].Uncount?
  }

  /** A sweep's best load is still no more than any counter it has read. */
  predicate SweepLow(cfg: Config, s: Pool, p: Phase)
    requires ValidConfig(cfg) && Sized(cfg, s)
  {
    p.Scanning? ==>
      && p.slot + cfg.lanes <= TWO_64 && p.offset <= cfg.lanes
      && (p.offset > 0 ==> 0 <= p.best < cfg.lanes)
      && (p.offset == 0 ==> p == EmptyScan(cfg, p.slot, p.begunAt))
      && forall o | 0 <= o < p.offset :: p.bestLoad <= s.load[LaneAt(p.slot, o, cfg.lanes)]
  }

  predicate Level(cfg: Config, s: Pool)
    requires ValidConfig(cfg)
  {
    && Sized(cfg, s) && Balanced(s.load) && s.changes == Sum(s.load)
    && s.next <= Count(s.calls, Begun)
    && (forall c | 0 <= c < |s.calls| :: SweepLow(cfg, s, s.calls[c].phase))
  }

  lemma MulMono(a: int, b: int, n: nat)
    ensures a <= b ==> a * n <= b * n
  {
  }

  lemma ModIs(x: int, n: nat, q: int, r: nat)
    requires n > 0 && x == q * n + r && r < n
    ensures x % n == r
  {
    var q' := x / n;
    assert x == q' * n + x % n;
    MulMono(q' + 1, q, n);
    MulMono(q + 1, q', n);
    assert (q' + 1) * n == q' * n + n && (q + 1) * n == q * n + n;
  }

  lemma Unwrapped(slot: nat, o: nat, lanes: nat)
    requires 0 < lanes && slot + o < TWO_64
    ensures LaneAt(slot, o, lanes) == (slot + o) % lanes
  {
  }

  /** A sweep that does not wrap around uint64 reads every lane. */
  lemma SweepCovers(slot: nat, lanes: nat, lane: nat) returns (o: nat)
    requires lane < lanes && slot + lanes <= TWO_64
    ensures o < lanes && LaneAt(slot, o, lanes) == lane
  {
    hide LaneAt;
    var q, r := slot / lanes, slot % lanes;
    assert slot == q * lanes + r;
    if r <= lane {
      o := lane - r;
      ModIs(slot + o, lanes, q, lane);
    } else {
      o := lane + lanes - r;
      assert (q + 1) * lanes == q * lanes + lanes;
      ModIs(slot + o, lanes, q + 1, lane);
    }
    Unwrapped(slot, o, lanes);
  }

  lemma WrappedLane(slot: nat, o: nat, lanes: nat)
    requires slot < TWO_64 && o < lanes <= MAX_INT64 && slot + o >= TWO_64
    ensures LaneAt(slot, o, lanes) == slot + o - TWO_64
  {
    var rest := slot + o - TWO_64;
    ModIs(slot + o, TWO_64, 1, rest);
    ModIs(rest, lanes, 0, rest);
  }

  /** The lane read before the wrap, counted back from 2^64. */
  lemma LaneBeforeWrap(slot: nat, o: nat, lanes: nat)
    requires slot + o < TWO_64 && TWO_64 - slot - o <= lanes
    ensures var r, back := TWO_64 % lanes, TWO_64 - slot - o;
            LaneAt(slot, o, lanes) == if r >= back then r - back else r - back + lanes
  {
    hide LaneAt;
    var q, r, back := TWO_64 / lanes, TWO_64 % lanes, TWO_64 - slot - o;
    Unwrapped(slot, o, lanes);
    assert TWO_64 == q * lanes + r;
    if r >= back {
      ModIs(slot + o, lanes, q, r - back);
    } else {
      assert (q - 1) * lanes == q * lanes - lanes;
      ModIs(slot + o, lanes, q - 1, r - back + lanes);
    }
  }

  /** When the sweep wraps and 2^64 is no multiple of the lane count, it misses this lane. */
  lemma WrapMissesALane(slot: nat, lanes: nat, o: nat)
    requires slot < TWO_64 < slot + lanes && lanes <= MAX_INT64 && TWO_64 % lanes != 0 && o < lanes
    ensures var r, a := TWO_64 % lanes, TWO_64 - slot;
            LaneAt(slot, o, lanes) != if r >= lanes - a then r else lanes - a
  {
    hide LaneAt;
    if slot + o < TWO_64 { LaneBeforeWrap(slot, o, lanes); } else { WrappedLane(slot, o, lanes); }
  }

  lemma WholeWrapCovers(slot: nat, lanes: nat, lane: nat) returns (o: nat)
    requires slot < TWO_64 < slot + lanes && lane < lanes <= MAX_INT64 && TWO_64 % lanes == 0
    ensures o < lanes && LaneAt(slot, o, lanes) == lane
  {
    hide LaneAt;
    var a := TWO_64 - slot;
    if lane < lanes - a {
      o := lane + a;
      WrappedLane(slot, o, lanes);
    } else {
      o := lane - (lanes - a);
      LaneBeforeWrap(slot, o, lanes);
    }
  }

  predicate Reads(slot: nat, lanes: nat, lane: nat)
    requires lanes > 0
  {
    exists o | 0 <= o < lanes :: LaneAt(slot, o, lanes) == lane
  }

  /** Exactly when a sweep reads every lane: it does not wrap around uint64, or 2^64 is a
      multiple of the lane count. */
  lemma ReadsAllIff(slot: nat, lanes: nat)
    requires slot < TWO_64 && 0 < lanes <= MAX_INT64
    ensures (forall lane | 0 <= lane < lanes :: Reads(slot, lanes, lane)) <==>
            slot + lanes <= TWO_64 || TWO_64 % lanes == 0
  {
    hide LaneAt;
    if slot + lanes <= TWO_64 || TWO_64 % lanes == 0 {
      forall lane | 0 <= lane < lanes ensures Reads(slot, lanes, lane) {
        var o;
        if slot + lanes <= TWO_64 { o := SweepCovers(slot, lanes, lane); }
        else { o := WholeWrapCovers(slot, lanes, lane); }
      }
    } else {
      var r, a := TWO_64 % lanes, TWO_64 - slot;
      var missed := if r >= lanes - a then r else lanes - a;
      assert !Reads(slot, lanes, missed) by {
        forall o | 0 <= o < lanes ensures LaneAt(slot, o, lanes) != missed { WrapMissesALane(slot, lanes, o); }
      }
    }
  }

  /** The lane a complete sweep settles on is a least loaded one at the time of the claim. */
  lemma SettledIsLeast(cfg: Config, s: Pool, p: Phase)
    requires ValidConfig(cfg) && Sized(cfg, s) && SweepLow(cfg, s, p)
    requires p.Scanning? && p.offset == cfg.lanes
    ensures forall l | 0 <= l < cfg.lanes :: p.bestLoad <= s.load[l]
  {
    forall l | 0 <= l < cfg.lanes ensures p.bestLoad <= s.load[l] {
      var o := SweepCovers(p.slot, cfg.lanes, l);
    }
  }

  lemma ReadKeepsLow(cfg: Config, s: Pool, p: Phase)
    requires ValidConfig(cfg) && Sized(cfg, s) && SweepLow(cfg, s, p)
    requires p.Scanning? && p.offset < cfg.lanes
    requires forall l | 0 <= l < cfg.lanes :: 0 <= s.load[l] < MAX_INT64
    ensures SweepLow(cfg, s, AfterRead(cfg, s, p))
  {
    hide LaneAt;
    var p' := AfterRead(cfg, s, p);
    var lane := LaneAt(p.slot, p.offset, cfg.lanes);
    assert p.offset == 0 ==> p'.best == lane;
    forall o | 0 <= o < p'.offset ensures p'.bestLoad <= s.load[LaneAt(p.slot, o, cfg.lanes)] {
      if o < p.offset { assert p.bestLoad <= s.load[LaneAt(p.slot, o, cfg.lanes)]; }
    }
  }

  lemma LoadIsSmall(cfg: Config, s: Pool, l: nat)
    requires Conserved(cfg, s) && l < cfg.lanes
    ensures 0 <= s.load[l] <= |s.calls|
  {
    CountBounded(s.calls, OnLane(l));
  }

  /** Loads that only grow keep every sweep low. */
  lemma GrowthKeepsLow(cfg: Config, s: Pool, s': Pool, p: Phase)
    requires ValidConfig(cfg) && Sized(cfg, s) && Sized(cfg, s') && SweepLow(cfg, s, p)
    requires forall l | 0 <= l < cfg.lanes :: s.load[l] <= s'.load[l]
    ensures SweepLow(cfg, s', p)
  {
    hide LaneAt;
  }

  /** The moved call's own sweep stays low. */
  lemma MoverStaysLow(cfg: Config, s: Pool, step: Step)
    requires ValidConfig(cfg) && Level(cfg, s) && Conserved(cfg, s) && Enabled(cfg, s, step)
    requires !step.Arrive? && |s.calls| < MAX_INT64
    ensures SweepLow(cfg, Apply(cfg, s, step), Apply(cfg, s, step).calls[step.c].phase)
  {
    var c := step.c;
    var p := s.calls[c].phase;
    assert SweepLow(cfg, s, p);
    if step.Read? {
      forall l | 0 <= l < cfg.lanes ensures 0 <= s.load[l] < MAX_INT64 { LoadIsSmall(cfg, s, l); }
      ReadKeepsLow(cfg, s, p);
    } else if step.StartScan? {
      CountBounded(s.calls, Begun);
    }
  }

  lemma ClaimKeepsBalance(cfg: Config, s: Pool, c: nat)
    requires ValidConfig(cfg) && Level(cfg, s) && Enabled(cfg, s, Claim(c))
    ensures var s' := Apply(cfg, s, Claim(c));
            Balanced(s'.load) && s'.changes == Sum(s'.load) && forall l | 0 <= l < cfg.lanes :: s.load[l] <= s'.load[l]
  {
    hide LaneAt;
    var p := s.calls[c].phase;
    assert SweepLow(cfg, s, p);
    SettledIsLeast(cfg, s, p);
    SumUpdate(s.load, p.best, s.load[p.best] + 1);
  }

  lemma ArriveKeepsLevel(cfg: Config, s: Pool)
    requires ValidConfig(cfg) && Level(cfg, s)
    ensures Level(cfg, Apply(cfg, s, Arrive))
  {
    hide LaneAt, Balanced;
    var s' := Apply(cfg, s, Arrive);
    CountArrive(s.calls, Call(Waiting, 0), Begun);
    forall c | 0 <= c < |s'.calls| ensures SweepLow(cfg, s', s'.calls[c].phase) {
      if c < |s.calls| { assert SweepLow(cfg, s, s.calls[c].phase); }
    }
  }

  lemma StepKeepsCursor(cfg: Config, s: Pool, step: Step)
    requires ValidConfig(cfg) && Sized(cfg, s) && Enabled(cfg, s, step) && !step.Arrive?
    requires s.next <= Count(s.calls, Begun) && |s.calls| < MAX_INT64
    ensures Apply(cfg, s, step).next <= Count(Apply(cfg, s, step).calls, Begun)
  {
    hide Count, LaneAt, Better;
    CountMove(s.calls, step.c, Apply(cfg, s, step).calls[step.c], Begun);
    CountBounded(s.calls, Begun);
  }

  lemma StepKeepsLevel(cfg: Config, s: Pool, step: Step)
    requires ValidConfig(cfg) && Level(cfg, s) && Conserved(cfg, s) && Enabled(cfg, s, step)
    requires !step.Uncount? && |s.calls| < MAX_INT64
    ensures Level(cfg, Apply(cfg, s, step))
  {
    hide LaneAt;
    if step.Arrive? {
      ArriveKeepsLevel(cfg, s);
    } else {
      if step.Claim? { ClaimKeepsBalance(cfg, s, step.c); }
      MoverStaysLow(cfg, s, step);
      StepKeepsCursor(cfg, s, step);
      OthersStayLow(cfg, s, step);
      hide Conserved, SweepLow, Count, Balanced, Sum;
    }
  }

  lemma OthersStayLow(cfg: Config, s: Pool, step: Step)
    requires ValidConfig(cfg) && Level(cfg, s) && Enabled(cfg, s, step)
    requires !step.Arrive? && !step.Uncount?
    ensures var s' := Apply(cfg, s, step);
            forall c | 0 <= c < |s.calls| && c != step.c :: SweepLow(cfg, s', s'.calls[c].phase)
  {
    var s' := Apply(cfg, s, step);
    forall c | 0 <= c < |s.calls| && c != step.c ensures SweepLow(cfg, s', s'.calls[c].phase) {
      assert SweepLow(cfg, s, s.calls[c].phase);
      GrowthKeepsLow(cfg, s, s', s.calls[c].phase);
    }
  }

  lemma CallsGrow(cfg: Config, s: Pool, step: Step)
    requires ValidConfig(cfg) && Sized(cfg, s) && Enabled(cfg, s, step)
    ensures |s.calls| <= |Apply(cfg, s, step).calls|
  {
  }

  lemma {:induction false} RunStaysLevel(cfg: Config, steps: seq<Step>, states: seq<Pool>, i: nat)
    requires ValidConfig(cfg) && IsRun(cfg, steps, states) && i < |states| && Quiet(steps, i)
    requires |states[i].calls| < MAX_INT64
    ensures Level(cfg, states[i])
  {
    if i == 0 {
      SumOfZeros(cfg.lanes);
    } else {
      CallsGrow(cfg, states[i - 1], steps[i - 1]);
      RunStaysLevel(cfg, steps, states, i - 1);
      RunConserves(cfg, steps, states, i - 1);
      StepKeepsLevel(cfg, states[i - 1], steps[i - 1]);
    }
  }

  /** Until some render gives its counter back, in every interleaving from an idle pool: lane
      loads never differ by more than one, no call sweeps again more often than lanes were
      claimed, and a call that has read every counter has a lane to claim. */
  lemma LanesStayBalanced(cfg: Config, steps: seq<Step>, states: seq<Pool>, i: nat)
    requires ValidConfig(cfg) && IsRun(cfg, steps, states) && i < |states| && Quiet(steps, i)
    requires |states[i].calls| < MAX_INT64
    ensures var s := states[i];
            && Balanced(s.load)
            && Sum(s.load) <= cfg.outerLimit
            && forall c | 0 <= c < |s.calls| ::
                 && s.calls[c].retries <= Sum(s.load)
                 && (s.calls[c].phase.Scanning? && s.calls[c].phase.offset == cfg.lanes ==>
                       Enabled(cfg, s, Claim(c)))
  {
    var s := states[i];
    RunStaysLevel(cfg, steps, states, i);
    RunKeepsSweeps(cfg, steps, states, i);
    RunConserves(cfg, steps, states, i);
    CountLess(s.calls, Counted, InOuter);
    hide LaneAt, Count, Sum, Balanced;
    forall c | 0 <= c < |s.calls|
      ensures s.calls[c].retries <= Sum(s.load)
      ensures s.calls[c].phase.Scanning? && s.calls[c].phase.offset == cfg.lanes ==> Enabled(cfg, s, Claim(c))
    {
      assert SweepOk(cfg, s, s.calls[c]) && SweepLow(cfg, s, s.calls[c].phase);
    }
  }

  // ----- A sweep always ends with a lane -----

  /** A sweep that has read a counter has a best lane. */
  predicate SweepHasLane(cfg: Config, p: Phase) {
    p.Scanning? ==>
      && (p.offset == 0 ==> p == EmptyScan(cfg, p.slot, p.begunAt))
      && (p.offset > 0 ==> 0 <= p.best < cfg.lanes)
  }

  predicate SweepsHaveLanes(cfg: Config, s: Pool) {
    forall c | 0 <= c < |s.calls| :: SweepHasLane(cfg, s.calls[c].phase)
  }

  lemma StepKeepsLanes(cfg: Config, s: Pool, step: Step)
    requires ValidConfig(cfg) && Conserved(cfg, s) && Enabled(cfg, s, step) && |s.calls| < MAX_INT64
    requires SweepsHaveLanes(cfg, s)
    ensures SweepsHaveLanes(cfg, Apply(cfg, s, step))
  {
    if step.Read? { LoadIsSmall(cfg, s, LaneAt(s.calls[step.c].phase.slot, s.calls[step.c].phase.offset, cfg.lanes)); }
    ConservedCaps(cfg, s);
    hide Conserved, LaneAt, Count, Sum;
    var s' := Apply(cfg, s, step);
    forall c | 0 <= c < |s'.calls| ensures SweepHasLane(cfg, s'.calls[c].phase) {
      if c < |s.calls| { assert SweepHasLane(cfg, s.calls[c].phase); }
    }
  }

  lemma {:induction false} RunKeepsLanes(cfg: Config, steps: seq<Step>, states: seq<Pool>, i: nat)
    requires ValidConfig(cfg) && IsRun(cfg, steps, states) && i < |states| && |states[i].calls| < MAX_INT64
    ensures SweepsHaveLanes(cfg, states[i])
  {
    if i > 0 {
      CallsGrow(cfg, states[i - 1], steps[i - 1]);
      RunKeepsLanes(cfg, steps, states, i - 1);
      RunConserves(cfg, steps, states, i - 1);
      StepKeepsLanes(cfg, states[i - 1], steps[i - 1]);
    }
  }

  /** In every run, completions included, a call that has read every counter has a lane to
      claim: the code never indexes its lanes with "no lane". */
  lemma SweepEndsWithALane(cfg: Config, steps: seq<Step>, states: seq<Pool>, i: nat, c: nat)
    requires ValidConfig(cfg) && IsRun(cfg, steps, states) && i < |states| && |states[i].calls| < MAX_INT64
    requires c < |states[i].calls|
    ensures var p := states[i].calls[c].phase;
            p.Scanning? && p.offset == cfg.lanes ==>
              0 <= p.best < cfg.lanes && Enabled(cfg, states[i], Claim(c))
  {
    RunKeepsLanes(cfg, steps, states, i);
    assert SweepHasLane(cfg, states[i].calls[c].phase);
  }

  /** Balanced loads that sum to no more than `lanes * cap` are each within `cap`. */
  lemma BalancedWithin(load: seq<int>, l: nat, cap: nat)
    requires Balanced(load) && l < |load| && Sum(load) <= cap * |load|
    ensures load[l] <= cap
  {
    if load[l] > cap {
      var low := load[l := cap];
      SumUpdate(load, l, cap);
      SumAtLeast(low, cap);
    }
  }

  /** With each lane capped at its rounded-up share of the outer limit, no admitted call ever
      has to wait inside a lane, until some render gives its counter back. */
  lemma NoWaitInsideALane(cfg: Config, steps: seq<Step>, states: seq<Pool>, i: nat, c: nat)
    requires ValidConfig(cfg) && IsRun(cfg, steps, states) && i < |states| && Quiet(steps, i)
    requires |states[i].calls| < MAX_INT64
    requires cfg.perLane == LanesPerSocket(cfg.outerLimit, cfg.lanes)
    requires c < |states[i].calls| && states[i].calls[c].phase.Assigned?
    ensures Enabled(cfg, states[i], EnterLane(c))
  {
    var s := states[i];
    LanesStayBalanced(cfg, steps, states, i);
    RunConserves(cfg, steps, states, i);
    var l := s.calls[c].phase.lane;
    assert ValidLane(cfg, s.calls[c].phase);
    BalancedWithin(s.load, l, cfg.perLane);
    CountSplit(s.calls, InLane(l), Queued(l), OnLane(l));
    CountSome(s.calls, c, Queued(l));
  }
}
