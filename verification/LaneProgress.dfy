/**
 What the render admission grants, not only what it forbids: a waiting call enters exactly when
 a slot is free, left alone it comes to render, the outer limit is reached, and the sweeps
 start in rotation.
 */
module LaneProgress {
  import opened LaneScheduler

  function LastOf(states: seq<Pool>): Pool
    requires states != []
  {
    states[|states| - 1]
  }

  // ----- Admission -----

  /** In every state of every run a waiting call can enter exactly when fewer calls than the
      outer limit are inside, and an assigned call its lane exactly when a slot of it is free. */
  lemma AdmittedIffFree(cfg: Config, steps: seq<Step>, states: seq<Pool>, i: nat, c: nat)
    requires ValidConfig(cfg) && IsRun(cfg, steps, states) && i < |states| && c < |states[i].calls|
    ensures var s := states[i];
            match s.calls[c].phase
            case Waiting => Enabled(cfg, s, EnterOuter(c)) <==> Count(s.calls, InOuter) < cfg.outerLimit
            case Assigned(l) => Enabled(cfg, s, EnterLane(c)) <==> Count(s.calls, InLane(l)) < cfg.perLane
            case _ => true
  {
    RunConserves(cfg, steps, states, i);
    assert ValidLane(cfg, states[i].calls[c].phase);
    hide Count, Sum;
  }

  // ----- One call left alone -----

  predicate StepsOf(steps: seq<Step>, c: nat) {
    forall i | 0 <= i < |steps| :: !steps[i].Arrive? && !steps[i].Uncount? && steps[i].c == c
  }

  lemma Extend(cfg: Config, steps: seq<Step>, states: seq<Pool>, step: Step)
    requires ValidConfig(cfg) && IsRun(cfg, steps, states) && Enabled(cfg, LastOf(states), step)
    ensures IsRun(cfg, steps + [step], states + [Apply(cfg, LastOf(states), step)])
  {
    var s' := Apply(cfg, LastOf(states), step);
    StepKeepsSize(cfg, LastOf(states), step);
    hide Apply, Enabled, Init;
    var all, done := states + [s'], steps + [step];
    forall i | 0 <= i < |done| ensures Enabled(cfg, all[i], done[i]) && all[i + 1] == Apply(cfg, all[i], done[i]) {
      if i < |steps| { assert all[i] == states[i] && all[i + 1] == states[i + 1] && done[i] == steps[i]; }
    }
  }

  lemma StepKeepsSize(cfg: Config, s: Pool, step: Step)
    requires ValidConfig(cfg) && Sized(cfg, s) && Enabled(cfg, s, step)
    ensures Sized(cfg, Apply(cfg, s, step))
  {
  }

  /** A sweep of counters that nobody else changes: its best lane is what it read, and no more
      loaded than any other it read. */
  predicate SweptAlone(cfg: Config, s: Pool, p: Phase)
    requires ValidConfig(cfg) && Sized(cfg, s)
  {
    && p.Scanning? && p.offset <= cfg.lanes
    && (p.offset == 0 ==> p == EmptyScan(cfg, p.slot, p.begunAt))
    && (p.offset > 0 ==> 0 <= p.best < cfg.lanes && p.bestLoad == s.load[p.best])
    && (forall o | 0 <= o < p.offset :: p.bestLoad <= s.load[LaneAt(p.slot, o, cfg.lanes)])
  }

  lemma ReadAlone(cfg: Config, s: Pool, p: Phase)
    requires ValidConfig(cfg) && Sized(cfg, s) && SweptAlone(cfg, s, p) && p.offset < cfg.lanes
    requires forall l | 0 <= l < cfg.lanes :: 0 <= s.load[l] < MAX_INT64
    ensures SweptAlone(cfg, s, AfterRead(cfg, s, p)) && AfterRead(cfg, s, p).offset == p.offset + 1
    ensures AfterRead(cfg, s, p).slot == p.slot
  {
    hide LaneAt;
    var p' := AfterRead(cfg, s, p);
    forall o | 0 <= o < p'.offset ensures p'.bestLoad <= s.load[LaneAt(p.slot, o, cfg.lanes)] {
      if o < p.offset { assert p.bestLoad <= s.load[LaneAt(p.slot, o, cfg.lanes)]; }
    }
  }

  predicate SmallLoads(cfg: Config, s: Pool) {
    Sized(cfg, s) && forall l | 0 <= l < cfg.lanes :: 0 <= s.load[l] < MAX_INT64
  }

  lemma LoadsAreSmall(cfg: Config, steps: seq<Step>, states: seq<Pool>)
    requires ValidConfig(cfg) && IsRun(cfg, steps, states) && |LastOf(states).calls| < MAX_INT64
    ensures SmallLoads(cfg, LastOf(states))
  {
    RunConserves(cfg, steps, states, |states| - 1);
    forall l | 0 <= l < cfg.lanes ensures 0 <= LastOf(states).load[l] < MAX_INT64 {
      LoadIsSmall(cfg, LastOf(states), l);
    }
  }

  /** All reads of one sweep, one after another. */
  lemma {:induction false} SweepAlone(cfg: Config, steps: seq<Step>, states: seq<Pool>, c: nat) returns (done: seq<Step>, all: seq<Pool>)
    requires ValidConfig(cfg) && IsRun(cfg, steps, states) && c < |LastOf(states).calls|
    requires SmallLoads(cfg, LastOf(states)) && SweptAlone(cfg, LastOf(states), LastOf(states).calls[c].phase)
    ensures IsRun(cfg, steps + done, all) && StepsOf(done, c)
    ensures var s, s' := LastOf(states), LastOf(all);
            && c < |s'.calls| && SweptAlone(cfg, s', s'.calls[c].phase)
            && s'.calls[c].phase.offset == cfg.lanes && s'.calls[c].phase.slot == s.calls[c].phase.slot
            && s' == s.(calls := s.calls[c := s.calls[c].(phase := s'.calls[c].phase)])
    decreases cfg.lanes - LastOf(states).calls[c].phase.offset
  {
    var s := LastOf(states);
    var p := s.calls[c].phase;
    if p.offset == cfg.lanes {
      done, all := [], states;
      assert steps + [] == steps;
      assert s.calls[c := s.calls[c].(phase := p)] == s.calls;
    } else {
      ReadAlone(cfg, s, p);
      Extend(cfg, steps, states, Read(c));
      var s1 := Apply(cfg, s, Read(c));
      hide LaneAt, Better;
      assert s1.calls[c].phase == AfterRead(cfg, s, p) && SweptAlone(cfg, s1, s1.calls[c].phase);
      var more;
      more, all := SweepAlone(cfg, steps + [Read(c)], states + [s1], c);
      done := [Read(c)] + more;
      assert steps + done == steps + [Read(c)] + more;
      assert forall i | 0 < i < |done| :: done[i] == more[i - 1];
    }
  }

  lemma StepsAppend(a: seq<Step>, b: seq<Step>, c: nat)
    requires StepsOf(a, c) && StepsOf(b, c)
    ensures StepsOf(a + b, c)
  {
  }

  /** From waiting to the end of the first sweep. */
  lemma EnterAndSweep(cfg: Config, steps: seq<Step>, states: seq<Pool>, c: nat) returns (done: seq<Step>, all: seq<Pool>)
    requires ValidConfig(cfg) && IsRun(cfg, steps, states) && c < |LastOf(states).calls|
    requires LastOf(states).calls[c].phase.Waiting? && Enabled(cfg, LastOf(states), EnterOuter(c))
    requires SmallLoads(cfg, LastOf(states))
    ensures IsRun(cfg, steps + done, all) && StepsOf(done, c)
    ensures var s, s' := LastOf(states), LastOf(all);
            && c < |s'.calls| && SweptAlone(cfg, s', s'.calls[c].phase)
            && s'.calls[c].phase.offset == cfg.lanes && s'.calls[c].phase.slot == s.next
            && s'.calls == s.calls[c := s.calls[c].(phase := s'.calls[c].phase)]
            && s'.load == s.load && s'.held == s.held
  {
    hide LaneAt, Better;
    var s := LastOf(states);
    Extend(cfg, steps, states, EnterOuter(c));
    var s1 := Apply(cfg, s, EnterOuter(c));
    var steps1, states1 := steps + [EnterOuter(c)], states + [s1];
    Extend(cfg, steps1, states1, StartScan(c));
    var s2 := Apply(cfg, s1, StartScan(c));
    var steps2, states2 := steps1 + [StartScan(c)], states1 + [s2];
    assert SweptAlone(cfg, s2, s2.calls[c].phase);
    var more;
    more, all := SweepAlone(cfg, steps2, states2, c);
    done := [EnterOuter(c), StartScan(c)] + more;
    assert steps + done == steps2 + more;
    StepsAppend([EnterOuter(c), StartScan(c)], more, c);
  }

  /** The lane settled on, and how far its call gets without anyone giving a slot back. */
  function Settled(cfg: Config, s: Pool, l: nat): Phase
    requires l < |s.held|
  {
    if s.held[l] < cfg.perLane then Running(l) else Assigned(l)
  }

  /** The claim after a sweep nobody disturbed succeeds, and the lane is entered if it has a
      free slot. */
  lemma ClaimAndRender(cfg: Config, steps: seq<Step>, states: seq<Pool>, c: nat) returns (done: seq<Step>, all: seq<Pool>)
    requires ValidConfig(cfg) && IsRun(cfg, steps, states) && c < |LastOf(states).calls|
    requires SweptAlone(cfg, LastOf(states), LastOf(states).calls[c].phase)
    requires LastOf(states).calls[c].phase.offset == cfg.lanes
    ensures IsRun(cfg, steps + done, all) && StepsOf(done, c)
    ensures var s, s' := LastOf(states), LastOf(all);
            var l := s.calls[c].phase.best;
            s'.calls == s.calls[c := s.calls[c].(phase := Settled(cfg, s, l))]
  {
    hide LaneAt, Better;
    var s := LastOf(states);
    var l := s.calls[c].phase.best;
    Extend(cfg, steps, states, Claim(c));
    var s1 := Apply(cfg, s, Claim(c));
    var steps1, states1 := steps + [Claim(c)], states + [s1];
    done, all := [Claim(c)], states1;
    if s.held[l] < cfg.perLane {
      Extend(cfg, steps1, states1, EnterLane(c));
      var s2 := Apply(cfg, s1, EnterLane(c));
      var steps2, states2 := steps1 + [EnterLane(c)], states1 + [s2];
      Extend(cfg, steps2, states2, Begin(c));
      done, all := [Claim(c), EnterLane(c), Begin(c)], states2 + [Apply(cfg, s2, Begin(c))];
      assert steps + done == steps2 + [Begin(c)];
    }
  }

  /** From any state of any run: a waiting call, with a slot of the outer limit free and left
      alone, settles on a lane, a least loaded one unless its sweep wraps around uint64, and
      renders there if that lane has a free slot. */
  lemma LeftAloneItRenders(cfg: Config, steps: seq<Step>, states: seq<Pool>, c: nat)
    returns (done: seq<Step>, all: seq<Pool>, l: nat)
    requires ValidConfig(cfg) && IsRun(cfg, steps, states) && |LastOf(states).calls| < MAX_INT64
    requires c < |LastOf(states).calls| && LastOf(states).calls[c].phase.Waiting?
    requires Count(LastOf(states).calls, InOuter) < cfg.outerLimit
    ensures IsRun(cfg, steps + done, all) && StepsOf(done, c) && l < cfg.lanes
    ensures var s := LastOf(states);
            && LastOf(all).calls == s.calls[c := s.calls[c].(phase := Settled(cfg, s, l))]
            && (s.next + cfg.lanes <= TWO_64 ==> forall k | 0 <= k < cfg.lanes :: s.load[l] <= s.load[k])
  {
    hide LaneAt, Count, Sum, Apply;
    var s := LastOf(states);
    AdmittedIffFree(cfg, steps, states, |states| - 1, c);
    LoadsAreSmall(cfg, steps, states);
    var first, mid := EnterAndSweep(cfg, steps, states, c);
    var m := LastOf(mid);
    var p := m.calls[c].phase;
    l := p.best;
    var second;
    second, all := ClaimAndRender(cfg, steps + first, mid, c);
    done := first + second;
    assert steps + done == steps + first + second;
    StepsAppend(first, second, c);
    if s.next + cfg.lanes <= TWO_64 {
      forall k | 0 <= k < cfg.lanes ensures s.load[l] <= s.load[k] {
        var o := SweepCovers(p.slot, cfg.lanes, k);
      }
    }
  }

  // ----- A call leaves nothing behind -----

  /** What is left of a pool when a call with a counter of lane `l` is gone. */
  predicate Gone(s: Pool, s': Pool, c: nat, l: nat)
    requires c < |s.calls| && l < |s.load|
  {
    && s'.calls == s.calls[c := s.calls[c].(phase := Done)]
    && s'.load == s.load[l := s.load[l] - 1] && s'.outer == s.outer - 1
  }

  /** From any state of any run, a cancelled call comes out: one waiting for the outer limit at
      once, with nothing changed, and one waiting for its lane after it gave its counter and its
      slot back. */
  lemma CancelledCallLeaves(cfg: Config, steps: seq<Step>, states: seq<Pool>, c: nat) returns (done: seq<Step>, all: seq<Pool>)
    requires ValidConfig(cfg) && IsRun(cfg, steps, states) && c < |LastOf(states).calls|
    requires LastOf(states).calls[c].phase.Waiting? || LastOf(states).calls[c].phase.Assigned?
    ensures IsRun(cfg, steps + done, all)
    ensures var s, s' := LastOf(states), LastOf(all);
            match s.calls[c].phase
            case Assigned(l) =>
              && l < cfg.lanes && Gone(s, s', c, l) && s'.held == s.held && s'.active == s.active
              && done == [GiveUpLane(c), Uncount(c), LeaveOuter(c)]
            case _ => s' == s.(calls := s.calls[c := s.calls[c].(phase := Done)]) && done == [GiveUp(c)]
  {
    hide LaneAt, Better, Count, Sum;
    var s := LastOf(states);
    RunConserves(cfg, steps, states, |states| - 1);
    assert ValidLane(cfg, s.calls[c].phase);
    if s.calls[c].phase.Waiting? {
      Extend(cfg, steps, states, GiveUp(c));
      done, all := [GiveUp(c)], states + [Apply(cfg, s, GiveUp(c))];
    } else {
      Extend(cfg, steps, states, GiveUpLane(c));
      var s1 := Apply(cfg, s, GiveUpLane(c));
      var more;
      more, all := ReleasedCallLeaves(cfg, steps + [GiveUpLane(c)], states + [s1], c);
      done := [GiveUpLane(c)] + more;
      assert steps + done == steps + [GiveUpLane(c)] + more;
    }
  }

  lemma ReleasedCallLeaves(cfg: Config, steps: seq<Step>, states: seq<Pool>, c: nat) returns (done: seq<Step>, all: seq<Pool>)
    requires ValidConfig(cfg) && IsRun(cfg, steps, states) && c < |LastOf(states).calls|
    requires LastOf(states).calls[c].phase.Released?
    ensures IsRun(cfg, steps + done, all) && done == [Uncount(c), LeaveOuter(c)]
    ensures var s, s' := LastOf(states), LastOf(all);
            var l := s.calls[c].phase.lane;
            l < cfg.lanes && Gone(s, s', c, l) && s'.held == s.held && s'.active == s.active
  {
    hide LaneAt, Better, Conserved, Count, Sum;
    var s := LastOf(states);
    GivingBackNeverBlocks(cfg, steps, states, |states| - 1, c);
    Extend(cfg, steps, states, Uncount(c));
    var s1 := Apply(cfg, s, Uncount(c));
    var steps1, states1 := steps + [Uncount(c)], states + [s1];
    GivingBackNeverBlocks(cfg, steps1, states1, |states1| - 1, c);
    Extend(cfg, steps1, states1, LeaveOuter(c));
    done, all := [Uncount(c), LeaveOuter(c)], states1 + [Apply(cfg, s1, LeaveOuter(c))];
    assert steps + done == steps1 + [LeaveOuter(c)];
  }

  /** A render that ends gives back its activity and its lane's slot. */
  lemma EndedCallReleases(cfg: Config, steps: seq<Step>, states: seq<Pool>, c: nat) returns (all: seq<Pool>)
    requires ValidConfig(cfg) && IsRun(cfg, steps, states) && c < |LastOf(states).calls|
    requires LastOf(states).calls[c].phase.Running?
    ensures IsRun(cfg, steps + [End(c), LeaveLane(c)], all)
    ensures var s, s' := LastOf(states), LastOf(all);
            var l := s.calls[c].phase.lane;
            && l < cfg.lanes && s'.calls == s.calls[c := s.calls[c].(phase := Released(l))]
            && s'.load == s.load && s'.outer == s.outer
            && s.held[l] > 0 && s'.held == s.held[l := s.held[l] - 1]
            && s.active[l] > 0 && s'.active == s.active[l := s.active[l] - 1]
  {
    hide LaneAt, Better, Conserved, Count, Sum;
    var s := LastOf(states);
    GivingBackNeverBlocks(cfg, steps, states, |states| - 1, c);
    Extend(cfg, steps, states, End(c));
    var s1 := Apply(cfg, s, End(c));
    var steps1, states1 := steps + [End(c)], states + [s1];
    GivingBackNeverBlocks(cfg, steps1, states1, |states1| - 1, c);
    Extend(cfg, steps1, states1, LeaveLane(c));
    all := states1 + [Apply(cfg, s1, LeaveLane(c))];
    assert steps1 + [LeaveLane(c)] == steps + [End(c), LeaveLane(c)];
  }

  /** From any state of any run, a render that ends gives back its activity, its lane's slot, its
      counter and its slot of the outer limit, and touches nothing else. */
  lemma FinishedCallLeaves(cfg: Config, steps: seq<Step>, states: seq<Pool>, c: nat) returns (all: seq<Pool>)
    requires ValidConfig(cfg) && IsRun(cfg, steps, states) && c < |LastOf(states).calls|
    requires LastOf(states).calls[c].phase.Running?
    ensures IsRun(cfg, steps + [End(c), LeaveLane(c), Uncount(c), LeaveOuter(c)], all)
    ensures var s, s' := LastOf(states), LastOf(all);
            var l := s.calls[c].phase.lane;
            && l < cfg.lanes && Gone(s, s', c, l)
            && s.held[l] > 0 && s'.held == s.held[l := s.held[l] - 1]
            && s.active[l] > 0 && s'.active == s.active[l := s.active[l] - 1]
  {
    var mid := EndedCallReleases(cfg, steps, states, c);
    var done;
    hide IsRun;
    done, all := ReleasedCallLeaves(cfg, steps + [End(c), LeaveLane(c)], mid, c);
    assert steps + [End(c), LeaveLane(c)] + done == steps + [End(c), LeaveLane(c), Uncount(c), LeaveOuter(c)];
  }

  // ----- The outer limit is reached -----

  predicate AllRunning(cfg: Config, s: Pool) {
    forall c | 0 <= c < |s.calls| :: s.calls[c].phase.Running?
  }

  lemma {:induction false} CountAll(calls: seq<Call>, tag: Tag)
    requires forall c | 0 <= c < |calls| :: Has(tag, calls[c].phase)
    ensures Count(calls, tag) == |calls|
  {
    if calls != [] { CountAll(calls[..|calls| - 1], tag); }
  }

  lemma LaneHasRoom(cfg: Config, s: Pool, l: nat)
    requires Conserved(cfg, s) && l < cfg.lanes && (forall k | 0 <= k < cfg.lanes :: s.load[l] <= s.load[k])
    requires Count(s.calls, Counted) < cfg.perLane * cfg.lanes
    ensures s.held[l] < cfg.perLane
  {
    CountLess(s.calls, InLane(l), OnLane(l));
    if s.load[l] >= cfg.perLane { SumAtLeast(s.load, cfg.perLane); }
  }

  lemma QuietAppend(a: seq<Step>, b: seq<Step>)
    requires Quiet(a, |a|) && Quiet(b, |b|)
    ensures Quiet(a + b, |a + b|)
  {
  }

  lemma OneMore(cfg: Config, steps: seq<Step>, states: seq<Pool>) returns (done: seq<Step>, all: seq<Pool>)
    requires ValidConfig(cfg) && cfg.outerLimit < MAX_INT64 && cfg.outerLimit <= cfg.perLane * cfg.lanes
    requires IsRun(cfg, steps, states) && Quiet(steps, |steps|) && AllRunning(cfg, LastOf(states))
    requires |LastOf(states).calls| < cfg.outerLimit && cfg.lanes + cfg.outerLimit <= TWO_64
    ensures IsRun(cfg, done, all) && Quiet(done, |done|) && AllRunning(cfg, LastOf(all))
    ensures |LastOf(all).calls| == |LastOf(states).calls| + 1
  {
    var s := LastOf(states);
    var n := |s.calls|;
    Extend(cfg, steps, states, Arrive);
    var s1 := Apply(cfg, s, Arrive);
    var steps1, states1 := steps + [Arrive], states + [s1];
    CountAll(s.calls, InOuter);
    CountAll(s.calls, Counted);
    CountArrive(s.calls, Call(Waiting, 0), InOuter);
    CountArrive(s.calls, Call(Waiting, 0), Counted);
    hide Count, Sum, Apply, Enabled, LaneAt;
    var more, l;
    more, all, l := LeftAloneItRenders(cfg, steps1, states1, n);
    done := steps1 + more;
    QuietAppend(steps1, more);
    RunStaysLevel(cfg, steps1, states1, |states1| - 1);
    CountBounded(s1.calls, Begun);
    RunConserves(cfg, steps1, states1, |states1| - 1);
    LaneHasRoom(cfg, s1, l);
  }

  lemma {:induction false} Fill(cfg: Config, n: nat) returns (steps: seq<Step>, states: seq<Pool>)
    requires ValidConfig(cfg) && cfg.outerLimit < MAX_INT64 && cfg.outerLimit <= cfg.perLane * cfg.lanes
    requires n <= cfg.outerLimit && cfg.lanes + cfg.outerLimit <= TWO_64
    ensures IsRun(cfg, steps, states) && Quiet(steps, |steps|) && AllRunning(cfg, LastOf(states))
    ensures |LastOf(states).calls| == n
  {
    if n == 0 {
      steps, states := [], [Init(cfg)];
    } else {
      steps, states := Fill(cfg, n - 1);
      steps, states := OneMore(cfg, steps, states);
    }
  }

  /** The outer limit is no looser than it says: when the lanes hold that many, some run has
      exactly that many renders under way at once. */
  lemma LimitIsReached(cfg: Config) returns (steps: seq<Step>, states: seq<Pool>)
    requires ValidConfig(cfg) && cfg.outerLimit < MAX_INT64 && cfg.outerLimit <= cfg.perLane * cfg.lanes
    ensures IsRun(cfg, steps, states) && Count(LastOf(states).calls, AnyRender) == cfg.outerLimit
  {
    steps, states := Fill(cfg, cfg.outerLimit);
    CountAll(LastOf(states).calls, AnyRender);
  }

  // ----- Rotation -----

  /** How many sweeps were begun, not counting those made again after a lost claim. */
  function Starts(steps: seq<Step>): nat {
    if steps == [] then 0
    else (if steps[|steps| - 1].StartScan? then 1 else 0) + Starts(steps[..|steps| - 1])
  }

  lemma NextSlot(n: nat)
    ensures (n % TWO_64 + 1) % TWO_64 == (n + 1) % TWO_64
  {
  }

  lemma StepMovesCursor(cfg: Config, s: Pool, step: Step)
    requires ValidConfig(cfg) && Sized(cfg, s) && Enabled(cfg, s, step)
    ensures Apply(cfg, s, step).next == if step.StartScan? then (s.next + 1) % TWO_64 else s.next
  {
  }

  lemma {:induction false} CursorCountsSweeps(cfg: Config, steps: seq<Step>, states: seq<Pool>, i: nat)
    requires ValidConfig(cfg) && IsRun(cfg, steps, states) && i < |states|
    ensures states[i].next == Starts(steps[..i]) % TWO_64
  {
    hide Apply, Enabled, LaneAt;
    if i > 0 {
      CursorCountsSweeps(cfg, steps, states, i - 1);
      assert steps[..i][..i - 1] == steps[..i - 1];
      StepMovesCursor(cfg, states[i - 1], steps[i - 1]);
      NextSlot(Starts(steps[..i - 1]));
    }
  }

  lemma StartTakesCursor(cfg: Config, s: Pool, c: nat)
    requires ValidConfig(cfg) && Sized(cfg, s) && Enabled(cfg, s, StartScan(c))
    ensures var s' := Apply(cfg, s, StartScan(c));
            c < |s'.calls| && s'.calls[c].phase.Scanning? && s'.calls[c].phase.offset == 0 && s'.calls[c].phase.slot == s.next
  {
  }

  lemma FirstLane(n: nat, lanes: nat)
    requires n < TWO_64 && lanes > 0
    ensures LaneAt(n % TWO_64, 0, lanes) == n % lanes
  {
    ModIs(n, TWO_64, 0, n);
  }

  /** The sweeps start in rotation: the n-th call to sweep first reads lane n, modulo the number
      of lanes, in every run that makes fewer than 2^64 sweeps. */
  lemma SweepsRotate(cfg: Config, steps: seq<Step>, states: seq<Pool>, i: nat)
    requires ValidConfig(cfg) && IsRun(cfg, steps, states) && i < |steps| && steps[i].StartScan?
    ensures var c := steps[i].c;
            && c < |states[i + 1].calls|
            && var p := states[i + 1].calls[c].phase;
               && p.Scanning? && p.offset == 0 && p.slot == Starts(steps[..i]) % TWO_64
               && (Starts(steps[..i]) < TWO_64 ==> LaneAt(p.slot, 0, cfg.lanes) == Starts(steps[..i]) % cfg.lanes)
  {
    hide Apply, Enabled, LaneAt;
    CursorCountsSweeps(cfg, steps, states, i);
    StartTakesCursor(cfg, states[i], steps[i].c);
    if Starts(steps[..i]) < TWO_64 { FirstLane(Starts(steps[..i]), cfg.lanes); }
  }
}
