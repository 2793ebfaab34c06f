/**
 What a `WaitAndClaim` call is owed: the wait it asked for and no other, the back-off between its
 polls to the second, and that a wake-up, a cancellation and the deadline each get it out.
 */
module LongPollLaws {
  import opened WakeQueue
  import opened LongPoll

  // ----- The deadline is the wait that was asked for -----

  /** The wait a call asked for: 25 seconds when it named none. */
  function WaitAsked(maxWait: int): int { if maxWait == 0 then 25000 else maxWait }

  predicate Accepted(workerKnown: bool, maxWait: int) { workerKnown && maxWait >= 0 }

  /** What the call made with these arguments looks like, at any later time. */
  predicate Owed(now: nat, x: Caller, workerKnown: bool, maxWait: int, want: JobState) {
    && x.want == want
    && (!Accepted(workerKnown, maxWait) ==> x.phase == Returned(Failed) && x.attempts == [])
    && (Accepted(workerKnown, maxWait) ==>
          && x.maxWait == WaitAsked(maxWait)
          && (x.phase.FirstClaim? <==> x.attempts == [])
          && (x.phase.Parking? ==> |x.attempts| == 1 && x.attempts[0].ended == now)
          && (InLoop(x.phase) ==> x.deadline == x.attempts[0].ended + WaitAsked(maxWait))
          && (Outcomes(x.phase) == {TimedOut} ==> now >= x.attempts[0].ended + WaitAsked(maxWait)))
  }

  predicate InLoop(p: Phase) {
    p.Selecting? || p.WokenClaim? || p.Reparking? || p.PollClaim?
  }

  function Outcomes(p: Phase): set<Outcome> {
    match p
    case Leaving(_, outcome) => {outcome}
    case Returned(outcome) => {outcome}
    case _ => {}
  }

  lemma StepKeepsOwed(w: World, step: Step, c: nat, known: bool, maxWait: int, want: JobState)
    requires Enabled(w, step) && c < |w.callers| && Owed(w.now, w.callers[c], known, maxWait, want)
    ensures var w' := Apply(w, step); c < |w'.callers| && Owed(w'.now, w'.callers[c], known, maxWait, want)
  {
  }

  lemma {:induction false} CallIsOwed(steps: seq<Step>, states: seq<World>, i: nat, k: nat)
    requires IsRun(steps, states) && i < k < |states| && steps[i].Call?
    ensures var c := |states[i].callers|;
            && c < |states[k].callers|
            && Owed(states[k].now, states[k].callers[c], steps[i].workerKnown, steps[i].maxWait, steps[i].want)
    decreases k
  {
    hide Owed;
    if k == i + 1 {
      NewIsOwed(states[i], steps[i]);
    } else {
      CallIsOwed(steps, states, i, k - 1);
      StepKeepsOwed(states[k - 1], steps[k - 1], |states[i].callers|, steps[i].workerKnown, steps[i].maxWait, steps[i].want);
    }
  }

  lemma NewIsOwed(w: World, step: Step)
    requires step.Call?
    ensures var w' := Apply(w, step);
            && |w'.callers| == |w.callers| + 1
            && Owed(w'.now, w'.callers[|w.callers|], step.workerKnown, step.maxWait, step.want)
  {
  }

  /** In every run, for the call made by step `i`: a call without a worker or with a negative wait
      fails without an attempt. Any other, while it waits, is within the wait it asked for,
      counted from the answer to its first claim, or has an answer from this very moment; and it
      times out only when that wait is over. */
  lemma WaitsAsAsked(steps: seq<Step>, states: seq<World>, i: nat, k: nat)
    requires IsRun(steps, states) && i < k < |states| && steps[i].Call?
    ensures var c, now := |states[i].callers|, states[k].now;
            && c < |states[k].callers|
            && var x := states[k].callers[c];
               if !steps[i].workerKnown || steps[i].maxWait < 0 then
                 x.phase == Returned(Failed) && x.attempts == []
               else
                 var wait := if steps[i].maxWait == 0 then 25000 else steps[i].maxWait;
                 && (x.phase.Selecting? ==>
                       && x.attempts != []
                       && (now <= x.attempts[0].ended + wait || now == x.attempts[|x.attempts| - 1].ended))
                 && (x.phase == Returned(TimedOut) ==> x.attempts != [] && now >= x.attempts[0].ended + wait)
  {
    CallIsOwed(steps, states, i, k);
    RunKeepsTime(steps, states, k);
    var c := |states[i].callers|;
    assert OnTime(states[k].now, states[k].callers[c]);
    hide CloseTogether, Apply, Enabled;
  }

  // ----- Back-off -----

  /** The delay after `n` empty polls: 1, 2, 4 and 8 seconds, then 10. */
  function Delay(n: nat): nat {
    if n == 0 then 1000 else if n == 1 then 2000 else if n == 2 then 4000 else if n == 3 then 8000 else 10000
  }

  /** The step moves the call other than by a poll that finds nothing. */
  predicate Disturbs(step: Step, c: nat) {
    !MovesNoCall(step) && step.c == c && !step.PollFires? && !step.ClaimEmpty?
  }

  function EmptyPolls(steps: seq<Step>, c: nat): nat {
    if steps == [] then 0
    else (if steps[|steps| - 1] == ClaimEmpty(c) then 1 else 0) + EmptyPolls(steps[..|steps| - 1], c)
  }

  /** Where a call is that has polled `n` times in vain since it parked at `parked`. */
  predicate BackedOff(x: Caller, n: nat, parked: nat) {
    && x.attempts != []
    && var from := if n == 0 then parked else Last(x.attempts).ended;
       match x.phase
       case Selecting(_, delay, pollAt) => delay == Delay(n) && pollAt == from + Delay(n)
       case PollClaim(_, delay, since) => delay == Delay(n) && since == from + Delay(n)
       case _ => false
  }

  lemma StepBacksOff(w: World, step: Step, c: nat, n: nat, parked: nat)
    requires Enabled(w, step) && c < |w.callers| && OnTime(w.now, w.callers[c])
    requires BackedOff(w.callers[c], n, parked) && !Disturbs(step, c)
    ensures var w' := Apply(w, step);
            && c < |w'.callers|
            && BackedOff(w'.callers[c], if step == ClaimEmpty(c) then n + 1 else n, parked)
  {
    hide CloseTogether;
  }

  /** In every run, after a call parks and as long as its polls find nothing, it polls exactly 1,
      2, 4, 8 seconds after the last answer, and every 10 seconds from then on. */
  lemma {:induction false} PollsBackOff(steps: seq<Step>, states: seq<World>, i: nat, k: nat, c: nat)
    requires IsRun(steps, states) && i < k < |states| && steps[i] == ParkCaller(c)
    requires forall j | i < j < k :: !Disturbs(steps[j], c)
    ensures c < |states[k].callers| && BackedOff(states[k].callers[c], EmptyPolls(steps[i + 1..k], c), states[i].now)
    decreases k
  {
    hide BackedOff, OnTime, Apply, Enabled, Disturbs;
    if k == i + 1 {
      RunKeepsTime(steps, states, i);
      ParkStarts(states[i], c);
      assert steps[i + 1..k] == [];
    } else {
      PollsBackOff(steps, states, i, k - 1, c);
      RunKeepsTime(steps, states, k - 1);
      StepBacksOff(states[k - 1], steps[k - 1], c, EmptyPolls(steps[i + 1..k - 1], c), states[i].now);
      assert steps[i + 1..k][..k - 1 - (i + 1)] == steps[i + 1..k - 1];
      assert steps[i + 1..k][k - 1 - (i + 1)] == steps[k - 1];
    }
  }

  lemma ParkStarts(w: World, c: nat)
    requires Enabled(w, ParkCaller(c)) && AllOnTime(w)
    ensures var w' := Apply(w, ParkCaller(c)); c < |w'.callers| && BackedOff(w'.callers[c], 0, w.now)
  {
    assert OnTime(w.now, w.callers[c]);
    hide CloseTogether;
  }

  // ----- Ways out -----

  function LastOf(states: seq<World>): World
    requires states != []
  {
    states[|states| - 1]
  }

  lemma Extend(steps: seq<Step>, states: seq<World>, step: Step)
    requires IsRun(steps, states) && Enabled(LastOf(states), step)
    ensures IsRun(steps + [step], states + [Apply(LastOf(states), step)])
  {
    hide Apply, Enabled;
    var all, done := states + [Apply(LastOf(states), step)], steps + [step];
    forall i | 0 <= i < |done| ensures Enabled(all[i], done[i]) && all[i + 1] == Apply(all[i], done[i]) {
      if i < |steps| { assert all[i] == states[i] && all[i + 1] == states[i + 1] && done[i] == steps[i]; }
    }
  }

  /** From any state of any run: when the longest-parked call is waiting, a submitted job that it
      would take, and the notification of it, let it return with that job before the clock
      moves on. */
  lemma SubmitReachesOldest(steps: seq<Step>, states: seq<World>, c: nat, job: Job, state: JobState) returns (all: seq<World>)
    requires IsRun(steps, states) && c < |LastOf(states).callers| && job !in LastOf(states).submitted
    requires var w := LastOf(states);
             && w.callers[c].phase.Selecting? && w.q.queue != [] && w.q.queue[0] == w.callers[c].phase.ch
             && (w.callers[c].want == 0 || w.callers[c].want == state)
    ensures IsRun(steps + [Submit(job, state), Notify, Receive(c), ClaimGets(c, job)], all)
    ensures var w, w' := LastOf(states), LastOf(all);
            && c < |w'.callers| && w'.callers[c].phase == Returned(Claimed(job)) && w'.now == w.now
            && w'.claimable == w.claimable - {job}
  {
    hide OnTime, Tidy;
    var w := LastOf(states);
    RunStaysTidy(steps, states, |states| - 1);
    assert Inv(w.q) by { TidyQueue(w); }
    WakeOneWakesOldest(w.q);
    hide Inv;
    Extend(steps, states, Submit(job, state));
    var w1 := Apply(w, Submit(job, state));
    var steps1, states1 := steps + [Submit(job, state)], states + [w1];
    Extend(steps1, states1, Notify);
    var w2 := Apply(w1, Notify);
    var steps2, states2 := steps1 + [Notify], states1 + [w2];
    Extend(steps2, states2, Receive(c));
    var w3 := Apply(w2, Receive(c));
    var steps3, states3 := steps2 + [Receive(c)], states2 + [w3];
    Extend(steps3, states3, ClaimGets(c, job));
    all := states3 + [Apply(w3, ClaimGets(c, job))];
    assert steps3 + [ClaimGets(c, job)] == steps + [Submit(job, state), Notify, Receive(c), ClaimGets(c, job)];
  }

  lemma TidyQueue(w: World)
    requires Tidy(w)
    ensures Inv(w.q)
  {
  }

  /** From any state of any run a waiting call can be cancelled, and returns its deadline's answer
      once the deadline has come; either way it unparks its channel. */
  lemma WaitingCanEnd(steps: seq<Step>, states: seq<World>, c: nat, cancel: bool) returns (all: seq<World>)
    requires IsRun(steps, states) && c < |LastOf(states).callers|
    requires var w := LastOf(states); w.callers[c].phase.Selecting? && (cancel || w.now >= w.callers[c].deadline)
    ensures IsRun(steps + [if cancel then Cancel(c) else DeadlineFires(c), ForgetChan(c)], all)
    ensures var w, w' := LastOf(states), LastOf(all);
            && c < |w'.callers| && w'.callers[c].phase == Returned(if cancel then Cancelled else TimedOut)
            && w.callers[c].phase.ch !in w'.q.present && w'.now == w.now
  {
    var w := LastOf(states);
    var out := if cancel then Cancel(c) else DeadlineFires(c);
    Extend(steps, states, out);
    var w1 := Apply(w, out);
    var steps1, states1 := steps + [out], states + [w1];
    Extend(steps1, states1, ForgetChan(c));
    all := states1 + [Apply(w1, ForgetChan(c))];
    assert steps1 + [ForgetChan(c)] == steps + [out, ForgetChan(c)];
  }

  /** A job handed out is of the state its call asked for, and was submitted so. */
  lemma ClaimedAsAsked(steps: seq<Step>, states: seq<World>, i: nat, k: nat, job: Job)
    requires IsRun(steps, states) && i < k < |states| && steps[i].Call?
    requires |states[i].callers| < |states[k].callers|
    requires states[k].callers[|states[i].callers|].phase == Returned(Claimed(job))
    ensures job in states[k].submitted && job !in states[k].claimable
    ensures steps[i].want == 0 || states[k].submitted[job] == steps[i].want
  {
    hide Apply, Enabled;
    CallIsOwed(steps, states, i, k);
    EveryJobAccounted(steps, states, k);
    assert job in Holding(states[k].callers[|states[i].callers|].phase);
  }

  /** A job already claimable is returned by the first claim, without waiting. */
  lemma FirstClaimTakes(steps: seq<Step>, states: seq<World>, maxWait: nat, want: JobState, job: Job) returns (all: seq<World>)
    requires IsRun(steps, states)
    requires var w := LastOf(states);
             job in w.claimable && job in w.submitted && (want == 0 || want == w.submitted[job])
    ensures var w, c := LastOf(states), |LastOf(states).callers|;
            && IsRun(steps + [Call(true, maxWait, want), ClaimGets(c, job)], all)
            && c < |LastOf(all).callers| && LastOf(all).callers[c].phase == Returned(Claimed(job))
            && LastOf(all).now == w.now && LastOf(all).q == w.q
  {
    var w, c := LastOf(states), |LastOf(states).callers|;
    var call := Call(true, maxWait, want);
    Extend(steps, states, call);
    var w1 := Apply(w, call);
    var steps1, states1 := steps + [call], states + [w1];
    Extend(steps1, states1, ClaimGets(c, job));
    all := states1 + [Apply(w1, ClaimGets(c, job))];
    assert steps1 + [ClaimGets(c, job)] == steps + [call, ClaimGets(c, job)];
  }

  /** A poll that is due finds a job no one was woken for, and leaves no channel behind. */
  lemma PollTakes(steps: seq<Step>, states: seq<World>, c: nat, job: Job) returns (all: seq<World>)
    requires IsRun(steps, states) && Offered(LastOf(states), job, c)
    requires var w := LastOf(states); w.callers[c].phase.Selecting? && w.now >= w.callers[c].phase.pollAt
    ensures IsRun(steps + [PollFires(c), ClaimGets(c, job), ForgetChan(c)], all)
    ensures var w, w' := LastOf(states), LastOf(all);
            && c < |w'.callers| && w'.callers[c].phase == Returned(Claimed(job)) && w'.now == w.now
            && w.callers[c].phase.ch !in w'.q.present
  {
    var w := LastOf(states);
    Extend(steps, states, PollFires(c));
    var w1 := Apply(w, PollFires(c));
    var steps1, states1 := steps + [PollFires(c)], states + [w1];
    Extend(steps1, states1, ClaimGets(c, job));
    var w2 := Apply(w1, ClaimGets(c, job));
    var steps2, states2 := steps1 + [ClaimGets(c, job)], states1 + [w2];
    hide Drop;
    assert w.callers[c].phase.ch !in Drop(w2.q, w.callers[c].phase.ch).present by { DropIsGone(w2.q, w.callers[c].phase.ch); }
    Extend(steps2, states2, ForgetChan(c));
    all := states2 + [Apply(w2, ForgetChan(c))];
    assert steps2 + [ForgetChan(c)] == steps + [PollFires(c), ClaimGets(c, job), ForgetChan(c)];
  }

  lemma DropIsGone(q: Queue, ch: Chan)
    ensures ch !in Drop(q, ch).present
  {
  }

  /** A store error ends the call: at once, or after its channel is forgotten. */
  lemma ErrorEndsCall(w: World, c: nat)
    requires c < |w.callers| && InClaim(w.callers[c].phase)
    ensures Enabled(w, ClaimFails(c))
    ensures var p, p' := w.callers[c].phase, Apply(w, ClaimFails(c)).callers[c].phase;
            p' == if p.PollClaim? then Leaving(p.ch, Failed) else Returned(Failed)
  {
  }

  /** After a broadcast every waiting call can take its wake-up. */
  lemma BroadcastReachesAll(steps: seq<Step>, states: seq<World>, c: nat)
    requires IsRun(steps, states) && c < |LastOf(states).callers| && LastOf(states).callers[c].phase.Selecting?
    requires LastOf(states).callers[c].phase.ch in LastOf(states).q.present
    ensures IsRun(steps + [Broadcast], states + [Apply(LastOf(states), Broadcast)])
    ensures Enabled(Apply(LastOf(states), Broadcast), Receive(c))
  {
    var w := LastOf(states);
    RunStaysTidy(steps, states, |states| - 1);
    assert Inv(w.q) by { TidyQueue(w); }
    WakeAllWakesAll(w.q);
    assert w.callers[c].phase.ch in w.q.queue;
    hide Inv, Tidy;
    Extend(steps, states, Broadcast);
  }

  /** A call that finds nothing at first parks a new channel and waits. */
  lemma CallParks(steps: seq<Step>, states: seq<World>, maxWait: nat, want: JobState) returns (all: seq<World>)
    requires IsRun(steps, states) && LastOf(states).claimable == {}
    ensures var w, c := LastOf(states), |LastOf(states).callers|;
            && IsRun(steps + [Call(true, maxWait, want), ClaimEmpty(c), ParkCaller(c)], all)
            && c < |LastOf(all).callers|
            && LastOf(all).callers[c].phase == Selecting(w.q.created, 1000, w.now + 1000)
            && LastOf(all).callers[c].deadline == w.now + WaitAsked(maxWait)
            && LastOf(all).q == Park(w.q)
  {
    var w, c := LastOf(states), |LastOf(states).callers|;
    var call := Call(true, maxWait, want);
    Extend(steps, states, call);
    var w1 := Apply(w, call);
    var steps1, states1 := steps + [call], states + [w1];
    Extend(steps1, states1, ClaimEmpty(c));
    var w2 := Apply(w1, ClaimEmpty(c));
    var steps2, states2 := steps1 + [ClaimEmpty(c)], states1 + [w2];
    Extend(steps2, states2, ParkCaller(c));
    all := states2 + [Apply(w2, ParkCaller(c))];
    assert steps2 + [ParkCaller(c)] == steps + [call, ClaimEmpty(c), ParkCaller(c)];
  }

  /** A call woken in vain parks a new channel, keeps its deadline, and starts its back-off
      again. */
  lemma WokenInVainReparks(steps: seq<Step>, states: seq<World>, c: nat) returns (all: seq<World>)
    requires IsRun(steps, states) && c < |LastOf(states).callers| && LastOf(states).claimable == {}
    requires Enabled(LastOf(states), Receive(c))
    ensures IsRun(steps + [Receive(c), ClaimEmpty(c), ParkCaller(c)], all)
    ensures var w, w' := LastOf(states), LastOf(all);
            && c < |w'.callers| && w'.callers[c].phase == Selecting(w.q.created, 1000, w.now + 1000)
            && w'.callers[c].deadline == w.callers[c].deadline && w'.q == Park(w.q)
  {
    var w := LastOf(states);
    Extend(steps, states, Receive(c));
    var w1 := Apply(w, Receive(c));
    var steps1, states1 := steps + [Receive(c)], states + [w1];
    Extend(steps1, states1, ClaimEmpty(c));
    var w2 := Apply(w1, ClaimEmpty(c));
    var steps2, states2 := steps1 + [ClaimEmpty(c)], states1 + [w2];
    Extend(steps2, states2, ParkCaller(c));
    all := states2 + [Apply(w2, ParkCaller(c))];
    assert steps2 + [ParkCaller(c)] == steps + [Receive(c), ClaimEmpty(c), ParkCaller(c)];
  }

  // ----- A call alone -----

  /** The call waits, unwoken; nobody else is under way, and there is nothing to claim. */
  predicate Alone(w: World, c: nat) {
    && c < |w.callers| && w.claimable == {}
    && w.callers[c].phase.Selecting? && w.callers[c].phase.ch !in w.q.closed && w.now <= w.callers[c].deadline
    && forall d | 0 <= d < |w.callers| && d != c :: w.callers[d].phase.Returned?
  }

  function TimeLeft(w: World, c: nat): nat
    requires Alone(w, c)
  {
    w.callers[c].deadline - w.now
  }

  predicate PollDue(w: World, c: nat)
    requires Alone(w, c)
  {
    w.now >= w.callers[c].phase.pollAt
  }

  /** A poll in vain. */
  lemma PollAlone(steps: seq<Step>, states: seq<World>, c: nat) returns (all: seq<World>)
    requires IsRun(steps, states) && Alone(LastOf(states), c) && PollDue(LastOf(states), c)
    ensures IsRun(steps + [PollFires(c), ClaimEmpty(c)], all) && Alone(LastOf(all), c) && !PollDue(LastOf(all), c)
    ensures LastOf(all).now == LastOf(states).now
    ensures LastOf(all).callers[c].deadline == LastOf(states).callers[c].deadline
  {
    var w := LastOf(states);
    RunKeepsTime(steps, states, |states| - 1);
    assert OnTime(w.now, w.callers[c]);
    hide OnTime, CloseTogether;
    Extend(steps, states, PollFires(c));
    var w1 := Apply(w, PollFires(c));
    var steps1, states1 := steps + [PollFires(c)], states + [w1];
    Extend(steps1, states1, ClaimEmpty(c));
    all := states1 + [Apply(w1, ClaimEmpty(c))];
    assert steps1 + [ClaimEmpty(c)] == steps + [PollFires(c), ClaimEmpty(c)];
  }

  lemma TickAlone(steps: seq<Step>, states: seq<World>, c: nat) returns (all: seq<World>)
    requires IsRun(steps, states) && Alone(LastOf(states), c)
    requires !PollDue(LastOf(states), c) && TimeLeft(LastOf(states), c) > 0
    ensures IsRun(steps + [Tick], all) && Alone(LastOf(all), c)
    ensures LastOf(all).now == LastOf(states).now + 1
    ensures LastOf(all).callers[c].deadline == LastOf(states).callers[c].deadline
  {
    Extend(steps, states, Tick);
    all := states + [Apply(LastOf(states), Tick)];
  }

  /** A call that waits with nothing to claim and nobody to wake it can go on to its deadline, and
      times out at that very moment. */
  lemma {:induction false} AloneTimesOut(steps: seq<Step>, states: seq<World>, c: nat) returns (done: seq<Step>, all: seq<World>)
    requires IsRun(steps, states) && Alone(LastOf(states), c)
    ensures IsRun(steps + done, all) && c < |LastOf(all).callers|
    ensures LastOf(all).callers[c].phase == Returned(TimedOut)
    ensures LastOf(all).now == LastOf(states).callers[c].deadline
    decreases TimeLeft(LastOf(states), c), PollDue(LastOf(states), c)
  {
    hide Apply, Enabled;
    var w := LastOf(states);
    if PollDue(w, c) {
      var mid := PollAlone(steps, states, c);
      var more;
      more, all := AloneTimesOut(steps + [PollFires(c), ClaimEmpty(c)], mid, c);
      done := [PollFires(c), ClaimEmpty(c)] + more;
      assert steps + done == steps + [PollFires(c), ClaimEmpty(c)] + more;
    } else if TimeLeft(w, c) > 0 {
      var mid := TickAlone(steps, states, c);
      var more;
      more, all := AloneTimesOut(steps + [Tick], mid, c);
      done := [Tick] + more;
      assert steps + done == steps + [Tick] + more;
    } else {
      all := WaitingCanEnd(steps, states, c, false);
      done := [DeadlineFires(c), ForgetChan(c)];
    }
  }
}
