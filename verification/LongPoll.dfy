/**
 Long-poll claims: any number of `WaitAndClaim` calls, submits and wake-ups, interleaved at
 every atomic operation. The store's claim may last any time and takes effect in one atomic
 step that takes a matching job or, when there is none, reports that there is none.

 Time is in milliseconds and passes only when every call is blocked in its select or waiting
 for the store: timers fire on time and a runnable call runs before the clock moves on.
 */
module LongPoll {
  import opened WakeQueue

  const SECOND := 1000
  const MAX_POLL_DELAY := 10 * SECOND
  const DEFAULT_WAIT := 25 * SECOND

  type Job = nat
  type JobState = nat

  /** What a call returns: a job, nothing at its deadline, or an error. */
  datatype Outcome = Claimed(job: Job) | TimedOut | Cancelled | Failed

  /** What the store's atomic claim reports. */
  datatype ClaimResult = Got(job: Job) | Nothing | Error

  datatype Phase =
    | FirstClaim(since: nat)
    | Parking
    | Selecting(ch: Chan, pollDelay: nat, pollAt: nat)
    | WokenClaim(since: nat)
    | Reparking
    | PollClaim(ch: Chan, pollDelay: nat, since: nat)
    | Leaving(ch: Chan, outcome: Outcome)
    | Returned(outcome: Outcome)

  /** When a claim was asked for and when the store answered. */
  datatype Attempt = Attempt(begun: nat, ended: nat)

  /** One call. `want` is the job state it asks for, 0 for any. `mine` is every channel it ever
      parked and `attempts` its claim attempts so far. */
  datatype Caller = Caller(want: JobState, maxWait: nat, deadline: nat, phase: Phase, mine: set<Chan>, attempts: seq<Attempt>)

  datatype World = World(now: nat, q: Queue, submitted: map<Job, JobState>, claimable: set<Job>, callers: seq<Caller>)

  const START := World(0, EMPTY, map[], {}, [])

  datatype Step =
    | Call(workerKnown: bool, maxWait: int, want: JobState)
    | Submit(job: Job, state: JobState)
    | Notify | Broadcast | OtherParks | Tick
    | ClaimGets(c: nat, job: Job) | ClaimEmpty(c: nat) | ClaimFails(c: nat)
    | ParkCaller(c: nat) | Receive(c: nat) | PollFires(c: nat) | DeadlineFires(c: nat) | Cancel(c: nat)
    | ForgetChan(c: nat)

  predicate Matches(want: JobState, state: JobState) { want == 0 || want == state }

  predicate InClaim(p: Phase) { p.FirstClaim? || p.WokenClaim? || p.PollClaim? }

  /** A call that cannot move until the store, a wake-up, a timer or a cancellation. */
  predicate Blocked(w: World, x: Caller) {
    || x.phase.Returned?
    || InClaim(x.phase)
    || (x.phase.Selecting? && x.phase.ch !in w.q.closed && w.now < x.phase.pollAt && w.now < x.deadline)
  }

  predicate Enabled(w: World, step: Step) {
    match step
    case Call(_, _, _) => true
    case Submit(job, _) => job !in w.submitted
    case Notify => true
    case Broadcast => true
    case OtherParks => true
    case Tick => forall c | 0 <= c < |w.callers| :: Blocked(w, w.callers[c])
    case ClaimGets(c, job) =>
      && c < |w.callers| && InClaim(w.callers[c].phase)
      && job in w.claimable && job in w.submitted && Matches(w.callers[c].want, w.submitted[job])
    case ClaimEmpty(c) =>
      && c < |w.callers| && InClaim(w.callers[c].phase)
      && forall job | job in w.claimable && job in w.submitted :: !Matches(w.callers[c].want, w.submitted[job])
    case ClaimFails(c) => c < |w.callers| && InClaim(w.callers[c].phase)
    case ParkCaller(c) => c < |w.callers| && (w.callers[c].phase.Parking? || w.callers[c].phase.Reparking?)
    case Receive(c) => c < |w.callers| && w.callers[c].phase.Selecting? && w.callers[c].phase.ch in w.q.closed
    case PollFires(c) => c < |w.callers| && w.callers[c].phase.Selecting? && w.now >= w.callers[c].phase.pollAt
    case DeadlineFires(c) => c < |w.callers| && w.callers[c].phase.Selecting? && w.now >= w.callers[c].deadline
    case Cancel(c) => c < |w.callers| && w.callers[c].phase.Selecting?
    case ForgetChan(c) => c < |w.callers| && w.callers[c].phase.Leaving?
  }

  /** The call as it starts: rejected outright, or about to make its first claim. */
  function NewCaller(workerKnown: bool, maxWait: int, want: JobState, now: nat): Caller {
    if !workerKnown || maxWait < 0 then Caller(want, 0, 0, Returned(Failed), {}, [])
    else Caller(want, if maxWait == 0 then DEFAULT_WAIT else maxWait, 0, FirstClaim(now), {}, [])
  }

  function Backoff(delay: nat): nat {
    if delay * 2 > MAX_POLL_DELAY then MAX_POLL_DELAY else delay * 2
  }

  /** The call after the store answered its claim at `now`. */
  function AfterClaim(x: Caller, now: nat, result: ClaimResult): Caller
    requires InClaim(x.phase)
  {
    var outcome := if result.Got? then Claimed(result.job) else Failed;
    var phase :=
      if result.Nothing? then
        match x.phase
        case FirstClaim(_) => Parking
        case PollClaim(ch, delay, _) => Selecting(ch, Backoff(delay), now + Backoff(delay))
        case _ => Reparking
      else if x.phase.PollClaim? then Leaving(x.phase.ch, outcome)
      else Returned(outcome);
    x.(phase := phase, attempts := x.attempts + [Attempt(x.phase.since, now)])
  }

  function Put(w: World, c: nat, x: Caller): World
    requires c < |w.callers|
  {
    w.(callers := w.callers[c := x])
  }

  function Apply(w: World, step: Step): World
    requires Enabled(w, step)
  {
    match step
    case Call(known, maxWait, want) => w.(callers := w.callers + [NewCaller(known, maxWait, want, w.now)])
    case Submit(job, state) => w.(submitted := w.submitted[job := state], claimable := w.claimable + {job})
    case Notify => w.(q := WakeOne(w.q))
    case Broadcast => w.(q := WakeAll(w.q))
    case OtherParks => w.(q := Park(w.q))
    case Tick => w.(now := w.now + 1)
    case ClaimGets(c, job) => Put(w, c, AfterClaim(w.callers[c], w.now, Got(job))).(claimable := w.claimable - {job})
    case ClaimEmpty(c) => Put(w, c, AfterClaim(w.callers[c], w.now, Nothing))
    case ClaimFails(c) => Put(w, c, AfterClaim(w.callers[c], w.now, Error))
    case ParkCaller(c) =>
      var x, ch := w.callers[c], w.q.created;
      Put(w, c, x.(phase := Selecting(ch, SECOND, w.now + SECOND), mine := x.mine + {ch},
                   deadline := if x.phase.Parking? then w.now + x.maxWait else x.deadline)).(q := Park(w.q))
    case Receive(c) => Put(w, c, w.callers[c].(phase := WokenClaim(w.now)))
    case PollFires(c) => var x := w.callers[c]; Put(w, c, x.(phase := PollClaim(x.phase.ch, x.phase.pollDelay, w.now)))
    case DeadlineFires(c) => var x := w.callers[c]; Put(w, c, x.(phase := Leaving(x.phase.ch, TimedOut)))
    case Cancel(c) => var x := w.callers[c]; Put(w, c, x.(phase := Leaving(x.phase.ch, Cancelled)))
    case ForgetChan(c) =>
      var x := w.callers[c];
      Put(w, c, x.(phase := Returned(x.phase.outcome))).(q := Drop(w.q, x.phase.ch))
  }

  predicate IsRun(steps: seq<Step>, states: seq<World>) {
    && |states| == |steps| + 1 && states[0] == START
    && forall i | 0 <= i < |steps| :: Enabled(states[i], steps[i]) && states[i + 1] == Apply(states[i], steps[i])
  }

  // ----- No channel is left behind -----

  /** The channel a call is responsible for now. */
  function Current(p: Phase): set<Chan> {
    match p
    case Selecting(ch, _, _) => {ch}
    case PollClaim(ch, _, _) => {ch}
    case Leaving(ch, _) => {ch}
    case _ => {}
  }

  /** Of a call's channels only the current one can be parked, and no channel has two owners. */
  ghost predicate Tidy(w: World) {
    && Inv(w.q)
    && (forall c | 0 <= c < |w.callers| ::
          && Current(w.callers[c].phase) <= w.callers[c].mine
          && w.callers[c].mine * w.q.present <= Current(w.callers[c].phase)
          && forall ch | ch in w.callers[c].mine :: ch < w.q.created)
    && (forall c, d | 0 <= c < |w.callers| && 0 <= d < |w.callers| && c != d :: w.callers[c].mine !! w.callers[d].mine)
  }

  /** What a change of the queue may do to the calls that do not move. */
  lemma QueueKeepsTidy(w: World, q': Queue)
    requires Tidy(w) && Inv(q') && w.q.created <= q'.created
    requires forall ch | ch in q'.present && ch < w.q.created :: ch in w.q.present
    ensures Tidy(w.(q := q'))
  {
  }

  /** A step of one call: its channels grow by at most a new one. */
  lemma MoveKeepsTidy(w: World, c: nat, x: Caller, q': Queue)
    requires Tidy(w) && c < |w.callers| && Inv(q') && w.q.created <= q'.created
    requires forall ch | ch in q'.present && ch < w.q.created :: ch in w.q.present
    requires x.mine == w.callers[c].mine || (x.mine == w.callers[c].mine + {w.q.created} && q'.created == w.q.created + 1)
    requires Current(x.phase) <= x.mine && x.mine * q'.present <= Current(x.phase)
    ensures Tidy(Put(w, c, x).(q := q'))
  {
    var w' := Put(w, c, x).(q := q');
    forall d, e | 0 <= d < |w.callers| && 0 <= e < |w.callers| && d != e
      ensures w'.callers[d].mine !! w'.callers[e].mine
    {
      assert w.callers[d].mine !! w.callers[e].mine;
    }
  }

  /** Steps that move no call. */
  predicate MovesNoCall(step: Step) {
    step.Call? || step.Submit? || step.Notify? || step.Broadcast? || step.OtherParks? || step.Tick?
  }

  lemma WorldStepKeepsTidy(w: World, step: Step)
    requires Tidy(w) && Enabled(w, step) && MovesNoCall(step)
    ensures Tidy(Apply(w, step))
  {
    match step
    case Notify => WakeOneKeepsInv(w.q); WakeOneWakesOldest(w.q); QueueKeepsTidy(w, WakeOne(w.q));
    case Broadcast => WakeAllKeepsInv(w.q); WakeAllWakesAll(w.q); QueueKeepsTidy(w, WakeAll(w.q));
    case OtherParks => ParkKeepsInv(w.q); QueueKeepsTidy(w, Park(w.q));
    case _ =>
  }

  lemma CallStepKeepsTidy(w: World, step: Step)
    requires Tidy(w) && Enabled(w, step) && !MovesNoCall(step)
    ensures Tidy(Apply(w, step))
  {
    hide Inv;
    var w', c := Apply(w, step), step.c;
    if step.ParkCaller? {
      ParkKeepsInv(w.q);
    } else if step.ForgetChan? {
      DropUnparks(w.q, w.callers[c].phase.ch);
    } else if step.Receive? {
      ClosedIsNotParked(w.q, w.callers[c].phase.ch);
    }
    MoveKeepsTidy(w, c, w'.callers[c], w'.q);
  }

  lemma ClosedIsNotParked(q: Queue, ch: Chan)
    requires Inv(q) && ch in q.closed
    ensures ch !in q.present
  {
  }

  lemma StepKeepsTidy(w: World, step: Step)
    requires Tidy(w) && Enabled(w, step)
    ensures Tidy(Apply(w, step))
  {
    if MovesNoCall(step) { WorldStepKeepsTidy(w, step); } else { CallStepKeepsTidy(w, step); }
  }

  lemma {:induction false} RunStaysTidy(steps: seq<Step>, states: seq<World>, i: nat)
    requires IsRun(steps, states) && i < |states|
    ensures Tidy(states[i])
  {
    if i > 0 {
      RunStaysTidy(steps, states, i - 1);
      StepKeepsTidy(states[i - 1], steps[i - 1]);
    }
  }

  /** In every interleaving, a call that has returned leaves none of its channels parked. */
  lemma ReturnedLeavesNothingParked(steps: seq<Step>, states: seq<World>, i: nat, c: nat)
    requires IsRun(steps, states) && i < |states| && c < |states[i].callers|
    requires states[i].callers[c].phase.Returned?
    ensures states[i].callers[c].mine * states[i].q.present == {}
  {
    RunStaysTidy(steps, states, i);
  }

  // ----- Every job is claimable or was handed to exactly one call -----

  function Holding(p: Phase): set<Job> {
    match p
    case Leaving(_, Claimed(job)) => {job}
    case Returned(Claimed(job)) => {job}
    case _ => {}
  }

  predicate HeldBySome(w: World, job: Job) {
    exists c | 0 <= c < |w.callers| :: job in Holding(w.callers[c].phase)
  }

  predicate JobsAccounted(w: World) {
    && (forall job | job in w.claimable :: job in w.submitted)
    && (forall job | job in w.submitted :: job in w.claimable || HeldBySome(w, job))
    && (forall c | 0 <= c < |w.callers| :: forall job | job in Holding(w.callers[c].phase) ::
          job in w.submitted && job !in w.claimable && Matches(w.callers[c].want, w.submitted[job]))
    && (forall c, d | 0 <= c < |w.callers| && 0 <= d < |w.callers| && c != d ::
          Holding(w.callers[c].phase) !! Holding(w.callers[d].phase))
  }

  lemma HeldStays(w: World, w': World, job: Job)
    requires HeldBySome(w, job) && |w.callers| <= |w'.callers|
    requires forall c | 0 <= c < |w.callers| :: Holding(w.callers[c].phase) <= Holding(w'.callers[c].phase)
    ensures HeldBySome(w', job)
  {
    var c :| 0 <= c < |w.callers| && job in Holding(w.callers[c].phase);
    assert job in Holding(w'.callers[c].phase);
  }

  /** A step that claims no job leaves what every call holds as it was. */
  lemma HoldingsStay(w: World, step: Step)
    requires Enabled(w, step) && !step.ClaimGets?
    ensures var w' := Apply(w, step);
            && |w.callers| <= |w'.callers|
            && (forall c | 0 <= c < |w.callers| ::
                  && Holding(w'.callers[c].phase) == Holding(w.callers[c].phase)
                  && w'.callers[c].want == w.callers[c].want)
            && (forall c | |w.callers| <= c < |w'.callers| :: Holding(w'.callers[c].phase) == {})
  {
  }

  lemma ClaimMovesOneJob(w: World, c: nat, job: Job)
    requires Enabled(w, ClaimGets(c, job)) && JobsAccounted(w)
    ensures JobsAccounted(Apply(w, ClaimGets(c, job)))
  {
    var w' := Apply(w, ClaimGets(c, job));
    assert Holding(w.callers[c].phase) == {} && Holding(w'.callers[c].phase) == {job};
    forall j | j in w'.submitted ensures j in w'.claimable || HeldBySome(w', j) {
      if j == job { assert j in Holding(w'.callers[c].phase); }
      else if j !in w.claimable { HeldStays(w, w', j); }
    }
  }

  lemma StepAccountsJobs(w: World, step: Step)
    requires JobsAccounted(w) && Enabled(w, step)
    ensures JobsAccounted(Apply(w, step))
  {
    if step.ClaimGets? {
      ClaimMovesOneJob(w, step.c, step.job);
    } else {
      var w' := Apply(w, step);
      HoldingsStay(w, step);
      assert w.submitted.Keys <= w'.submitted.Keys && forall j | j in w.submitted :: w'.submitted[j] == w.submitted[j];
      forall j | j in w'.submitted ensures j in w'.claimable || HeldBySome(w', j) {
        if j in w.submitted && j !in w.claimable { HeldStays(w, w', j); }
      }
    }
  }

  /** In every interleaving, each submitted job is either still claimable or was handed to
      exactly one call, and that call asked for its state. */
  lemma {:induction false} EveryJobAccounted(steps: seq<Step>, states: seq<World>, i: nat)
    requires IsRun(steps, states) && i < |states|
    ensures JobsAccounted(states[i])
  {
    if i > 0 {
      EveryJobAccounted(steps, states, i - 1);
      StepAccountsJobs(states[i - 1], steps[i - 1]);
    }
  }

  // ----- Bounded re-poll -----

  function Last(s: seq<Attempt>): Attempt
    requires s != []
  {
    s[|s| - 1]
  }

  /** Each attempt begins at most the longest delay after the one before was answered. */
  predicate CloseTogether(s: seq<Attempt>) {
    && (forall i | 0 <= i < |s| :: s[i].begun <= s[i].ended)
    && (forall i | 0 < i < |s| :: s[i - 1].ended <= s[i].begun <= s[i - 1].ended + MAX_POLL_DELAY)
  }

  /** A call's claim attempts are never more than the longest delay apart, its timers never lie
      beyond that, and only a claim under way can outlast its deadline. */
  predicate OnTime(now: nat, x: Caller) {
    && CloseTogether(x.attempts)
    && (x.attempts != [] ==> Last(x.attempts).ended <= now)
    && (InClaim(x.phase) ==> x.phase.since <= now)
    && (x.phase.FirstClaim? <==> x.attempts == [] && !x.phase.Returned?)
    && (x.phase.WokenClaim? || x.phase.PollClaim? ==>
          Last(x.attempts).ended <= x.phase.since <= Last(x.attempts).ended + MAX_POLL_DELAY)
    && (x.phase.Parking? || x.phase.Reparking? ==> Last(x.attempts).ended == now)
    && (x.phase.Selecting? ==>
          && SECOND <= x.phase.pollDelay <= MAX_POLL_DELAY
          && now <= x.phase.pollAt <= Last(x.attempts).ended + MAX_POLL_DELAY
          && (now <= x.deadline || now == Last(x.attempts).ended))
    && (x.phase.PollClaim? ==> SECOND <= x.phase.pollDelay <= MAX_POLL_DELAY)
  }

  predicate AllOnTime(w: World) {
    forall c | 0 <= c < |w.callers| :: OnTime(w.now, w.callers[c])
  }

  lemma AttemptsGrow(s: seq<Attempt>, begun: nat, ended: nat)
    requires CloseTogether(s) && begun <= ended
    requires s != [] ==> Last(s).ended <= begun <= Last(s).ended + MAX_POLL_DELAY
    ensures CloseTogether(s + [Attempt(begun, ended)])
  {
    var r := s + [Attempt(begun, ended)];
    assert forall i | 0 <= i < |s| :: r[i] == s[i];
  }

  lemma ClaimIsOnTime(x: Caller, now: nat, result: ClaimResult)
    requires OnTime(now, x) && InClaim(x.phase)
    ensures OnTime(now, AfterClaim(x, now, result))
  {
    AttemptsGrow(x.attempts, x.phase.since, now);
    hide CloseTogether;
    assert Last(x.attempts + [Attempt(x.phase.since, now)]) == Attempt(x.phase.since, now);
  }

  lemma MoverIsOnTime(w: World, step: Step)
    requires AllOnTime(w) && Enabled(w, step) && !MovesNoCall(step)
    ensures OnTime(w.now, Apply(w, step).callers[step.c])
  {
    var x := w.callers[step.c];
    assert OnTime(w.now, x);
    hide CloseTogether;
    if InClaim(x.phase) {
      hide OnTime, AfterClaim;
      match step
      case ClaimGets(_, job) => ClaimIsOnTime(x, w.now, Got(job));
      case ClaimEmpty(_) => ClaimIsOnTime(x, w.now, Nothing);
      case ClaimFails(_) => ClaimIsOnTime(x, w.now, Error);
    }
  }

  lemma TickIsOnTime(w: World)
    requires AllOnTime(w) && Enabled(w, Tick)
    ensures AllOnTime(Apply(w, Tick))
  {
    hide CloseTogether;
  }

  lemma StepKeepsTime(w: World, step: Step)
    requires AllOnTime(w) && Enabled(w, step)
    ensures AllOnTime(Apply(w, step))
  {
    if step.Tick? {
      TickIsOnTime(w);
    } else {
      if step.Call? { NewIsOnTime(step.workerKnown, step.maxWait, step.want, w.now); }
      if !MovesNoCall(step) { MoverIsOnTime(w, step); }
      hide OnTime, AfterClaim, NewCaller;
    }
  }

  lemma NewIsOnTime(known: bool, maxWait: int, want: JobState, now: nat)
    ensures OnTime(now, NewCaller(known, maxWait, want, now))
  {
  }

  lemma {:induction false} RunKeepsTime(steps: seq<Step>, states: seq<World>, i: nat)
    requires IsRun(steps, states) && i < |states|
    ensures AllOnTime(states[i])
  {
    if i > 0 {
      RunKeepsTime(steps, states, i - 1);
      StepKeepsTime(states[i - 1], steps[i - 1]);
    }
  }

  /** Whatever wake-ups arrive or are lost, and however long the store takes: a call asks again
      at most ten seconds after the last answer, one that is still waiting had its last answer
      at most ten seconds ago, and waiting never outlasts the deadline unless that answer did. */
  lemma RepollIsBounded(steps: seq<Step>, states: seq<World>, i: nat, c: nat)
    requires IsRun(steps, states) && i < |states| && c < |states[i].callers|
    ensures var w := states[i];
            var x := w.callers[c];
            && (forall k | 0 < k < |x.attempts| ::
                  x.attempts[k - 1].ended <= x.attempts[k].begun <= x.attempts[k - 1].ended + 10000)
            && (x.phase.Selecting? ==>
                  && x.attempts != []
                  && var answered := x.attempts[|x.attempts| - 1].ended;
                     w.now <= answered + 10000 && (w.now <= x.deadline || w.now == answered))
  {
    RunKeepsTime(steps, states, i);
    assert OnTime(states[i].now, states[i].callers[c]);
  }

  // ----- A lost wake-up cannot stall a call -----

  /** The job is claimable, and the call would take it. */
  predicate Offered(w: World, job: Job, c: nat) {
    && job in w.claimable && job in w.submitted
    && c < |w.callers| && Matches(w.callers[c].want, w.submitted[job])
  }

  /** A call waiting for a wake-up or a timer, or about to. */
  predicate Waiting(p: Phase) { p.Parking? || p.Reparking? || p.Selecting? }

  lemma StepKeepsWaiting(w: World, step: Step, job: Job, c: nat)
    requires Enabled(w, step) && Offered(w, job, c)
    ensures var w' := Apply(w, step);
            && c < |w'.callers|
            && (Waiting(w'.callers[c].phase) ==>
                  Waiting(w.callers[c].phase) && w'.callers[c].attempts == w.callers[c].attempts)
  {
  }

  lemma {:induction false} WaitsWithoutAttempt(steps: seq<Step>, states: seq<World>, i: nat, k: nat, job: Job, c: nat)
    requires IsRun(steps, states) && i <= k < |states|
    requires forall j | i <= j < k :: Offered(states[j], job, c)
    requires c < |states[i].callers| && c < |states[k].callers| && Waiting(states[k].callers[c].phase)
    ensures Waiting(states[i].callers[c].phase)
    ensures states[k].callers[c].attempts == states[i].callers[c].attempts
    decreases k
  {
    hide Enabled, Apply, Waiting;
    if i < k {
      assert Offered(states[k - 1], job, c);
      StepKeepsWaiting(states[k - 1], steps[k - 1], job, c);
      WaitsWithoutAttempt(steps, states, i, k - 1, job, c);
    }
  }

  /** Whatever wake-ups are lost: while a job that a call would take stays claimable, the call
      cannot go on waiting for more than ten seconds. */
  lemma NoStall(steps: seq<Step>, states: seq<World>, i: nat, k: nat, job: Job, c: nat)
    requires IsRun(steps, states) && i <= k < |states|
    requires forall j | i <= j < k :: Offered(states[j], job, c)
    requires Offered(states[k], job, c) && Waiting(states[k].callers[c].phase)
    ensures states[k].now <= states[i].now + 10000
  {
    assert Offered(states[i], job, c);
    WaitsWithoutAttempt(steps, states, i, k, job, c);
    RunKeepsTime(steps, states, i);
    RunKeepsTime(steps, states, k);
    var x, y := states[i].callers[c], states[k].callers[c];
    assert OnTime(states[i].now, x) && OnTime(states[k].now, y);
    assert Last(x.attempts) == x.attempts[|x.attempts| - 1];
  }
}
