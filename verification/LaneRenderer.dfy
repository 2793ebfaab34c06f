/**
 The lane choice of one `Render` call that meets no contention, as the loop the code runs:
 sweep the counters from the round-robin cursor, then claim the best lane by compare-and-swap.
 Each read of the loop is one `Read` step of `LaneScheduler`.
 */
module LaneRenderer {
  import opened LaneScheduler

  /** An idle snapshot around the counters, to speak of a sweep's reads. */
  ghost function Snapshot(load: seq<int>): Pool {
    var zeros := seq(|load|, _ => 0);
    Pool(load, 0, 0, zeros, zeros, 0, zeros, [])
  }

  ghost function ConfigFor(rule: Rule, lanes: nat): Config { Config(rule, lanes, 1, 1) }

  /** The sweep after `k` reads of unchanged counters. */
  ghost function Sweep(rule: Rule, load: seq<int>, slot: nat, k: nat): (p: Phase)
    requires 0 < |load| <= MAX_INT64 && k <= |load|
    ensures p.Scanning? && p.slot == slot && p.offset == k && p.begunAt == p.seenAt == 0
  {
    var cfg := ConfigFor(rule, |load|);
    if k == 0 then EmptyScan(cfg, slot, 0)
    else AfterRead(cfg, Snapshot(load), Sweep(rule, load, slot, k - 1))
  }

  /** One more read of the sweep, told by its best lane and load. */
  lemma SweepRead(rule: Rule, load: seq<int>, slot: nat, k: nat)
    requires 0 < |load| <= MAX_INT64 && k < |load|
    ensures var p, q := Sweep(rule, load, slot, k), Sweep(rule, load, slot, k + 1);
            var lane := LaneAt(slot, k, |load|);
            (q.best, q.bestLoad) ==
            if Better(rule, p.best, p.bestLoad, load[lane]) then (lane, load[lane]) else (p.best, p.bestLoad)
  {
    hide LaneAt;
  }

  lemma SweepStart(rule: Rule, load: seq<int>, slot: nat)
    requires 0 < |load| <= MAX_INT64
    ensures Sweep(rule, load, slot, 0).best == -1
    ensures Sweep(rule, load, slot, 0).bestLoad == if rule.SocketSpread? then MAX_INT64 else 0
  {
  }

  /** The lane at sweep position `o` is the first least loaded one among the first `k`. */
  predicate FirstLeast(load: seq<int>, slot: nat, k: nat, o: nat)
    requires 0 < |load| && k <= |load|
  {
    && o < k
    && (forall j | 0 <= j < o :: load[LaneAt(slot, o, |load|)] < load[LaneAt(slot, j, |load|)])
    && (forall j | o <= j < k :: load[LaneAt(slot, o, |load|)] <= load[LaneAt(slot, j, |load|)])
  }

  lemma FirstLeastWithin(load: seq<int>, slot: nat, k: nat, o: nat)
    requires 0 < |load| && k <= |load| && FirstLeast(load, slot, k, o)
    ensures o < k
  {
  }

  lemma {:induction false} SweepFindsFirstLeast(rule: Rule, load: seq<int>, slot: nat, k: nat) returns (o: nat)
    requires 0 < |load| <= MAX_INT64 && 0 < k <= |load|
    requires forall l | 0 <= l < |load| :: 0 <= load[l] < MAX_INT64
    ensures FirstLeast(load, slot, k, o)
    ensures var p := Sweep(rule, load, slot, k);
            p.best == LaneAt(slot, o, |load|) && p.bestLoad == load[p.best]
  {
    hide LaneAt, Sweep;
    SweepRead(rule, load, slot, k - 1);
    var lane := LaneAt(slot, k - 1, |load|);
    if k == 1 {
      SweepStart(rule, load, slot);
      o := 0;
    } else {
      o := SweepFindsFirstLeast(rule, load, slot, k - 1);
      var least := load[LaneAt(slot, o, |load|)];
      if load[lane] < least {
        assert forall j | 0 <= j < k - 1 :: least <= load[LaneAt(slot, j, |load|)];
        o := k - 1;
      }
    }
  }

  /** Both schedulers choose the same lane from the same counters. */
  lemma {:induction false} RulesAgree(load: seq<int>, slot: nat, k: nat)
    requires 0 < |load| <= MAX_INT64 && 0 < k <= |load|
    requires forall l | 0 <= l < |load| :: 0 <= load[l] < MAX_INT64
    ensures Sweep(SocketSpread, load, slot, k) == Sweep(DaemonPool, load, slot, k)
  {
    hide LaneAt;
    if k > 1 {
      RulesAgree(load, slot, k - 1);
      var o := SweepFindsFirstLeast(DaemonPool, load, slot, k - 1);
    }
  }

  class Renderer {
    const rule: Rule
    const inflight: array<int>
    var next: nat

    constructor (rule: Rule, lanes: nat)
      ensures this.rule == rule && fresh(inflight) && next == 0
      ensures inflight[..] == seq(lanes, _ => 0)
    {
      this.rule := rule;
      inflight := new int[lanes](_ => 0);
      next := 0;
    }

    /** Chooses and claims a lane; -1 is the code's "no lanes" error. The lane is the first
        least loaded one in sweep order, its counter goes up by one, no other counter moves,
        and the cursor advances by one in uint64. */
    method ClaimLane() returns (lane: int)
      requires inflight.Length <= MAX_INT64
      requires forall l | 0 <= l < inflight.Length :: 0 <= inflight[l] < MAX_INT64
      modifies this`next, inflight
      ensures inflight.Length == 0 ==> lane == -1 && next == old(next)
      ensures inflight.Length > 0 ==>
                && next == (old(next) + 1) % TWO_64
                && 0 <= lane < inflight.Length
                && (exists o | 0 <= o < inflight.Length ::
                      LaneAt(old(next), o, inflight.Length) == lane && FirstLeast(old(inflight[..]), old(next), inflight.Length, o))
                && inflight[..] == old(inflight[..])[lane := old(inflight[..])[lane] + 1]
    {
      hide LaneAt, Sweep, FirstLeast;
      var n := inflight.Length;
      if n == 0 {
        return -1;
      }
      var slot := next;
      next := (next + 1) % TWO_64;
      ghost var load := inflight[..];
      lane := -1;
      while lane < 0
        invariant -1 <= lane < n && next == (slot + 1) % TWO_64
        invariant lane < 0 ==> inflight[..] == load
        invariant lane >= 0 ==>
                    && (exists o | 0 <= o < n :: LaneAt(slot, o, n) == lane && FirstLeast(load, slot, n, o))
                    && inflight[..] == load[lane := load[lane] + 1]
        decreases if lane < 0 then 1 else 0
      {
        var best := -1;
        var bestLoad := if rule.SocketSpread? then MAX_INT64 else 0;
        var offset := 0;
        SweepStart(rule, load, slot);
        while offset < n
          invariant 0 <= offset <= n && inflight[..] == load && next == (slot + 1) % TWO_64
          invariant var p := Sweep(rule, load, slot, offset); p.best == best && p.bestLoad == bestLoad
        {
          SweepRead(rule, load, slot, offset);
          var index := LaneAt(slot, offset, n);
          var seen := inflight[index];
          if Better(rule, best, bestLoad, seen) {
            best, bestLoad := index, seen;
          }
          offset := offset + 1;
        }
        ghost var o := SweepFindsFirstLeast(rule, load, slot, n);
        assert o < n by { FirstLeastWithin(load, slot, n, o); }
        if inflight[best] == bestLoad {
          inflight[best] := bestLoad + 1;
          lane := best;
        }
      }
    }

    /** The deferred decrement when the render returns: it undoes the claim. */
    method ReleaseLane(lane: nat)
      requires lane < inflight.Length
      modifies inflight
      ensures inflight[..] == old(inflight[..])[lane := old(inflight[lane]) - 1]
    {
      inflight[lane] := inflight[lane] - 1;
    }
  }
}
