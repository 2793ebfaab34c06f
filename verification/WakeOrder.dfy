/**
 Who is woken when: a channel that parks is woken by the first broadcast, or by as many single
 wakes as there are channels parked up to it, and by no fewer.
 */
module WakeOrder {
  import opened WakeQueue

  function Notifies(ops: seq<Op>): nat {
    if ops == [] then 0
    else (if ops[|ops| - 1].OpNotify? then 1 else 0) + Notifies(ops[..|ops| - 1])
  }

  predicate Broadcasts(ops: seq<Op>) { exists i | 0 <= i < |ops| :: ops[i].OpBroadcast? }

  predicate Forgets(ops: seq<Op>, ch: Chan) { exists i | 0 <= i < |ops| :: ops[i] == OpForget(ch) }

  predicate ForgetsAny(ops: seq<Op>) { exists i | 0 <= i < |ops| :: ops[i].OpForget? }

  lemma DoLast(ops: seq<Op>)
    requires ops != []
    ensures DoAll(ops) == Do(DoAll(ops[..|ops| - 1]), ops[|ops| - 1])
  {
  }

  lemma DoMore(ops: seq<Op>, more: seq<Op>)
    requires more != []
    ensures DoAll(ops + more) == Do(DoAll(ops + more[..|more| - 1]), more[|more| - 1])
  {
    hide Do, DoAll;
    var all := ops + more;
    DoLast(all);
    assert all[..|all| - 1] == ops + more[..|more| - 1];
  }

  /** A list of calls without its last. */
  lemma AllButLast(more: seq<Op>, ch: Chan)
    requires more != []
    ensures var n := |more| - 1;
            && (Broadcasts(more) <==> Broadcasts(more[..n]) || more[n].OpBroadcast?)
            && (ForgetsAny(more) <==> ForgetsAny(more[..n]) || more[n].OpForget?)
            && (Forgets(more, ch) <==> Forgets(more[..n], ch) || more[n] == OpForget(ch))
  {
    assert forall i | 0 <= i < |more| - 1 :: more[..|more| - 1][i] == more[i];
  }

  /** After any calls, a call that parks adds the newest channel at the end of the queue. */
  lemma ParkedLast(ops: seq<Op>)
    ensures var q, q' := DoAll(ops), DoAll(ops + [OpPark]);
            && q'.queue == q.queue + [q.created] && q'.present == q.present + {q.created}
            && q'.closed == q.closed && q'.forgotten == q.forgotten && q'.created == q.created + 1
  {
    assert (ops + [OpPark])[..|ops|] == ops;
  }

  /** Where the channel is: already woken, or parked with at most `k` before it. */
  predicate WokenOrWithin(q: Queue, ch: Chan, k: int) {
    ch in q.closed || exists i | 0 <= i <= k && i < |q.queue| :: q.queue[i] == ch
  }

  lemma {:induction false} RemoveFirstMovesUp(queue: seq<Chan>, ch: Chan, i: nat)
    requires Increasing(queue) && i < |queue| && queue[i] != ch
    ensures exists j | 0 <= j <= i && j < |RemoveFirst(queue, ch)| :: RemoveFirst(queue, ch)[j] == queue[i]
  {
    if queue[0] == ch {
      assert RemoveFirst(queue, ch)[i - 1] == queue[i];
    } else if i == 0 {
      assert RemoveFirst(queue, ch)[0] == queue[0];
    } else {
      RemoveFirstMovesUp(queue[1..], ch, i - 1);
      var r := RemoveFirst(queue[1..], ch);
      var j :| 0 <= j <= i - 1 && j < |r| && r[j] == queue[1..][i - 1];
      assert RemoveFirst(queue, ch)[j + 1] == queue[i];
    }
  }

  lemma StepMovesUp(q: Queue, op: Op, ch: Chan, k: int)
    requires Inv(q) && WokenOrWithin(q, ch, k) && op != OpForget(ch)
    ensures WokenOrWithin(Do(q, op), ch, if op.OpNotify? then k - 1 else k)
    ensures op.OpBroadcast? ==> ch in Do(q, op).closed
  {
    match op
    case OpPark =>
      if i :| 0 <= i <= k && i < |q.queue| && q.queue[i] == ch { assert Park(q).queue[i] == ch; }
    case OpNotify =>
      WakeOneWakesOldest(q);
      hide WakeOne, Inv;
      if i :| 0 <= i <= k && i < |q.queue| && q.queue[i] == ch {
        if i > 0 { assert WakeOne(q).queue[i - 1] == ch; }
      }
    case OpBroadcast =>
      WakeAllWakesAll(q);
      hide WakeAll, Inv;
    case OpForget(other) =>
      if i :| 0 <= i <= k && i < |q.queue| && q.queue[i] == ch { RemoveFirstMovesUp(q.queue, other, i); }
  }

  lemma NotMoved(q: Queue, k: nat)
    requires k < |q.queue|
    ensures WokenOrWithin(q, q.queue[k], k) && !Broadcasts([])
  {
  }

  lemma {:induction false} MovesUp(ops: seq<Op>, more: seq<Op>, ch: Chan, k: nat)
    requires k < |DoAll(ops).queue| && DoAll(ops).queue[k] == ch && !Forgets(more, ch)
    ensures WokenOrWithin(DoAll(ops + more), ch, k - Notifies(more))
    ensures Broadcasts(more) ==> ch in DoAll(ops + more).closed
    decreases |more|
  {
    hide Do, Broadcasts, Forgets, ForgetsAny, Inv, WokenOrWithin;
    if more == [] {
      assert ops + more == ops;
      NotMoved(DoAll(ops), k);
    } else {
      var n := |more| - 1;
      var init := more[..n];
      AllButLast(more, ch);
      MovesUp(ops, init, ch, k);
      DoMore(ops, more);
      var q := DoAll(ops + init);
      EverySequenceKeepsInv(ops + init);
      StepMovesUp(q, more[n], ch, k - Notifies(init));
      if Broadcasts(init) { ClosedStays(q, more[n], ch); }
    }
  }

  lemma ClosedStays(q: Queue, op: Op, ch: Chan)
    requires Inv(q) && ch in q.closed
    ensures ch in Do(q, op).closed
  {
    match op
    case OpNotify => WakeOneWakesOldest(q);
    case OpBroadcast => WakeAllWakesAll(q);
    case _ =>
  }

  lemma StepKeepsPlace(q: Queue, op: Op, i: nat)
    requires Inv(q) && i < |q.queue| && !op.OpForget? && !op.OpBroadcast? && (op.OpNotify? ==> i > 0)
    ensures var q', j := Do(q, op), if op.OpNotify? then i - 1 else i;
            j < |q'.queue| && q'.queue[j] == q.queue[i]
  {
    if op.OpNotify? { WakeOneWakesOldest(q); }
  }

  lemma {:induction false} KeepsPlace(ops: seq<Op>, more: seq<Op>, k: nat)
    requires k < |DoAll(ops).queue| && !ForgetsAny(more) && !Broadcasts(more) && Notifies(more) <= k
    ensures var q, q' := DoAll(ops), DoAll(ops + more);
            k - Notifies(more) < |q'.queue| && q'.queue[k - Notifies(more)] == q.queue[k]
    decreases |more|
  {
    hide Do, Broadcasts, Forgets, ForgetsAny, Inv, WokenOrWithin;
    if more == [] {
      assert ops + more == ops;
    } else {
      var n := |more| - 1;
      var init := more[..n];
      AllButLast(more, 0);
      KeepsPlace(ops, init, k);
      DoMore(ops, more);
      EverySequenceKeepsInv(ops + init);
      StepKeepsPlace(DoAll(ops + init), more[n], k - Notifies(init));
    }
  }

  lemma ParkedIsNotWoken(q: Queue, i: nat)
    requires Inv(q) && i < |q.queue|
    ensures q.queue[i] in q.present && q.queue[i] !in q.closed
  {
    assert q.queue[i] in q.queue;
  }

  /** A channel with `k` channels parked before it, unless it is forgotten: a broadcast wakes it,
      and so do more than `k` single wakes; with no broadcast, and nobody forgotten, up to `k`
      single wakes leave it parked, whoever parks meanwhile. */
  lemma WokenInTurn(ops: seq<Op>, more: seq<Op>, k: nat)
    requires k < |DoAll(ops).queue| && !Forgets(more, DoAll(ops).queue[k])
    ensures var ch, q' := DoAll(ops).queue[k], DoAll(ops + more);
            && (Broadcasts(more) || Notifies(more) > k ==> ch in q'.closed)
            && (!Broadcasts(more) && !ForgetsAny(more) && Notifies(more) <= k ==> ch in q'.present && ch !in q'.closed)
  {
    hide *;
    if Broadcasts(more) || Notifies(more) > k { TurnWakes(ops, more, k); }
    if !Broadcasts(more) && !ForgetsAny(more) && Notifies(more) <= k { TurnLeaves(ops, more, k); }
  }

  lemma TurnWakes(ops: seq<Op>, more: seq<Op>, k: nat)
    requires k < |DoAll(ops).queue| && !Forgets(more, DoAll(ops).queue[k]) && (Broadcasts(more) || Notifies(more) > k)
    ensures DoAll(ops).queue[k] in DoAll(ops + more).closed
  {
    hide DoAll, Notifies, Broadcasts, Forgets;
    MovesUp(ops, more, DoAll(ops).queue[k], k);
  }

  lemma TurnLeaves(ops: seq<Op>, more: seq<Op>, k: nat)
    requires k < |DoAll(ops).queue| && !Broadcasts(more) && !ForgetsAny(more) && Notifies(more) <= k
    ensures var ch, q' := DoAll(ops).queue[k], DoAll(ops + more); ch in q'.present && ch !in q'.closed
  {
    hide *;
    KeepsPlace(ops, more, k);
    EverySequenceKeepsInv(ops + more);
    ParkedIsNotWoken(DoAll(ops + more), k - Notifies(more));
  }
}
