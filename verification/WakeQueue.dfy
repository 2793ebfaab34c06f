/**
 The notifier behind the queue's long polls: a FIFO of private wake channels, duplicated in
 a set. Channels are numbered in the order they are created, so a smaller number has been
 parked longer.
 */
module WakeQueue {

  type Chan = nat

  /** The notifier's two fields, and the history of its channels: how many were created,
      which were closed in which order, and which were dropped while still parked. */
  datatype Queue = Queue(queue: seq<Chan>, present: set<Chan>, created: nat, closed: seq<Chan>, forgotten: set<Chan>)

  const EMPTY := Queue([], {}, 0, [], {})

  // ----- What each operation does, for any state of the two fields -----

  function Park(q: Queue): Queue {
    q.(queue := q.queue + [q.created], present := q.present + {q.created}, created := q.created + 1)
  }

  /** Wakes the first entry that is still present, skipping stale ones. */
  function WakeOne(q: Queue): Queue
    decreases |q.queue|
  {
    if q.queue == [] then q
    else
      var ch, rest := q.queue[0], q.queue[1..];
      if ch !in q.present then WakeOne(q.(queue := rest))
      else q.(queue := rest, present := q.present - {ch}, closed := q.closed + [ch])
  }

  /** Present and closed channels after waking the entries of `chans` that are present. */
  function WakeEach(chans: seq<Chan>, present: set<Chan>, closed: seq<Chan>): (set<Chan>, seq<Chan>) {
    if chans == [] then (present, closed)
    else
      var n := |chans| - 1;
      var (p, c) := WakeEach(chans[..n], present, closed);
      if chans[n] in p then (p - {chans[n]}, c + [chans[n]]) else (p, c)
  }

  function WakeAll(q: Queue): Queue {
    var (p, c) := WakeEach(q.queue, q.present, q.closed);
    q.(queue := [], present := p, closed := c)
  }

  function RemoveFirst(queue: seq<Chan>, ch: Chan): seq<Chan> {
    if queue == [] then [] else if queue[0] == ch then queue[1..] else [queue[0]] + RemoveFirst(queue[1..], ch)
  }

  function Drop(q: Queue, ch: Chan): Queue {
    q.(queue := RemoveFirst(q.queue, ch), present := q.present - {ch},
       forgotten := if ch in q.present then q.forgotten + {ch} else q.forgotten)
  }

  // ----- The invariant -----

  predicate Increasing(s: seq<Chan>) {
    forall i, j | 0 <= i < j < |s| :: s[i] < s[j]
  }

  predicate NoDuplicates(s: seq<Chan>) {
    forall i, j | 0 <= i < j < |s| :: s[i] != s[j]
  }

  /** The queue holds exactly the present channels, once each and oldest first; no channel was
      closed twice; every channel ever created is parked, woken or forgotten, and only one. */
  ghost predicate Inv(q: Queue) {
    && Increasing(q.queue)
    && (forall ch: Chan :: ch in q.queue <==> ch in q.present)
    && NoDuplicates(q.closed)
    && (forall ch: Chan :: ch < q.created <==> ch in q.present || ch in q.closed || ch in q.forgotten)
    && (forall ch | ch in q.present :: ch !in q.closed && ch !in q.forgotten)
    && (forall ch | ch in q.closed :: ch !in q.forgotten)
  }

  /** A single wake closes exactly the longest-parked channel; the stale-entry skip of the
      loop is never taken. */
  lemma WakeOneWakesOldest(q: Queue)
    requires Inv(q)
    ensures q.queue == [] ==> WakeOne(q) == q && q.present == {}
    ensures q.queue != [] ==>
              var ch := q.queue[0];
              && ch in q.present && (forall other | other in q.present :: ch <= other)
              && WakeOne(q) == q.(queue := q.queue[1..], present := q.present - {ch}, closed := q.closed + [ch])
  {
    if q.queue == [] {
      assert forall ch :: ch !in q.present;
    } else {
      assert q.queue[0] in q.queue;
    }
  }

  lemma WakeOneKeepsInv(q: Queue)
    requires Inv(q)
    ensures Inv(WakeOne(q))
  {
    WakeOneWakesOldest(q);
    if q.queue != [] {
      var ch, q' := q.queue[0], WakeOne(q);
      assert q.queue == [ch] + q'.queue;
      assert ch !in q'.queue;
      forall x ensures x in q'.queue <==> x in q'.present { assert x in q.queue <==> x == ch || x in q'.queue; }
    }
  }

  function Members(s: seq<Chan>): set<Chan> { set ch | ch in s }

  lemma {:induction false} WakeEachTakesAll(chans: seq<Chan>, present: set<Chan>, closed: seq<Chan>)
    requires Increasing(chans) && Members(chans) <= present
    ensures WakeEach(chans, present, closed) == (present - Members(chans), closed + chans)
  {
    if chans == [] {
      assert present - Members(chans) == present && closed + chans == closed;
    } else {
      var n := |chans| - 1;
      var init, last := chans[..n], chans[n];
      assert chans == init + [last];
      assert Members(chans) == Members(init) + {last} && last in Members(chans);
      assert last !in Members(init);
      WakeEachTakesAll(init, present, closed);
      assert present - Members(init) - {last} == present - Members(chans);
      assert closed + init + [last] == closed + chans;
    }
  }

  /** A broadcast closes every parked channel, oldest first, and leaves none parked. */
  lemma WakeAllWakesAll(q: Queue)
    requires Inv(q)
    ensures WakeAll(q) == q.(queue := [], present := {}, closed := q.closed + q.queue)
  {
    assert Members(q.queue) == q.present;
    WakeEachTakesAll(q.queue, q.present, q.closed);
  }

  lemma WakeAllKeepsInv(q: Queue)
    requires Inv(q)
    ensures Inv(WakeAll(q))
  {
    WakeAllWakesAll(q);
    var c := q.closed + q.queue;
    forall i, j | 0 <= i < j < |c| ensures c[i] != c[j] {
      if i < |q.closed| <= j { assert c[i] in q.closed && c[j] in q.queue; }
    }
    forall ch ensures ch in c <==> ch in q.closed || ch in q.queue { }
  }

  lemma ParkKeepsInv(q: Queue)
    requires Inv(q)
    ensures Inv(Park(q)) && q.created !in q.present
  {
    var q' := Park(q);
    forall i | 0 <= i < |q.queue| ensures q.queue[i] < q.created {
      assert q.queue[i] in q.queue;
      assert q.queue[i] in q.present;
    }
    forall ch ensures ch in q'.queue <==> ch in q.queue || ch == q.created { }
  }

  lemma {:induction false} RemoveFirstMembers(queue: seq<Chan>, ch: Chan, x: Chan)
    requires Increasing(queue)
    ensures x in RemoveFirst(queue, ch) <==> x in queue && x != ch
  {
    if queue != [] {
      var first, rest := queue[0], queue[1..];
      assert x in queue <==> x == first || x in rest;
      assert forall i | 0 <= i < |rest| :: first < rest[i];
      if first != ch {
        RemoveFirstMembers(rest, ch, x);
        assert x in [first] + RemoveFirst(rest, ch) <==> x == first || x in RemoveFirst(rest, ch);
      }
    }
  }

  lemma {:induction false} RemoveFirstIncreasing(queue: seq<Chan>, ch: Chan)
    requires Increasing(queue)
    ensures Increasing(RemoveFirst(queue, ch))
  {
    if queue != [] && queue[0] != ch {
      var first, rest := queue[0], queue[1..];
      RemoveFirstIncreasing(rest, ch);
      var r := RemoveFirst(rest, ch);
      forall i | 0 <= i < |r| ensures first < r[i] {
        RemoveFirstMembers(rest, ch, r[i]);
        assert r[i] in rest;
      }
    }
  }

  lemma RemoveFirstRemoves(queue: seq<Chan>, ch: Chan)
    requires Increasing(queue)
    ensures Increasing(RemoveFirst(queue, ch))
    ensures forall x :: x in RemoveFirst(queue, ch) <==> x in queue && x != ch
  {
    RemoveFirstIncreasing(queue, ch);
    forall x ensures x in RemoveFirst(queue, ch) <==> x in queue && x != ch {
      RemoveFirstMembers(queue, ch, x);
    }
  }

  /** Forgetting a channel unparks that channel and no other, and closes none. */
  lemma DropUnparks(q: Queue, ch: Chan)
    requires Inv(q)
    ensures Inv(Drop(q, ch)) && Drop(q, ch).present == q.present - {ch}
    ensures Drop(q, ch).closed == q.closed && Drop(q, ch).created == q.created
    ensures Drop(q, ch).forgotten == q.forgotten + (if ch in q.present then {ch} else {})
  {
    RemoveFirstRemoves(q.queue, ch);
  }

  // ----- Every sequence of operations -----

  datatype Op = OpPark | OpNotify | OpBroadcast | OpForget(ch: Chan)

  function Do(q: Queue, op: Op): Queue {
    match op
    case OpPark => Park(q)
    case OpNotify => WakeOne(q)
    case OpBroadcast => WakeAll(q)
    case OpForget(ch) => Drop(q, ch)
  }

  function DoAll(ops: seq<Op>): Queue {
    if ops == [] then EMPTY else Do(DoAll(ops[..|ops| - 1]), ops[|ops| - 1])
  }

  /** The invariant holds after every sequence of operations, whatever is forgotten when. */
  lemma {:induction false} EverySequenceKeepsInv(ops: seq<Op>)
    ensures Inv(DoAll(ops))
  {
    if ops != [] {
      var q, op := DoAll(ops[..|ops| - 1]), ops[|ops| - 1];
      EverySequenceKeepsInv(ops[..|ops| - 1]);
      match op
      case OpPark => ParkKeepsInv(q);
      case OpNotify => WakeOneKeepsInv(q);
      case OpBroadcast => WakeAllKeepsInv(q);
      case OpForget(ch) => DropUnparks(q, ch);
    }
  }

  // ----- The notifier itself -----

  class Notifier {
    var queue: seq<Chan>
    var present: set<Chan>
    var created: nat
    ghost var closed: seq<Chan>
    ghost var forgotten: set<Chan>

    ghost function View(): Queue reads this { Queue(queue, present, created, closed, forgotten) }

    constructor ()
      ensures View() == EMPTY
    {
      queue, present, created, closed, forgotten := [], {}, 0, [], {};
    }

    method Notify()
      modifies this
      ensures View() == WakeOne(old(View()))
    {
      while |queue| > 0
        invariant WakeOne(View()) == WakeOne(old(View()))
        decreases |queue|
      {
        var ch := queue[0];
        queue := queue[1..];
        if ch !in present {
          continue;
        }
        present := present - {ch};
        closed := closed + [ch];
        return;
      }
    }

    method Broadcast()
      modifies this
      ensures View() == WakeAll(old(View()))
    {
      var i := 0;
      while i < |queue|
        invariant 0 <= i <= |queue| && queue == old(queue)
        invariant (present, closed) == WakeEach(queue[..i], old(present), old(closed))
        invariant created == old(created) && forgotten == old(forgotten)
      {
        var ch := queue[i];
        assert queue[..i + 1][..i] == queue[..i];
        if ch in present {
          present := present - {ch};
          closed := closed + [ch];
        }
        i := i + 1;
      }
      assert queue[..i] == queue;
      queue := [];
    }

    method Done() returns (ch: Chan)
      modifies this
      ensures View() == Park(old(View())) && ch == old(created)
      ensures queue == old(queue) + [ch] && present == old(present) + {ch}
      ensures created == old(created) + 1 && closed == old(closed) && forgotten == old(forgotten)
    {
      ch := created;
      created := created + 1;
      queue := queue + [ch];
      present := present + {ch};
    }

    /** The code removes the queue entry by position and then scans the map for the key. */
    method Forget(ch: Chan)
      modifies this
      ensures View() == Drop(old(View()), ch)
    {
      forgotten := if ch in present then forgotten + {ch} else forgotten;
      var i := 0;
      while i < |queue| && queue[i] != ch
        invariant 0 <= i <= |queue| && queue == old(queue)
        invariant RemoveFirst(queue, ch) == queue[..i] + RemoveFirst(queue[i..], ch)
      {
        assert queue[i..][1..] == queue[i + 1..];
        i := i + 1;
      }
      if i < |queue| {
        assert queue[i..][1..] == queue[i + 1..];
        queue := queue[..i] + queue[i + 1..];
      } else {
        assert queue[..i] == queue;
      }
      var keys := present;
      while keys != {}
        invariant keys <= present == old(present)
        invariant ch in present ==> ch in keys
      {
        var k :| k in keys;
        keys := keys - {k};
        if k == ch {
          present := present - {k};
          break;
        }
      }
    }
  }
}
