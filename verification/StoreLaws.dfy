/**
 What the content-addressed store promises over whole runs: every object readable is the one
 its address names, pending bytes are never readable, a refused call changes nothing
 readable, and what was readable stays readable with the same bytes.
 */
module StoreLaws {
  import opened ContentAddress
  import opened ObjectStore

  /** One call changes the readable objects only by installing bytes under their own address,
      and only a Put or a finalize that succeeds does. */
  lemma OnlyInstallsAreVisible(h: Hash, m: Memory, op: Op)
    requires Sound(h, m)
    ensures var (m', r) := MemoryStep(h, m, op);
            && (m'.objects != m.objects ==> r == Done && (op.Put? || op.StagingFinalize?))
            && (r.Refused? || op.Get? || op.StagingWrite? || op.StagingAbort? ==> m'.objects == m.objects)
            && (r == Done && op.Put? ==> op.key == h(op.data) && m'.objects == m.objects[op.key := op.data])
            && (r == Done && op.StagingFinalize? ==>
                  && op.session in m.pending && op.session !in m'.pending
                  && var data := m.pending[op.session].data;
                     h(data) == Normalise(op.digest) && m'.objects == m.objects[h(data) := data])
  {
    hide Canonical, ValidSession, Normalise;
  }

  /** Bytes written to a session, and an aborted session, are readable under no key. */
  lemma PendingIsInvisible(h: Hash, f: Files, m: Memory, session: string, data: Bytes, key: string)
    requires Refines(h, f, m)
    ensures DiskStep(h, DiskStep(h, f, StagingWrite(session, data)).0, Get(key)).1 == DiskStep(h, f, Get(key)).1
    ensures DiskStep(h, DiskStep(h, f, StagingAbort(session)).0, Get(key)).1 == DiskStep(h, f, Get(key)).1
  {
    SessionPaths(session);
    hide ObjectPath, PendingPath, SidecarPath, Canonical, ValidSession;
  }

  lemma {:induction false} ReplyAt(h: Hash, ops: seq<Op>, i: nat)
    requires i < |ops|
    ensures |RunMemory(h, ops).1| == |ops|
    ensures RunMemory(h, ops).1[i] == MemoryStep(h, RunMemory(h, ops[..i]).0, ops[i]).1
  {
    hide MemoryStep;
    var n := |ops| - 1;
    if i < n {
      ReplyAt(h, ops[..n], i);
      assert ops[..n][..i] == ops[..i];
    } else if n > 0 {
      ReplyAt(h, ops[..n], n - 1);
    }
  }

  /** Whatever is read, at any point of any run on disk, hashes to the key it was read under. */
  lemma ReadsAreTruthful(h: Hash, ops: seq<Op>, i: nat)
    requires i < |ops| && ops[i].Get?
    ensures |RunDisk(h, ops).1| == |ops|
    ensures var r := RunDisk(h, ops).1[i]; r.Found? ==> Canonical(ops[i].key) && h(r.data) == ops[i].key
  {
    DiskRefinesMemory(h, ops);
    ReplyAt(h, ops, i);
    DiskRefinesMemory(h, ops[..i]);
  }

  // ----- What was readable stays readable -----

  /** The bytes ever offered to the store. */
  function Offered(ops: seq<Op>): set<Bytes> {
    if ops == [] then {}
    else
      var op := ops[|ops| - 1];
      Offered(ops[..|ops| - 1]) + if op.Put? || op.StagingWrite? then {op.data} else {}
  }

  /** No two different byte strings of `offered` share an address. */
  predicate CollisionFree(h: Hash, offered: set<Bytes>) {
    forall a, b | a in offered && b in offered && h(a) == h(b) :: a == b
  }

  predicate HoldsOffered(m: Memory, offered: set<Bytes>) {
    && (forall key | key in m.objects :: m.objects[key] in offered)
    && (forall s | s in m.pending :: m.pending[s].data in offered)
  }

  lemma StepHoldsOffered(h: Hash, m: Memory, op: Op, offered: set<Bytes>)
    requires HoldsOffered(m, offered) && (op.Put? || op.StagingWrite? ==> op.data in offered)
    ensures HoldsOffered(MemoryStep(h, m, op).0, offered)
  {
    hide Canonical, ValidSession, Normalise;
  }

  lemma {:induction false} RunHoldsOffered(h: Hash, ops: seq<Op>)
    ensures HoldsOffered(RunMemory(h, ops).0, Offered(ops))
  {
    if ops != [] {
      hide MemoryStep;
      var n := |ops| - 1;
      RunHoldsOffered(h, ops[..n]);
      StepHoldsOffered(h, RunMemory(h, ops[..n]).0, ops[n], Offered(ops));
    }
  }

  lemma {:induction false} OfferedGrows(ops: seq<Op>, n: nat)
    requires n <= |ops|
    ensures Offered(ops[..n]) <= Offered(ops)
  {
    if n < |ops| {
      OfferedGrows(ops[..|ops| - 1], n);
      assert ops[..|ops| - 1][..n] == ops[..n];
    } else {
      assert ops[..n] == ops;
    }
  }

  lemma StepKeepsReadable(h: Hash, m: Memory, op: Op, offered: set<Bytes>, key: string)
    requires Sound(h, m) && HoldsOffered(m, offered) && CollisionFree(h, offered)
    requires op.Put? ==> op.data in offered
    requires key in m.objects
    ensures var m' := MemoryStep(h, m, op).0; key in m'.objects && m'.objects[key] == m.objects[key]
  {
    hide Canonical, ValidSession, Normalise;
    OnlyInstallsAreVisible(h, m, op);
  }

  lemma {:induction false} StaysReadable(h: Hash, ops: seq<Op>, n: nat, key: string)
    requires n <= |ops| && CollisionFree(h, Offered(ops)) && key in RunMemory(h, ops[..n]).0.objects
    ensures var m, m' := RunMemory(h, ops[..n]).0, RunMemory(h, ops).0;
            key in m'.objects && m'.objects[key] == m.objects[key]
    decreases |ops|
  {
    if n == |ops| {
      assert ops[..n] == ops;
    } else {
      var k := |ops| - 1;
      var before := ops[..k];
      assert before[..n] == ops[..n];
      OfferedGrows(ops, k);
      StaysReadable(h, before, n, key);
      DiskRefinesMemory(h, before);
      RunHoldsOffered(h, before);
      StepKeepsReadable(h, RunMemory(h, before).0, ops[k], Offered(ops), key);
    }
  }

  /** On disk, when the bytes offered do not collide: once a read of a key has succeeded, every
      later read of it succeeds with the same bytes. */
  lemma ReadsAreStable(h: Hash, ops: seq<Op>, i: nat, j: nat)
    requires i < j < |ops| && ops[i].Get? && ops[j] == ops[i]
    requires CollisionFree(h, Offered(ops))
    ensures |RunDisk(h, ops).1| == |ops|
    ensures RunDisk(h, ops).1[i].Found? ==> RunDisk(h, ops).1[j] == RunDisk(h, ops).1[i]
  {
    DiskRefinesMemory(h, ops);
    ReplyAt(h, ops, i);
    ReplyAt(h, ops, j);
    var key := ops[i].key;
    if RunMemory(h, ops).1[i].Found? {
      OfferedGrows(ops, j);
      assert ops[..j][..i] == ops[..i];
      StaysReadable(h, ops[..j], i, key);
    }
  }
}
