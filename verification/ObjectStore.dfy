/**
 The two object store adapters. `Memory` keeps one record per object and per staging session;
 the disk adapter keeps an object tree, and two files per session. The disk adapter refines
 the memory adapter: over every sequence of calls without I/O failure they give the same
 replies.
 */
module ObjectStore {
  import opened ContentAddress

  datatype Error = InvalidAddress | AddressMismatch | NotFound | StagingNotFound | InvalidSession | LengthMismatch | IoFailure

  datatype Reply = Done | Found(data: Bytes) | Staged(digest: string, size: nat) | Refused(error: Error)

  datatype Op =
    | Put(key: string, data: Bytes, size: int)
    | Get(key: string)
    | StagingWrite(session: string, data: Bytes)
    | StagingFinalize(session: string, digest: string)
    | StagingAbort(session: string)

  // ----- The memory adapter -----

  datatype Pending = Pending(data: Bytes, digest: string)
  datatype Memory = Memory(objects: map<string, Bytes>, pending: map<string, Pending>)

  const EMPTY_MEMORY := Memory(map[], map[])

  function MemoryStep(h: Hash, m: Memory, op: Op): (Memory, Reply) {
    match op
    case Put(key, data, size) =>
      if !Canonical(key) then (m, Refused(InvalidAddress))
      else if size >= 0 && |data| != size then (m, Refused(LengthMismatch))
      else if h(data) != key then (m, Refused(AddressMismatch))
      else (m.(objects := m.objects[key := data]), Done)
    case Get(key) =>
      if !Canonical(key) then (m, Refused(InvalidAddress))
      else if key !in m.objects then (m, Refused(NotFound))
      else (m, Found(m.objects[key]))
    case StagingWrite(session, data) =>
      if !ValidSession(session) then (m, Refused(InvalidSession))
      else (m.(pending := m.pending[session := Pending(data, h(data))]), Staged(h(data), |data|))
    case StagingFinalize(session, asserted) =>
      var digest := Normalise(asserted);
      if !ValidSession(session) then (m, Refused(InvalidSession))
      else if !Canonical(digest) then (m, Refused(InvalidAddress))
      else if session !in m.pending then (m, Refused(StagingNotFound))
      else
        var rest := m.pending - {session};
        if m.pending[session].digest != digest then (m.(pending := rest), Refused(AddressMismatch))
        else (Memory(m.objects[digest := m.pending[session].data], rest), Done)
    case StagingAbort(session) =>
      if !ValidSession(session) then (m, Refused(InvalidSession))
      else (m.(pending := m.pending - {session}), Done)
  }

  // ----- The disk adapter -----

  type Files = map<Path, Bytes>

  function DiskStep(h: Hash, f: Files, op: Op): (Files, Reply) {
    match op
    case Put(key, data, size) =>
      if !Canonical(key) then (f, Refused(InvalidAddress))
      else if size >= 0 && |data| != size then (f, Refused(LengthMismatch))
      else if h(data) != key then (f, Refused(AddressMismatch))
      else (f[ObjectPath(key) := data], Done)
    case Get(key) =>
      if !Canonical(key) then (f, Refused(InvalidAddress))
      else if ObjectPath(key) !in f then (f, Refused(NotFound))
      else (f, Found(f[ObjectPath(key)]))
    case StagingWrite(session, data) =>
      if !ValidSession(session) then (f, Refused(InvalidSession))
      else (f[PendingPath(session) := data][SidecarPath(session) := h(data) + "\n"], Staged(h(data), |data|))
    case StagingFinalize(session, asserted) =>
      var digest := Normalise(asserted);
      if !ValidSession(session) then (f, Refused(InvalidSession))
      else if !Canonical(digest) then (f, Refused(InvalidAddress))
      else if SidecarPath(session) !in f then (f, Refused(StagingNotFound))
      else if Normalise(f[SidecarPath(session)]) != digest then (DropSession(f, session), Refused(AddressMismatch))
      else if PendingPath(session) !in f then (f, Refused(IoFailure))
      else (DropSession(f, session)[ObjectPath(digest) := f[PendingPath(session)]], Done)
    case StagingAbort(session) =>
      if !ValidSession(session) then (f, Refused(InvalidSession)) else (DropSession(f, session), Done)
  }

  function DropSession(f: Files, session: string): Files {
    f - {PendingPath(session), SidecarPath(session)}
  }

  // ----- Refinement -----

  /** The object tree holds exactly the memory adapter's objects. */
  ghost predicate SameObjects(f: Files, m: Memory) {
    forall key: string ::
      && (ObjectPath(key) in f <==> key in m.objects)
      && (key in m.objects ==> f[ObjectPath(key)] == m.objects[key])
  }

  /** Each session's two files are the memory adapter's one record. */
  ghost predicate SamePending(f: Files, m: Memory) {
    forall s: string ::
      && (PendingPath(s) in f <==> s in m.pending)
      && (SidecarPath(s) in f <==> s in m.pending)
      && (s in m.pending ==> f[PendingPath(s)] == m.pending[s].data && f[SidecarPath(s)] == m.pending[s].digest + "\n")
  }

  /** The content-address invariant of the memory adapter. */
  predicate Sound(h: Hash, m: Memory) {
    && (forall key | key in m.objects :: Canonical(key) && h(m.objects[key]) == key)
    && (forall s | s in m.pending :: ValidSession(s) && m.pending[s].digest == h(m.pending[s].data))
  }

  ghost predicate Refines(h: Hash, f: Files, m: Memory) {
    SameObjects(f, m) && SamePending(f, m) && Sound(h, m)
  }

  lemma KeyPaths(key: string)
    ensures forall k: string :: ObjectPath(k) == ObjectPath(key) <==> k == key
    ensures forall k: string :: ObjectPath(key) != PendingPath(k)
    ensures forall k: string :: ObjectPath(key) != SidecarPath(k)
  {
    forall k: string
      ensures ObjectPath(k) == ObjectPath(key) <==> k == key
      ensures ObjectPath(key) != PendingPath(k) && ObjectPath(key) != SidecarPath(k)
    {
      PathsAreDistinct(key, k);
    }
  }

  lemma SessionPaths(s: string)
    ensures forall k: string :: PendingPath(k) == PendingPath(s) <==> k == s
    ensures forall k: string :: SidecarPath(k) == SidecarPath(s) <==> k == s
    ensures forall k: string :: PendingPath(k) != SidecarPath(s)
    ensures forall k: string :: SidecarPath(k) != PendingPath(s)
    ensures forall k: string :: ObjectPath(k) != PendingPath(s) && ObjectPath(k) != SidecarPath(s)
  {
    forall k: string
      ensures PendingPath(k) == PendingPath(s) <==> k == s
      ensures SidecarPath(k) == SidecarPath(s) <==> k == s
      ensures PendingPath(k) != SidecarPath(s) && SidecarPath(k) != PendingPath(s)
      ensures ObjectPath(k) != PendingPath(s) && ObjectPath(k) != SidecarPath(s)
    {
      PathsAreDistinct(k, s);
      PathsAreDistinct(s, k);
    }
  }

  lemma StoreObjectRefines(h: Hash, f: Files, m: Memory, key: string, data: Bytes)
    requires Refines(h, f, m) && Canonical(key) && h(data) == key
    ensures Refines(h, f[ObjectPath(key) := data], m.(objects := m.objects[key := data]))
  {
    KeyPaths(key);
    hide ObjectPath, PendingPath, SidecarPath, Canonical, ValidSession;
  }

  lemma StageKeepsPending(h: Hash, f: Files, m: Memory, s: string, data: Bytes, t: string)
    requires SamePending(f, m)
    ensures var f' := f[PendingPath(s) := data][SidecarPath(s) := h(data) + "\n"];
            var pending := m.pending[s := Pending(data, h(data))];
            && (PendingPath(t) in f' <==> t in pending)
            && (SidecarPath(t) in f' <==> t in pending)
            && (t in pending ==> f'[PendingPath(t)] == pending[t].data && f'[SidecarPath(t)] == pending[t].digest + "\n")
  {
    PathsAreDistinct(s, t);
    PathsAreDistinct(t, s);
    hide PendingPath, SidecarPath;
  }

  lemma StageRefines(h: Hash, f: Files, m: Memory, s: string, data: Bytes)
    requires Refines(h, f, m) && ValidSession(s)
    ensures Refines(h, f[PendingPath(s) := data][SidecarPath(s) := h(data) + "\n"],
                    m.(pending := m.pending[s := Pending(data, h(data))]))
  {
    var f' := f[PendingPath(s) := data][SidecarPath(s) := h(data) + "\n"];
    var m' := m.(pending := m.pending[s := Pending(data, h(data))]);
    assert SameObjects(f', m') by {
      SessionPaths(s);
      hide ObjectPath, PendingPath, SidecarPath, SamePending, Sound;
    }
    assert SamePending(f', m') by {
      hide ObjectPath, PendingPath, SidecarPath, SameObjects, Sound;
      forall t: string
        ensures PendingPath(t) in f' <==> t in m'.pending
        ensures SidecarPath(t) in f' <==> t in m'.pending
        ensures t in m'.pending ==> f'[PendingPath(t)] == m'.pending[t].data && f'[SidecarPath(t)] == m'.pending[t].digest + "\n"
      {
        StageKeepsPending(h, f, m, s, data, t);
      }
    }
    assert Sound(h, m') by { hide Canonical, ValidSession; }
  }

  lemma DropRefines(h: Hash, f: Files, m: Memory, s: string)
    requires Refines(h, f, m)
    ensures Refines(h, DropSession(f, s), m.(pending := m.pending - {s}))
  {
    hide ObjectPath, PendingPath, SidecarPath, Canonical, ValidSession;
    var f', m' := DropSession(f, s), m.(pending := m.pending - {s});
    assert SameObjects(f', m') by { SessionPaths(s); hide SamePending, Sound; }
    assert SamePending(f', m') by { SessionPaths(s); hide SameObjects, Sound; }
    assert Sound(h, m') by { hide SameObjects, SamePending; }
  }

  lemma FinalizeRefines(h: Hash, f: Files, m: Memory, s: string, asserted: string)
    requires Refines(h, f, m) && ValidSession(s)
    ensures var (f', r) := DiskStep(h, f, StagingFinalize(s, asserted));
            var (m', r') := MemoryStep(h, m, StagingFinalize(s, asserted));
            r == r' && Refines(h, f', m')
  {
    hide Normalise, Canonical, ValidSession;
    DropRefines(h, f, m, s);
    if s in m.pending {
      var p := m.pending[s];
      NormaliseRecorded(p.digest);
      if p.digest == Normalise(asserted) {
        StoreObjectRefines(h, DropSession(f, s), m.(pending := m.pending - {s}), p.digest, p.data);
      }
    }
  }

  /** One call: the same reply, and the adapters still agree. */
  lemma StepRefines(h: Hash, f: Files, m: Memory, op: Op)
    requires Refines(h, f, m)
    ensures var (f', r) := DiskStep(h, f, op);
            var (m', r') := MemoryStep(h, m, op);
            r == r' && Refines(h, f', m')
  {
    hide Canonical, ValidSession;
    match op
    case Put(key, data, _) => if Canonical(key) && h(data) == key { StoreObjectRefines(h, f, m, key, data); }
    case Get(_) =>
    case StagingWrite(s, data) => if ValidSession(s) { StageRefines(h, f, m, s, data); }
    case StagingFinalize(s, asserted) => if ValidSession(s) { FinalizeRefines(h, f, m, s, asserted); }
    case StagingAbort(s) => DropRefines(h, f, m, s);
  }

  function RunMemory(h: Hash, ops: seq<Op>): (Memory, seq<Reply>) {
    if ops == [] then (EMPTY_MEMORY, [])
    else
      var (m, replies) := RunMemory(h, ops[..|ops| - 1]);
      var (m', r) := MemoryStep(h, m, ops[|ops| - 1]);
      (m', replies + [r])
  }

  function RunDisk(h: Hash, ops: seq<Op>): (Files, seq<Reply>) {
    if ops == [] then (map[], [])
    else
      var (f, replies) := RunDisk(h, ops[..|ops| - 1]);
      var (f', r) := DiskStep(h, f, ops[|ops| - 1]);
      (f', replies + [r])
  }

  /** The disk adapter gives the memory adapter's replies to every sequence of calls. */
  lemma {:induction false} DiskRefinesMemory(h: Hash, ops: seq<Op>)
    ensures RunDisk(h, ops).1 == RunMemory(h, ops).1
    ensures Refines(h, RunDisk(h, ops).0, RunMemory(h, ops).0)
  {
    if ops != [] {
      var n := |ops| - 1;
      DiskRefinesMemory(h, ops[..n]);
      StepRefines(h, RunDisk(h, ops[..n]).0, RunMemory(h, ops[..n]).0, ops[n]);
    }
  }
}
