/**
 What the store answers, told by the calls alone: which calls install an object, what a read
 returns, and what becomes of a staged upload, over every sequence of calls on disk.
 */
module StoreHistory {
  import opened GoStrings
  import opened ContentAddress
  import opened ObjectStore
  import opened StoreLaws

  // ----- Spellings of a digest -----

  /** The same hex digit, in either letter case. */
  predicate SameDigit(c: char, digit: char) {
    c == digit || ('a' <= digit <= 'f' && c as int + 32 == digit as int)
  }

  predicate Spaces(s: string) { forall i | 0 <= i < |s| :: IsSpace(s[i]) }

  predicate SpelledFrom(s: string, i: nat, key: string) {
    && i + |key| <= |s| && Spaces(s[..i]) && Spaces(s[i + |key|..])
    && forall k | 0 <= k < |key| :: SameDigit(s[i + k], key[k])
  }

  /** `s` is the key in any letter case with blanks around it. */
  predicate Spells(s: string, key: string) { exists i | 0 <= i <= |s| :: SpelledFrom(s, i, key) }

  lemma {:induction false} TrimLeftDropsSpaces(s: string)
    ensures Spaces(s[..|s| - |TrimLeft(s)|])
  {
    hide IsSpace;
    if s != "" && IsSpace(s[0]) {
      TrimLeftDropsSpaces(s[1..]);
      var n := |s| - |TrimLeft(s)|;
      assert s[..n] == [s[0]] + s[1..][..n - 1];
    }
  }

  lemma TrimParts(s: string)
    ensures var i, t := |s| - |TrimLeft(s)|, TrimSpace(s);
            i + |t| <= |s| && Spaces(s[..i]) && Spaces(s[i + |t|..]) && s[i..i + |t|] == t
  {
    hide IsSpace, TrimLeft, TrimRight;
    TrimLeftDropsSpaces(s);
    var l, t := TrimLeft(s), TrimSpace(s);
    var i := |s| - |l|;
    assert l == s[i..];
    assert t == l[..|t|] && s[i + |t|..] == l[|t|..];
  }

  lemma LowerIsSameDigit(c: char, digit: char)
    requires IsHex(digit)
    ensures LowerChar(c) == digit <==> SameDigit(c, digit)
  {
  }

  lemma {:induction false} TrimLeftTo(s: string, i: nat)
    requires i < |s| && Spaces(s[..i]) && !IsSpace(s[i])
    ensures TrimLeft(s) == s[i..]
  {
    hide IsSpace;
    if i > 0 {
      assert s[..i][0] == s[0] && IsSpace(s[..i][0]);
      assert s[1..][..i - 1] == s[..i][1..];
      TrimLeftTo(s[1..], i - 1);
    }
  }

  lemma {:induction false} TrimRightTo(s: string, n: nat)
    requires 0 < n <= |s| && Spaces(s[n..]) && !IsSpace(s[n - 1])
    ensures TrimRight(s) == s[..n]
  {
    hide IsSpace;
    if n < |s| {
      var k := |s| - 1;
      assert s[n..][k - n] == s[k] && IsSpace(s[n..][k - n]);
      assert s[..k][n..] == s[n..][..k - n];
      TrimRightTo(s[..k], n);
      assert s[..k][..n] == s[..n];
    }
  }

  lemma SpelledIsTrimmed(s: string, i: nat, key: string)
    requires Canonical(key) && SpelledFrom(s, i, key)
    ensures TrimSpace(s) == s[i..i + |key|]
  {
    var n := |key|;
    assert IsHex(key[0]) && IsHex(key[n - 1]) && SameDigit(s[i], key[0]) && SameDigit(s[i + (n - 1)], key[n - 1]);
    TrimLeftTo(s, i);
    var l := s[i..];
    assert l[n..] == s[i + n..] && l[n - 1] == s[i + (n - 1)];
    TrimRightTo(l, n);
    assert l[..n] == s[i..i + n];
  }

  /** A digest is read as a key exactly when it spells it. */
  lemma NormaliseIff(s: string, key: string)
    requires Canonical(key)
    ensures Normalise(s) == key <==> Spells(s, key)
  {
    hide IsSpace, TrimSpace, TrimLeft;
    TrimParts(s);
    var i, t := |s| - |TrimLeft(s)|, TrimSpace(s);
    if Normalise(s) == key {
      forall k | 0 <= k < |key| ensures SameDigit(s[i + k], key[k]) {
        assert s[i + k] == t[k] && IsHex(key[k]);
        LowerIsSameDigit(t[k], key[k]);
      }
      assert SpelledFrom(s, i, key);
    }
    if Spells(s, key) {
      var j :| 0 <= j <= |s| && SpelledFrom(s, j, key);
      SpelledIsTrimmed(s, j, key);
      forall k | 0 <= k < |key| ensures ToLower(t)[k] == key[k] {
        assert t[k] == s[j + k] && IsHex(key[k]);
        LowerIsSameDigit(t[k], key[k]);
      }
      assert ToLower(t) == key;
    }
  }

  /** The digest spells some key. */
  ghost predicate NamesKey(digest: string) { exists key :: Canonical(key) && Spells(digest, key) }

  lemma NamesKeyIff(digest: string)
    ensures NamesKey(digest) <==> Canonical(Normalise(digest))
  {
    hide Normalise, Spells, Canonical;
    if Canonical(Normalise(digest)) { NormaliseIff(digest, Normalise(digest)); }
    if key :| Canonical(key) && Spells(digest, key) { NormaliseIff(digest, key); }
  }

  // ----- What the calls say -----

  /** The call replaces, drops or consumes what is staged in the session. */
  ghost predicate Ends(op: Op, session: string) {
    || (op.StagingWrite? && op.session == session)
    || (op.StagingAbort? && op.session == session)
    || (op.StagingFinalize? && op.session == session && NamesKey(op.digest))
  }

  ghost predicate StagedAt(ops: seq<Op>, w: nat, session: string, data: Bytes) {
    && w < |ops| && ops[w] == StagingWrite(session, data)
    && forall i | w < i < |ops| :: !Ends(ops[i], session)
  }

  /** After these calls the session holds these bytes: it was last written with them, and was
      neither aborted nor finalized since. */
  ghost predicate Staged(ops: seq<Op>, session: string, data: Bytes) {
    ValidSession(session) && exists w: nat :: StagedAt(ops, w, session, data)
  }

  /** After `ops`, this call stores these bytes under their own address. */
  ghost predicate Installs(h: Hash, ops: seq<Op>, op: Op, key: string, data: Bytes) {
    && h(data) == key
    && match op
       case Put(k, d, size) => k == key && d == data && (size < 0 || size == |data|)
       case StagingFinalize(session, digest) => Spells(digest, key) && Staged(ops, session, data)
       case _ => false
  }

  ghost predicate InstalledAt(h: Hash, ops: seq<Op>, i: nat, key: string, data: Bytes) {
    && i < |ops| && Installs(h, ops[..i], ops[i], key, data)
    && forall k, d | i < k < |ops| :: !Installs(h, ops[..k], ops[k], key, d)
  }

  /** These bytes are what was last installed under the key. */
  ghost predicate Installed(h: Hash, ops: seq<Op>, key: string, data: Bytes) {
    exists i: nat :: InstalledAt(h, ops, i, key, data)
  }

  // ----- One call at a time -----

  lemma StagedAppend(ops: seq<Op>, op: Op, session: string, data: Bytes)
    ensures Staged(ops + [op], session, data) <==>
            (op == StagingWrite(session, data) && ValidSession(session)) || (Staged(ops, session, data) && !Ends(op, session))
  {
    hide Ends, ValidSession;
    var all := ops + [op];
    assert all[|ops|] == op && forall i | 0 <= i < |ops| :: all[i] == ops[i];
    if op == StagingWrite(session, data) { assert StagedAt(all, |ops|, session, data); }
    if Staged(ops, session, data) && !Ends(op, session) {
      var w: nat :| StagedAt(ops, w, session, data);
      assert StagedAt(all, w, session, data);
    }
    if Staged(all, session, data) && op != StagingWrite(session, data) {
      var w: nat :| StagedAt(all, w, session, data);
      assert StagedAt(ops, w, session, data);
    }
  }

  lemma InstalledAppend(h: Hash, ops: seq<Op>, op: Op, key: string, data: Bytes)
    ensures Installed(h, ops + [op], key, data) <==>
            || Installs(h, ops, op, key, data)
            || (Installed(h, ops, key, data) && forall d :: !Installs(h, ops, op, key, d))
  {
    hide Installs;
    var all, n := ops + [op], |ops|;
    assert all[n] == op && all[..n] == ops;
    assert forall i | 0 <= i < n :: all[i] == ops[i] && all[..i] == ops[..i];
    if Installs(h, ops, op, key, data) { assert InstalledAt(h, all, n, key, data); }
    if Installed(h, ops, key, data) && forall d :: !Installs(h, ops, op, key, d) {
      var i: nat :| InstalledAt(h, ops, i, key, data);
      assert InstalledAt(h, all, i, key, data);
    }
    if Installed(h, all, key, data) && !Installs(h, ops, op, key, data) {
      var i: nat :| InstalledAt(h, all, i, key, data);
      assert InstalledAt(h, ops, i, key, data);
    }
  }

  // ----- The store after any calls -----

  predicate HasPending(m: Memory, session: string, data: Bytes) {
    session in m.pending && m.pending[session].data == data
  }

  predicate HasObject(m: Memory, key: string, data: Bytes) {
    key in m.objects && m.objects[key] == data
  }

  /** The store holds what the calls say. */
  ghost predicate Holds(h: Hash, ops: seq<Op>, m: Memory) {
    && (forall s, data :: HasPending(m, s, data) <==> Staged(ops, s, data))
    && (forall key, data :: HasObject(m, key, data) <==> Installed(h, ops, key, data))
  }

  lemma OnePending(h: Hash, m: Memory, s: string)
    requires Sound(h, m) && s in m.pending
    ensures ValidSession(s) && m.pending[s].digest == h(m.pending[s].data)
    ensures forall data :: HasPending(m, s, data) <==> data == m.pending[s].data
  {
    hide ValidSession;
  }

  lemma NonePending(m: Memory, s: string)
    requires s !in m.pending
    ensures forall data :: !HasPending(m, s, data)
  {
  }

  /** What each kind of call leaves pending. */
  lemma PendingAfter(h: Hash, m: Memory, op: Op)
    ensures MemoryStep(h, m, op).0.pending ==
            match op
            case StagingWrite(s, d) => if ValidSession(s) then m.pending[s := Pending(d, h(d))] else m.pending
            case StagingFinalize(s, digest) =>
              if ValidSession(s) && Canonical(Normalise(digest)) then m.pending - {s} else m.pending
            case StagingAbort(s) => if ValidSession(s) then m.pending - {s} else m.pending
            case _ => m.pending
  {
    hide Canonical, ValidSession, Normalise;
    if op.StagingFinalize? && op.session !in m.pending { assert m.pending - {op.session} == m.pending; }
  }

  lemma StepPending(h: Hash, m: Memory, op: Op, s: string, data: Bytes)
    requires Sound(h, m)
    ensures HasPending(MemoryStep(h, m, op).0, s, data) <==>
            (op == StagingWrite(s, data) && ValidSession(s)) || (HasPending(m, s, data) && !Ends(op, s))
  {
    hide Canonical, ValidSession, Normalise, NamesKey, MemoryStep, Sound;
    PendingAfter(h, m, op);
    if op.StagingFinalize? { NamesKeyIff(op.digest); }
    if s in m.pending { OnePending(h, m, s); }
  }

  lemma StepObject(h: Hash, ops: seq<Op>, m: Memory, op: Op, key: string, data: Bytes)
    requires Sound(h, m) && forall s, d :: HasPending(m, s, d) <==> Staged(ops, s, d)
    ensures HasObject(MemoryStep(h, m, op).0, key, data) <==>
            || Installs(h, ops, op, key, data)
            || (HasObject(m, key, data) && forall d :: !Installs(h, ops, op, key, d))
  {
    match op
    case Put(k, d, size) => StepPut(h, ops, m, op, key, data);
    case StagingFinalize(s, digest) => StepFinalize(h, ops, m, op, key, data);
    case _ => hide Canonical, ValidSession, Staged;
  }

  lemma StepPut(h: Hash, ops: seq<Op>, m: Memory, op: Op, key: string, data: Bytes)
    requires op.Put?
    ensures HasObject(MemoryStep(h, m, op).0, key, data) <==>
            || Installs(h, ops, op, key, data)
            || (HasObject(m, key, data) && forall d :: !Installs(h, ops, op, key, d))
  {
    hide Canonical, ValidSession, Staged;
    assert Installs(h, ops, op, key, op.data) <==>
           h(op.data) == key && op.key == key && (op.size < 0 || op.size == |op.data|);
  }

  /** What a finalize does, told by the bytes staged. */
  lemma StepFinalize(h: Hash, ops: seq<Op>, m: Memory, op: Op, key: string, data: Bytes)
    requires op.StagingFinalize? && Sound(h, m) && forall s, d :: HasPending(m, s, d) <==> Staged(ops, s, d)
    ensures HasObject(MemoryStep(h, m, op).0, key, data) <==>
            || Installs(h, ops, op, key, data)
            || (HasObject(m, key, data) && forall d :: !Installs(h, ops, op, key, d))
  {
    hide Normalise, Staged, Spells, Canonical, ValidSession, Sound, HasPending;
    var s := op.session;
    if Canonical(key) { NormaliseIff(op.digest, key); }
    if s in m.pending {
      OnePending(h, m, s);
      var d := m.pending[s].data;
      assert Installs(h, ops, op, key, d) <==> h(d) == key && Normalise(op.digest) == key;
    } else {
      NonePending(m, s);
    }
  }

  lemma {:induction false} RunHolds(h: Hash, ops: seq<Op>)
    ensures Holds(h, ops, RunMemory(h, ops).0)
  {
    if ops != [] {
      hide MemoryStep, Installs, Ends, Installed, Staged, HasPending, HasObject;
      var n := |ops| - 1;
      var before, op := ops[..n], ops[n];
      assert ops == before + [op];
      RunHolds(h, before);
      DiskRefinesMemory(h, before);
      var m, m' := RunMemory(h, before).0, RunMemory(h, ops).0;
      forall s, data ensures HasPending(m', s, data) <==> Staged(ops, s, data) {
        StepPending(h, m, op, s, data);
        StagedAppend(before, op, s, data);
      }
      forall key, data ensures HasObject(m', key, data) <==> Installed(h, ops, key, data) {
        StepObject(h, before, m, op, key, data);
        InstalledAppend(h, before, op, key, data);
      }
    } else {
      NothingYet(h);
    }
  }

  lemma NothingYet(h: Hash)
    ensures Holds(h, [], EMPTY_MEMORY)
  {
  }

  // ----- Replies, at any point of any run on disk -----

  lemma ReplyOnDisk(h: Hash, ops: seq<Op>, i: nat)
    requires i < |ops|
    ensures |RunDisk(h, ops).1| == |ops|
    ensures var m := RunMemory(h, ops[..i]).0;
            && RunDisk(h, ops).1[i] == MemoryStep(h, m, ops[i]).1
            && Sound(h, m) && Holds(h, ops[..i], m)
  {
    hide MemoryStep, DiskStep, Holds;
    DiskRefinesMemory(h, ops);
    ReplyAt(h, ops, i);
    DiskRefinesMemory(h, ops[..i]);
    RunHolds(h, ops[..i]);
  }

  /** A Put succeeds exactly when it is given bytes under their own address and no wrong size; a
      bad address is told first, a wrong size next, wrong bytes last. */
  lemma PutReplies(h: Hash, ops: seq<Op>, i: nat)
    requires i < |ops| && ops[i].Put?
    ensures |RunDisk(h, ops).1| == |ops|
    ensures var op, r := ops[i], RunDisk(h, ops).1[i];
            var sizeOk := op.size < 0 || op.size == |op.data|;
            && (r == Done <==> h(op.data) == op.key && sizeOk)
            && (r == Refused(InvalidAddress) <==> !Canonical(op.key))
            && (r == Refused(LengthMismatch) <==> Canonical(op.key) && !sizeOk)
            && (r == Refused(AddressMismatch) <==> Canonical(op.key) && sizeOk && h(op.data) != op.key)
  {
    ReplyOnDisk(h, ops, i);
    hide RunDisk, RunMemory, Holds, Canonical;
  }

  /** A read finds exactly what was last installed under the key, and nothing exactly when
      nothing ever was. */
  lemma GetReplies(h: Hash, ops: seq<Op>, i: nat)
    requires i < |ops| && ops[i].Get?
    ensures |RunDisk(h, ops).1| == |ops|
    ensures var key, r := ops[i].key, RunDisk(h, ops).1[i];
            && (forall data :: r == Found(data) <==> Installed(h, ops[..i], key, data))
            && (r == Refused(InvalidAddress) <==> !Canonical(key))
            && (r == Refused(NotFound) <==> Canonical(key) && forall data :: !Installed(h, ops[..i], key, data))
  {
    ReplyOnDisk(h, ops, i);
    hide RunDisk, RunMemory, Canonical, Installed, Staged, ValidSession;
    var key, m := ops[i].key, RunMemory(h, ops[..i]).0;
    if key in m.objects { assert HasObject(m, key, m.objects[key]); }
  }

  /** A write to a valid session is staged, and answered with its digest and size. */
  lemma WriteReplies(h: Hash, ops: seq<Op>, i: nat)
    requires i < |ops| && ops[i].StagingWrite?
    ensures |RunDisk(h, ops).1| == |ops|
    ensures var op, r := ops[i], RunDisk(h, ops).1[i];
            r == if ValidSession(op.session) then ObjectStore.Staged(h(op.data), |op.data|) else Refused(InvalidSession)
  {
    ReplyOnDisk(h, ops, i);
    hide RunDisk, RunMemory, Holds, ValidSession;
  }

  /** An abort of a valid session succeeds, whether anything was staged or not. */
  lemma AbortReplies(h: Hash, ops: seq<Op>, i: nat)
    requires i < |ops| && ops[i].StagingAbort?
    ensures |RunDisk(h, ops).1| == |ops|
    ensures RunDisk(h, ops).1[i] == if ValidSession(ops[i].session) then Done else Refused(InvalidSession)
  {
    ReplyOnDisk(h, ops, i);
    hide RunDisk, RunMemory, Holds, ValidSession;
  }

  lemma FinalizeAnswers(h: Hash, m: Memory, s: string, digest: string)
    requires Sound(h, m)
    ensures var r := MemoryStep(h, m, StagingFinalize(s, digest)).1;
            && (r == Refused(InvalidSession) <==> !ValidSession(s))
            && (r == Refused(InvalidAddress) <==> ValidSession(s) && !NamesKey(digest))
            && (r == Refused(StagingNotFound) <==> ValidSession(s) && NamesKey(digest) && s !in m.pending)
            && (s in m.pending && NamesKey(digest) ==>
                  var key := h(m.pending[s].data);
                  && (r == Done <==> Spells(digest, key))
                  && (r == Refused(AddressMismatch) <==> !Spells(digest, key)))
  {
    hide Canonical, NamesKey, Normalise, Spells, ValidSession, Sound, HasPending;
    NamesKeyIff(digest);
    if s in m.pending {
      OnePending(h, m, s);
      NormaliseIff(digest, h(m.pending[s].data));
    }
  }

  /** A finalize succeeds exactly when its digest spells the hash of the bytes staged; otherwise
      the session is told to be malformed, the digest to be none, the session to hold nothing,
      or the digest to be another's. */
  lemma FinalizeReplies(h: Hash, ops: seq<Op>, i: nat)
    requires i < |ops| && ops[i].StagingFinalize?
    ensures |RunDisk(h, ops).1| == |ops|
    ensures var op, r := ops[i], RunDisk(h, ops).1[i];
            var s := op.session;
            && (r == Refused(InvalidSession) <==> !ValidSession(s))
            && (r == Refused(InvalidAddress) <==> ValidSession(s) && !NamesKey(op.digest))
            && (r == Refused(StagingNotFound) <==>
                  ValidSession(s) && NamesKey(op.digest) && forall data :: !Staged(ops[..i], s, data))
            && (forall data | Staged(ops[..i], s, data) && NamesKey(op.digest) ::
                  && (r == Done <==> Spells(op.digest, h(data)))
                  && (r == Refused(AddressMismatch) <==> !Spells(op.digest, h(data))))
  {
    hide RunDisk, RunMemory, MemoryStep, Installed, Staged, NamesKey, Spells, ValidSession, HasPending;
    ReplyOnDisk(h, ops, i);
    var m := RunMemory(h, ops[..i]).0;
    var s := ops[i].session;
    FinalizeAnswers(h, m, s, ops[i].digest);
    assert forall data :: HasPending(m, s, data) <==> Staged(ops[..i], s, data);
    if s in m.pending {
      OnePending(h, m, s);
      assert Staged(ops[..i], s, m.pending[s].data);
    } else {
      NonePending(m, s);
    }
  }

  /** An upload carried through: written, then finalized under its digest in any spelling, it is
      answered Done and every read of the key from then on, until it is installed again, returns
      its bytes. */
  lemma UploadIsReadable(h: Hash, ops: seq<Op>, session: string, data: Bytes, digest: string)
    requires ValidSession(session) && Spells(digest, h(data))
    ensures var all := ops + [StagingWrite(session, data), StagingFinalize(session, digest), Get(h(data))];
            var r := RunDisk(h, all).1;
            |r| == |ops| + 3 && r[|ops| + 1] == Done && r[|ops| + 2] == Found(data)
  {
    hide RunDisk, Spells, ValidSession, Ends;
    var n := |ops|;
    var all := ops + [StagingWrite(session, data), StagingFinalize(session, digest), Get(h(data))];
    var written := ops + [StagingWrite(session, data)];
    assert all[..n + 1] == written && all[..n + 2] == written + [StagingFinalize(session, digest)];
    StagedAppend(ops, StagingWrite(session, data), session, data);
    assert NamesKey(digest);
    FinalizeReplies(h, all, n + 1);
    GetReplies(h, all, n + 2);
    hide Staged, NamesKey;
    InstalledAppend(h, written, StagingFinalize(session, digest), h(data), data);
  }

  /** A session that was aborted, or finalized under any key, holds nothing. */
  lemma EndedHoldsNothing(h: Hash, ops: seq<Op>, end: Op, session: string, digest: string)
    requires ValidSession(session) && NamesKey(digest)
    requires end == StagingAbort(session) || (end.StagingFinalize? && end.session == session && NamesKey(end.digest))
    ensures var all := ops + [end, StagingFinalize(session, digest)];
            var r := RunDisk(h, all).1;
            |r| == |ops| + 2 && r[|ops| + 1] == Refused(StagingNotFound)
  {
    hide RunDisk, NamesKey, ValidSession;
    var n := |ops|;
    var all := ops + [end, StagingFinalize(session, digest)];
    assert all[..n + 1] == ops + [end];
    forall data ensures !Staged(ops + [end], session, data) { StagedAppend(ops, end, session, data); }
    FinalizeReplies(h, all, n + 1);
  }
}
