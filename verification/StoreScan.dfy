/**
 The integrity scan of the disk store's object tree (two levels: shard directory and file).
 It is exact on any tree, tampered with or not, and clean on every tree the write API builds.
 */
module StoreScan {
  import opened ContentAddress
  import opened ObjectStore

  /** A file found by the walk. */
  datatype Entry = Entry(shard: string, name: string)

  function EntryPath(e: Entry): Path { ["objects", e.shard, e.name] }

  /** A leftover of an interrupted upload, by its temporary name. */
  predicate IsLeftover(name: string) { ".object-" <= name }

  datatype Reason = BadName | WrongShard | WrongDigest(found: string)
  datatype Failure = Failure(entry: Entry, reason: Reason)
  datatype Report = Report(objects: nat, verified: nat, failures: seq<Failure>, staging: seq<Entry>)

  predicate Clean(r: Report) { |r.failures| == 0 && |r.staging| == 0 }

  /** An entry a reader can trust: addressable, in its own shard, and hashing to its name. */
  predicate Trustworthy(h: Hash, f: Files, e: Entry)
    requires EntryPath(e) in f
  {
    Canonical(e.name) && e.shard == e.name[..2] && h(f[EntryPath(e)]) == e.name
  }

  function WhyBad(h: Hash, f: Files, e: Entry): Reason
    requires EntryPath(e) in f
  {
    if !Canonical(e.name) then BadName
    else if e.shard != e.name[..2] then WrongShard
    else WrongDigest(h(f[EntryPath(e)]))
  }

  predicate Listed(f: Files, entries: seq<Entry>) {
    forall i | 0 <= i < |entries| :: EntryPath(entries[i]) in f
  }

  /** The files of the object tree. */
  function Tree(f: Files): set<Entry> {
    set p | p in f && |p| == 3 && p[0] == "objects" :: Entry(p[1], p[2])
  }

  /** What the walk visits: every file of the tree, once. */
  predicate IsWalk(f: Files, entries: seq<Entry>) {
    && (forall i, j | 0 <= i < j < |entries| :: entries[i] != entries[j])
    && (set e | e in entries) == Tree(f)
  }

  /** `x` reports a file of the tree that cannot be trusted, and says why. */
  predicate IsFailure(h: Hash, f: Files, x: Failure) {
    && EntryPath(x.entry) in f && !IsLeftover(x.entry.name)
    && !Trustworthy(h, f, x.entry) && x.reason == WhyBad(h, f, x.entry)
  }

  /** Every file of the tree is an object that can be trusted. */
  predicate TreeIsSound(h: Hash, f: Files) {
    forall e | e in Tree(f) :: EntryPath(e) in f && !IsLeftover(e.name) && Trustworthy(h, f, e)
  }

  /** A leftover's name starts with the temporary prefix. */
  lemma LeftoverIff(name: string)
    ensures IsLeftover(name) <==> exists rest :: name == ".object-" + rest
  {
    if IsLeftover(name) { assert name == ".object-" + name[8..]; }
  }

  /** What a reported failure says. */
  lemma ReasonIs(h: Hash, f: Files, x: Failure)
    requires IsFailure(h, f, x)
    ensures x.reason == BadName <==> !Canonical(x.entry.name)
    ensures x.reason == WrongShard <==> Canonical(x.entry.name) && x.entry.shard != x.entry.name[..2]
    ensures x.reason.WrongDigest? <==>
              && Canonical(x.entry.name) && x.entry.shard == x.entry.name[..2]
              && h(f[EntryPath(x.entry)]) != x.entry.name
    ensures x.reason.WrongDigest? ==> x.reason.found == h(f[EntryPath(x.entry)])
  {
  }

  lemma InTree(f: Files, e: Entry)
    ensures e in Tree(f) <==> EntryPath(e) in f
  {
    if e in Tree(f) {
      var p :| p in f && |p| == 3 && p[0] == "objects" && Entry(p[1], p[2]) == e;
      assert p == EntryPath(e);
    } else {
      var p := EntryPath(e);
      assert p[0] == "objects" && Entry(p[1], p[2]) == e;
    }
  }

  /** The untrustworthy entries that are no leftovers, in walk order, each with its reason. */
  function Failing(h: Hash, f: Files, entries: seq<Entry>): seq<Failure>
    requires Listed(f, entries)
  {
    if entries == [] then []
    else
      var n := |entries| - 1;
      var e := entries[n];
      Failing(h, f, entries[..n]) +
      if !IsLeftover(e.name) && !Trustworthy(h, f, e) then [Failure(e, WhyBad(h, f, e))] else []
  }

  function Leftovers(entries: seq<Entry>): seq<Entry> {
    if entries == [] then []
    else
      var n := |entries| - 1;
      Leftovers(entries[..n]) + if IsLeftover(entries[n].name) then [entries[n]] else []
  }

  datatype Verdict = Verified | Violation(found: string) | Missing | NotAnAddress

  /** Re-hashes the object stored under `key`. */
  method Verify(h: Hash, f: Files, key: string) returns (v: Verdict)
    ensures v == NotAnAddress <==> !Canonical(key)
    ensures v == Missing <==> Canonical(key) && ObjectPath(key) !in f
    ensures v == Verified ==> h(f[ObjectPath(key)]) == key
    ensures v.Violation? ==> v.found == h(f[ObjectPath(key)]) && v.found != key
  {
    var ok := CanonicalContentAddress(key);
    if !ok { return NotAnAddress; }
    var p := ObjectPath(key);
    if p !in f { return Missing; }
    var got := h(f[p]);
    if got != key { return Violation(got); }
    return Verified;
  }

  /** The scan: failures are exactly the untrustworthy files, leftovers are set apart, and
      every other file is counted as an object, verified or failed. */
  method Scan(h: Hash, f: Files, entries: seq<Entry>) returns (r: Report)
    requires Listed(f, entries)
    ensures r.failures == Failing(h, f, entries)
    ensures r.staging == Leftovers(entries)
    ensures r.objects == r.verified + |r.failures|
    ensures r.objects + |r.staging| == |entries|
    ensures IsWalk(f, entries) ==>
              && (forall x :: x in r.failures <==> IsFailure(h, f, x))
              && (forall e :: e in r.staging <==> EntryPath(e) in f && IsLeftover(e.name))
              && r.objects + |r.staging| == |Tree(f)|
              && (Clean(r) <==> TreeIsSound(h, f))
  {
    hide Canonical, IsLeftover, IsWalk, IsFailure, Tree, TreeIsSound;
    r := Report(0, 0, [], []);
    var i := 0;
    while i < |entries|
      invariant 0 <= i <= |entries|
      invariant r.failures == Failing(h, f, entries[..i])
      invariant r.staging == Leftovers(entries[..i])
      invariant r.objects == r.verified + |r.failures|
      invariant r.objects + |r.staging| == i
    {
      var e := entries[i];
      assert entries[..i + 1][..i] == entries[..i];
      i := i + 1;
      if IsLeftover(e.name) {
        r := r.(staging := r.staging + [e]);
        continue;
      }
      r := r.(objects := r.objects + 1);
      var ok := CanonicalContentAddress(e.name);
      if !ok {
        r := r.(failures := r.failures + [Failure(e, BadName)]);
      } else if e.shard != Shard(e.name) {
        r := r.(failures := r.failures + [Failure(e, WrongShard)]);
      } else {
        assert ObjectPath(e.name) == EntryPath(e);
        var v := Verify(h, f, e.name);
        match v
        case Verified => r := r.(verified := r.verified + 1);
        case Violation(found) => r := r.(failures := r.failures + [Failure(e, WrongDigest(found))]);
      }
    }
    assert entries[..i] == entries;
    if IsWalk(f, entries) { WalkIsExact(h, f, entries); }
  }

  function Shard(key: string): (s: string)
    requires Canonical(key)
    ensures s == key[..2] && |key| > 2
  {
    key[..2]
  }

  /** A scan is clean exactly when no file is a leftover and every file can be trusted. */
  lemma {:induction false} CleanIff(h: Hash, f: Files, entries: seq<Entry>)
    requires Listed(f, entries)
    ensures Failing(h, f, entries) == [] && Leftovers(entries) == [] <==>
            forall i | 0 <= i < |entries| :: !IsLeftover(entries[i].name) && Trustworthy(h, f, entries[i])
  {
    hide Canonical, IsLeftover, Trustworthy;
    if entries != [] {
      var n := |entries| - 1;
      CleanIff(h, f, entries[..n]);
      assert forall i | 0 <= i < n :: entries[..n][i] == entries[i];
    }
  }

  lemma {:induction false} FailingMembers(h: Hash, f: Files, entries: seq<Entry>, x: Failure)
    requires Listed(f, entries)
    ensures x in Failing(h, f, entries) <==> x.entry in entries && IsFailure(h, f, x)
  {
    hide Canonical, IsLeftover, Trustworthy, WhyBad;
    if entries != [] {
      var n := |entries| - 1;
      FailingMembers(h, f, entries[..n], x);
      assert entries == entries[..n] + [entries[n]];
      assert x.entry in entries <==> x.entry in entries[..n] || x.entry == entries[n];
    }
  }

  lemma {:induction false} LeftoverMembers(entries: seq<Entry>, e: Entry)
    ensures e in Leftovers(entries) <==> e in entries && IsLeftover(e.name)
  {
    hide IsLeftover;
    if entries != [] {
      var n := |entries| - 1;
      LeftoverMembers(entries[..n], e);
      assert entries == entries[..n] + [entries[n]];
    }
  }

  lemma {:induction false} CountDistinct(entries: seq<Entry>)
    requires forall i, j | 0 <= i < j < |entries| :: entries[i] != entries[j]
    ensures |set e | e in entries| == |entries|
  {
    if entries != [] {
      var n := |entries| - 1;
      var before := set e | e in entries[..n];
      CountDistinct(entries[..n]);
      assert entries == entries[..n] + [entries[n]];
      assert (set e | e in entries) == before + {entries[n]};
    }
  }

  /** What a scan that walks the tree says about the tree. */
  lemma WalkIsExact(h: Hash, f: Files, entries: seq<Entry>)
    requires IsWalk(f, entries) && Listed(f, entries)
    ensures forall x :: x in Failing(h, f, entries) <==> IsFailure(h, f, x)
    ensures forall e :: e in Leftovers(entries) <==> EntryPath(e) in f && IsLeftover(e.name)
    ensures |entries| == |Tree(f)|
    ensures Failing(h, f, entries) == [] && Leftovers(entries) == [] <==> TreeIsSound(h, f)
  {
    hide Canonical, IsLeftover, Trustworthy, WhyBad, Failing, Leftovers;
    forall e ensures e in entries <==> EntryPath(e) in f {
      InTree(f, e);
      assert e in entries <==> e in (set e | e in entries);
    }
    forall x ensures x in Failing(h, f, entries) <==> IsFailure(h, f, x) { FailingMembers(h, f, entries, x); }
    forall e ensures e in Leftovers(entries) <==> EntryPath(e) in f && IsLeftover(e.name) { LeftoverMembers(entries, e); }
    CountDistinct(entries);
    CleanIff(h, f, entries);
    SoundIff(h, f, entries);
  }

  lemma SoundIff(h: Hash, f: Files, entries: seq<Entry>)
    requires IsWalk(f, entries) && Listed(f, entries)
    ensures TreeIsSound(h, f) <==>
            forall i | 0 <= i < |entries| :: !IsLeftover(entries[i].name) && Trustworthy(h, f, entries[i])
  {
    hide Canonical, IsLeftover, Trustworthy, Tree;
    assert forall i | 0 <= i < |entries| :: entries[i] in (set e | e in entries);
    forall e | e in Tree(f) ensures exists i :: 0 <= i < |entries| && entries[i] == e {
      assert e in (set e | e in entries);
    }
  }

  // ----- The write API builds clean trees -----

  /** Every file of the object tree stands where its own name says. */
  predicate InPlace(f: Files) {
    forall p | p in f && |p| == 3 :: p == ObjectPath(p[2])
  }

  lemma StepIsInPlace(h: Hash, f: Files, op: Op)
    requires InPlace(f)
    ensures InPlace(DiskStep(h, f, op).0)
  {
    hide Canonical, ValidSession, Normalise;
  }

  lemma {:induction false} RunIsInPlace(h: Hash, ops: seq<Op>)
    ensures InPlace(RunDisk(h, ops).0)
  {
    if ops != [] {
      hide DiskStep, InPlace;
      var n := |ops| - 1;
      RunIsInPlace(h, ops[..n]);
      StepIsInPlace(h, RunDisk(h, ops[..n]).0, ops[n]);
    }
  }

  /** After any calls through the write API the object tree is sound, and a scan of any of its
      files is clean. */
  lemma WriteApiScansClean(h: Hash, ops: seq<Op>, entries: seq<Entry>)
    requires Listed(RunDisk(h, ops).0, entries)
    ensures Failing(h, RunDisk(h, ops).0, entries) == [] && Leftovers(entries) == []
    ensures TreeIsSound(h, RunDisk(h, ops).0)
  {
    var f := RunDisk(h, ops).0;
    forall e | EntryPath(e) in f ensures !IsLeftover(e.name) && Trustworthy(h, f, e) {
      WrittenFileIsSound(h, ops, e);
    }
    hide IsLeftover, Trustworthy, RunDisk;
    forall e | e in Tree(f) ensures EntryPath(e) in f && !IsLeftover(e.name) && Trustworthy(h, f, e) {
      InTree(f, e);
    }
    CleanIff(h, f, entries);
  }

  lemma WrittenFileIsSound(h: Hash, ops: seq<Op>, e: Entry)
    requires EntryPath(e) in RunDisk(h, ops).0
    ensures !IsLeftover(e.name) && Trustworthy(h, RunDisk(h, ops).0, e)
  {
    var f, m := RunDisk(h, ops).0, RunMemory(h, ops).0;
    DiskRefinesMemory(h, ops);
    RunIsInPlace(h, ops);
    assert EntryPath(e) == ObjectPath(e.name) && EntryPath(e)[1] == ObjectPath(e.name)[1];
    assert e.name in m.objects && IsHex(e.name[0]);
  }
}
