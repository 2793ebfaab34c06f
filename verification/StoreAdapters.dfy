/**
 The adapters as the code runs them: the disk adapter step by step through a temporary file
 that is renamed into place, the memory adapter on its two maps. Each method is proved
 against the one-call specification of `ObjectStore`.
 */
module StoreAdapters {
  import opened ContentAddress
  import opened ObjectStore

  class MemoryStore {
    const h: Hash
    var objects: map<string, Bytes>
    var pending: map<string, Pending>

    ghost function View(): Memory reads this { Memory(objects, pending) }

    constructor (h: Hash)
      ensures this.h == h && View() == EMPTY_MEMORY
    {
      this.h := h;
      objects, pending := map[], map[];
    }

    method PutReader(key: string, data: Bytes, size: int) returns (r: Reply)
      modifies this
      ensures (View(), r) == MemoryStep(h, old(View()), Put(key, data, size))
    {
      var ok := CanonicalContentAddress(key);
      if !ok { return Refused(InvalidAddress); }
      if size >= 0 && |data| != size { return Refused(LengthMismatch); }
      var got := h(data);
      if got != key { return Refused(AddressMismatch); }
      objects := objects[key := data];
      return Done;
    }

    method GetObject(key: string) returns (r: Reply)
      ensures (View(), r) == MemoryStep(h, View(), Get(key))
    {
      var ok := CanonicalContentAddress(key);
      if !ok { return Refused(InvalidAddress); }
      if key !in objects { return Refused(NotFound); }
      return Found(objects[key]);
    }

    method Write(session: string, data: Bytes) returns (r: Reply)
      modifies this
      ensures (View(), r) == MemoryStep(h, old(View()), StagingWrite(session, data))
    {
      if !ValidSession(session) { return Refused(InvalidSession); }
      var sum := h(data);
      pending := pending[session := Pending(data, sum)];
      return Staged(sum, |data|);
    }

    method Finalize(session: string, asserted: string) returns (r: Reply)
      modifies this
      ensures (View(), r) == MemoryStep(h, old(View()), StagingFinalize(session, asserted))
    {
      hide Normalise, Canonical, ValidSession;
      if !ValidSession(session) { return Refused(InvalidSession); }
      var digest := Normalise(asserted);
      var ok := CanonicalContentAddress(digest);
      if !ok { return Refused(InvalidAddress); }
      if session !in pending { return Refused(StagingNotFound); }
      var p := pending[session];
      if p.digest != digest {
        pending := pending - {session};
        return Refused(AddressMismatch);
      }
      objects := objects[digest := p.data];
      pending := pending - {session};
      return Done;
    }

    method Abort(session: string) returns (r: Reply)
      modifies this
      ensures (View(), r) == MemoryStep(h, old(View()), StagingAbort(session))
    {
      if !ValidSession(session) { return Refused(InvalidSession); }
      pending := pending - {session};
      return Done;
    }
  }

  class DiskStore {
    const h: Hash
    var files: Files

    constructor (h: Hash)
      ensures this.h == h && files == map[]
    {
      this.h := h;
      files := map[];
    }

    /** `os.Rename`: the file moves and replaces what was there. */
    method Rename(src: Path, dst: Path)
      requires src in files && src != dst
      modifies this
      ensures files == (old(files) - {src})[dst := old(files)[src]]
    {
      var data := files[src];
      files := files - {src};
      files := files[dst := data];
    }

    /** `tmp` is the fresh name `os.CreateTemp` picked next to the object. */
    method PutReader(key: string, data: Bytes, size: int, tmp: string) returns (r: Reply)
      requires ["objects", key[..if |key| > 2 then 2 else |key|], tmp] !in files && tmp != key
      modifies this
      ensures (files, r) == DiskStep(h, old(files), Put(key, data, size))
    {
      var ok := CanonicalContentAddress(key);
      if !ok { return Refused(InvalidAddress); }
      var p := ObjectPath(key);
      var tmpPath := ["objects", key[..2], tmp];
      assert tmpPath != p by { assert tmpPath[2] != p[2]; }
      ghost var before := files;
      files := files[tmpPath := data];
      if size >= 0 && |data| != size {
        files := files - {tmpPath};
        assert files == before;
        return Refused(LengthMismatch);
      }
      if h(data) != key {
        files := files - {tmpPath};
        assert files == before;
        return Refused(AddressMismatch);
      }
      Rename(tmpPath, p);
      assert files == before[p := data];
      return Done;
    }

    method GetObject(key: string) returns (r: Reply)
      ensures (files, r) == DiskStep(h, files, Get(key))
    {
      var ok := CanonicalContentAddress(key);
      if !ok { return Refused(InvalidAddress); }
      if ObjectPath(key) !in files { return Refused(NotFound); }
      return Found(files[ObjectPath(key)]);
    }

    /** The pending bytes are renamed into place first, then the digest file is written. */
    method Write(session: string, data: Bytes, tmp: string) returns (r: Reply)
      requires ["staging", tmp] !in files && tmp != session + ".pending"
      modifies this
      ensures (files, r) == DiskStep(h, old(files), StagingWrite(session, data))
    {
      if !ValidSession(session) { return Refused(InvalidSession); }
      var tmpPath := ["staging", tmp];
      assert tmpPath != PendingPath(session) by { assert tmpPath[1] != PendingPath(session)[1]; }
      ghost var before := files;
      files := files[tmpPath := data];
      var sum := h(data);
      Rename(tmpPath, PendingPath(session));
      assert files == before[PendingPath(session) := data];
      files := files[SidecarPath(session) := sum + "\n"];
      return Staged(sum, |data|);
    }

    method Finalize(session: string, asserted: string) returns (r: Reply)
      modifies this
      ensures (files, r) == DiskStep(h, old(files), StagingFinalize(session, asserted))
    {
      ghost var p := Normalise(asserted);
      PathsAreDistinct(p, session);
      PathsAreDistinct(session, session);
      hide Normalise, Canonical, ValidSession, ObjectPath, PendingPath, SidecarPath;
      if !ValidSession(session) { return Refused(InvalidSession); }
      var digest := Normalise(asserted);
      var ok := CanonicalContentAddress(digest);
      if !ok { return Refused(InvalidAddress); }
      if SidecarPath(session) !in files { return Refused(StagingNotFound); }
      var got := Normalise(files[SidecarPath(session)]);
      if got != digest {
        var _ := Abort(session);
        return Refused(AddressMismatch);
      }
      if PendingPath(session) !in files { return Refused(IoFailure); }
      ghost var before := files;
      Rename(PendingPath(session), ObjectPath(digest));
      files := files - {SidecarPath(session)};
      assert files == DropSession(before, session)[ObjectPath(digest) := before[PendingPath(session)]];
      return Done;
    }

    method Abort(session: string) returns (r: Reply)
      modifies this
      ensures (files, r) == DiskStep(h, old(files), StagingAbort(session))
    {
      if !ValidSession(session) { return Refused(InvalidSession); }
      ghost var before := files;
      files := files - {PendingPath(session)};
      files := files - {SidecarPath(session)};
      assert files == DropSession(before, session);
      return Done;
    }
  }
}
