/**
 The artifact ledger's versioned schema migration: what an uninterrupted `migrate` does to any
 ledger file, and that crashes and restarts between its steps do not change the outcome.
 */
module LedgerMigration {
  import opened GoStrings

  /** The ledger file: the columns of `artifact_records`, if that table exists, and SQLite's
      `user_version`. */
  datatype Table = Absent | Columns(names: seq<string>)
  datatype Ledger = Ledger(table: Table, version: int)

  /** The columns added by the steps after the first. */
  const ADDED: seq<string> := [
    "chronon_telemetry", "chronon_timing_storage_key", "chronon_timing_url",
    "chronon_timing_sha256", "chronon_timing_size_bytes", "chronon_timing_content_type"]

  const CORE: seq<string> := [
    "job_id", "artifact_hash", "storage_key", "size_bytes", "content_type",
    "backend", "chronon_version", "profile_id", "container", "codec", "codec_profile", "pixel_format",
    "width", "height", "fps_num", "fps_den", "frame_count", "duration_us", "audio_streams",
    "first_frame_keyframe", "entity_count", "important_phrase_count", "important_word_count",
    "image_count", "light_leak_count", "preset_id", "overlay_compile_us", "asset_materialize_us",
    "chronon_render_us", "sha256_us", "objectstore_upload_us", "drive_upload_us", "total_us",
    "input_bytes", "output_bytes"]

  /** What the base step creates when there is no table: already every added column. */
  const SCHEMA: seq<string> := CORE + ADDED + ["created_at"]

  const LAST := 7

  lemma AddedLengths()
    ensures |ADDED| == LAST - 1
    ensures forall i, j | 0 <= i < j < |ADDED| :: |ADDED[i]| != |ADDED[j]|
  {
  }

  // ----- What SQLite does with one statement -----

  predicate Has(t: Table, column: string) { t.Columns? && column in t.names }

  /** SQLite compares column names without regard to ASCII case. */
  predicate SameName(a: string, b: string) {
    |a| == |b| && forall k | 0 <= k < |a| :: LowerChar(a[k]) == LowerChar(b[k])
  }

  predicate Clashes(names: seq<string>, column: string) {
    exists k | 0 <= k < |names| :: SameName(names[k], column)
  }

  datatype Fault = NoSuchTable | DuplicateColumn
  datatype Exec = Changed(table: Table) | Failed(fault: Fault)

  /** The statement of step `i`: CREATE TABLE IF NOT EXISTS, or ALTER TABLE ADD COLUMN. */
  function RunDdl(t: Table, i: int): Exec
    requires 0 <= i < LAST
  {
    if i == 0 then Changed(if t.Absent? then Columns(SCHEMA) else t)
    else if t.Absent? then Failed(NoSuchTable)
    else if Clashes(t.names, ADDED[i - 1]) then Failed(DuplicateColumn)
    else Changed(Columns(t.names + [ADDED[i - 1]]))
  }

  // ----- An uninterrupted run -----

  datatype Outcome =
    | Opened(ledger: Ledger)
    | Newer(ledger: Ledger)
    | Broken(ledger: Ledger, step: int, fault: Fault)
    | Crashed(ledger: Ledger)  // a negative version indexes the steps out of range

  /** The remaining steps, from step `i`. */
  function Resume(d: Ledger, i: nat): (o: Outcome)
    requires i <= LAST
    decreases LAST - i
  {
    if i == LAST then Opened(d)
    else if i > 0 && Has(d.table, ADDED[i - 1]) then Resume(Ledger(d.table, i + 1), i + 1)
    else
      match RunDdl(d.table, i)
      case Failed(fault) => Broken(d, i, fault)
      case Changed(t) => Resume(Ledger(t, i + 1), i + 1)
  }

  function Migrated(d: Ledger): Outcome {
    if d.version > LAST then Newer(d)
    else if d.version < 0 then Crashed(d)
    else Resume(d, d.version)
  }

  /** The open database, and `migrate` on it. */
  class Database {
    var ledger: Ledger

    constructor (d: Ledger)
      ensures ledger == d
    {
      ledger := d;
    }

    method HasColumn(column: string) returns (present: bool)
      ensures present == Has(ledger.table, column)
    {
      if ledger.table.Absent? { return false; }
      var names := ledger.table.names;
      for k := 0 to |names|
        invariant column !in names[..k]
      {
        if names[k] == column { return true; }
      }
      assert names == names[..|names|];
      return false;
    }

    /** A step and its stamp commit together, or neither does. */
    method Commit(i: nat) returns (r: Exec)
      requires i < LAST
      modifies this
      ensures r == RunDdl(old(ledger).table, i)
      ensures ledger == match r case Failed(_) => old(ledger) case Changed(t) => Ledger(t, i + 1)
    {
      hide Clashes, SameName;
      var staged := ledger;
      r := RunDdl(staged.table, i);
      if r.Failed? { return; }
      staged := staged.(table := r.table);
      staged := staged.(version := i + 1);
      ledger := staged;
    }

    method Migrate() returns (o: Outcome)
      modifies this
      ensures o == Migrated(old(ledger)) && ledger == o.ledger
    {
      hide RunDdl, Has;
      var version := ledger.version;
      if version > LAST { return Newer(ledger); }
      if version < 0 { return Crashed(ledger); }
      var i := version;
      while i < LAST
        invariant 0 <= i <= LAST
        invariant Resume(ledger, i) == Migrated(old(ledger))
      {
        if i > 0 {
          var present := HasColumn(ADDED[i - 1]);
          if present {
            ledger := ledger.(version := i + 1);
            i := i + 1;
            continue;
          }
        }
        var r := Commit(i);
        if r.Failed? { return Broken(ledger, i, r.fault); }
        i := i + 1;
      }
      return Opened(ledger);
    }
  }

  // ----- When an uninterrupted run succeeds, and what it leaves -----

  /** The added columns of steps `from` on that `names` lacks, in order. */
  function Missing(names: seq<string>, from: nat): seq<string>
    decreases |ADDED| - from
  {
    if from >= |ADDED| then []
    else if ADDED[from] in names then Missing(names, from + 1)
    else [ADDED[from]] + Missing(names, from + 1)
  }

  /** No column still to add is present under another spelling. */
  predicate Addable(names: seq<string>, from: nat) {
    forall k | from <= k < |ADDED| :: Fits(names, k)
  }

  predicate Fits(names: seq<string>, k: nat)
    requires k < |ADDED|
  {
    ADDED[k] in names || !Clashes(names, ADDED[k])
  }

  predicate Openable(d: Ledger) {
    && 0 <= d.version <= LAST
    && (d.table.Absent? ==> d.version == 0 || d.version == LAST)
    && (d.table.Columns? ==> Addable(d.table.names, if d.version == 0 then 0 else d.version - 1))
  }

  lemma AddingOneKeepsAnother(names: seq<string>, i: nat, k: nat)
    requires i < k < |ADDED|
    ensures ADDED[k] in names + [ADDED[i]] <==> ADDED[k] in names
    ensures Fits(names + [ADDED[i]], k) <==> Fits(names, k)
  {
    AddedLengths();
    var grown := names + [ADDED[i]];
    assert ADDED[i] != ADDED[k] && !SameName(ADDED[i], ADDED[k]);
    assert forall n | 0 <= n < |names| :: grown[n] == names[n];
    assert grown[|names|] == ADDED[i];
  }

  lemma AddingOneKeepsTheRest(names: seq<string>, i: nat)
    requires i < |ADDED|
    ensures Addable(names + [ADDED[i]], i + 1) <==> Addable(names, i + 1)
    ensures Missing(names + [ADDED[i]], i + 1) == Missing(names, i + 1)
  {
    hide Fits, ADDED;
    forall k | i < k < |ADDED|
      ensures ADDED[k] in names + [ADDED[i]] <==> ADDED[k] in names
      ensures Fits(names + [ADDED[i]], k) <==> Fits(names, k)
    {
      AddingOneKeepsAnother(names, i, k);
    }
    MissingDependsOnTheRest(names + [ADDED[i]], names, i + 1);
  }

  lemma {:induction false} MissingDependsOnTheRest(a: seq<string>, b: seq<string>, from: nat)
    requires forall k | from <= k < |ADDED| :: ADDED[k] in a <==> ADDED[k] in b
    ensures Missing(a, from) == Missing(b, from)
    decreases |ADDED| - from
  {
    if from < |ADDED| { MissingDependsOnTheRest(a, b, from + 1); }
  }

  lemma PresentClashes(names: seq<string>, column: string)
    requires column in names
    ensures Clashes(names, column)
  {
    var k :| 0 <= k < |names| && names[k] == column;
    assert SameName(names[k], column);
  }

  /** The columns once those of steps `from` on are there. */
  function Grown(names: seq<string>, from: nat): seq<string> { names + Missing(names, from) }

  /** One step of an existing table's migration. */
  lemma ResumeOnce(names: seq<string>, v: int, i: nat)
    requires 1 <= i < LAST
    ensures var c := ADDED[i - 1];
            Resume(Ledger(Columns(names), v), i) == (
              if c in names then Resume(Ledger(Columns(names), i + 1), i + 1)
              else if Clashes(names, c) then Broken(Ledger(Columns(names), v), i, DuplicateColumn)
              else Resume(Ledger(Columns(names + [c]), i + 1), i + 1))
  {
    hide Clashes, SameName;
  }

  lemma NeedsOnce(names: seq<string>, i: nat)
    requires i < |ADDED|
    ensures Addable(names, i) <==> Fits(names, i) && Addable(names, i + 1)
  {
    hide Fits, ADDED;
  }

  lemma GrowsOnce(names: seq<string>, i: nat)
    requires i < |ADDED|
    ensures ADDED[i] in names ==> Grown(names, i) == Grown(names, i + 1)
    ensures ADDED[i] !in names ==> Grown(names, i) == Grown(names + [ADDED[i]], i + 1)
  {
    hide ADDED, Addable;
    if ADDED[i] !in names {
      AddingOneKeepsTheRest(names, i);
      Regroup(names, ADDED[i], Missing(names, i + 1));
    }
  }

  lemma Regroup(a: seq<string>, c: string, b: seq<string>)
    ensures a + ([c] + b) == a + [c] + b
  {
  }

  lemma {:induction false} ResumeAdds(names: seq<string>, v: int, i: nat)
    requires 1 <= i <= LAST && (i == LAST ==> v == LAST)
    ensures var o := Resume(Ledger(Columns(names), v), i);
            && (o.Opened? <==> Addable(names, i - 1))
            && (o.Opened? ==> o.ledger == Ledger(Columns(Grown(names, i - 1)), LAST))
    decreases LAST - i
  {
    if i == LAST {
      assert names + Missing(names, i - 1) == names;
    } else {
      var c := ADDED[i - 1];
      AddedLengths();
      ResumeOnce(names, v, i);
      NeedsOnce(names, i - 1);
      GrowsOnce(names, i - 1);
      AddingOneKeepsTheRest(names, i - 1);
      hide Missing, Resume, Addable, Grown, Clashes, ADDED;
      if c in names {
        ResumeAdds(names, i + 1, i + 1);
      } else if !Clashes(names, c) {
        ResumeAdds(names + [c], i + 1, i + 1);
      }
    }
  }

  lemma SchemaIsComplete()
    ensures forall k | 0 <= k < |ADDED| :: ADDED[k] in SCHEMA
    ensures Missing(SCHEMA, 0) == []
  {
    forall k | 0 <= k < |ADDED| ensures ADDED[k] in SCHEMA { assert SCHEMA[|CORE| + k] == ADDED[k]; }
    NothingMissing(SCHEMA, 0);
  }

  lemma {:induction false} NothingMissing(names: seq<string>, from: nat)
    requires forall k | from <= k < |ADDED| :: ADDED[k] in names
    ensures Missing(names, from) == []
    decreases |ADDED| - from
  {
    if from < |ADDED| { NothingMissing(names, from + 1); }
  }

  /** For any ledger file: `migrate` opens it exactly when it is `Openable`, and then leaves the
      last version and the old columns followed by those that were missing. */
  lemma OpensIff(d: Ledger)
    ensures Migrated(d).Opened? <==> Openable(d)
    ensures Openable(d) ==> Migrated(d).ledger.version == LAST
    ensures Openable(d) && d.table.Columns? ==>
              Migrated(d).ledger.table ==
                Columns(Grown(d.table.names, if d.version == 0 then 0 else d.version - 1))
    ensures d.table.Absent? && d.version == 0 ==> Migrated(d).ledger.table == Columns(SCHEMA)
  {
    hide Clashes, SameName, Missing;
    if d.table.Columns? {
      var names := d.table.names;
      if d.version == 0 {
        assert RunDdl(d.table, 0) == Changed(d.table);
        ResumeAdds(names, 1, 1);
      } else if 0 < d.version <= LAST {
        ResumeAdds(names, d.version, d.version);
      }
    } else if d.version == 0 {
      SchemaIsComplete();
      ResumeAdds(SCHEMA, 1, 1);
      assert SCHEMA + Missing(SCHEMA, 0) == SCHEMA;
    } else if 0 < d.version < LAST {
      assert RunDdl(d.table, d.version) == Failed(NoSuchTable);
    }
  }

  // ----- Crashes and restarts -----

  /** The stamp is honest: version v means the table is there with the columns of steps
      before v. */
  predicate Honest(d: Ledger) {
    && 0 <= d.version <= LAST
    && (d.version > 0 ==> d.table.Columns?)
    && forall k | 0 <= k < d.version - 1 :: Has(d.table, ADDED[k])
  }

  /** The worker: not running, at the top of the loop, inside a step's transaction with its own
      view of the file, or done. */
  datatype Worker =
    | Down
    | AtStep(i: nat)
    | InStep(i: nat)                               // begun, nothing executed
    | Altered(i: nat, staged: Table)               // statement executed, not stamped
    | Stamped(i: nat, tx: Ledger)                  // stamped, not committed
    | Open
    | GaveUp

  /** `added` logs the columns that committed ALTER statements added. */
  datatype State = State(ledger: Ledger, worker: Worker, added: seq<string>)

  datatype Event = Start | Advance | Crash

  function Begin(s: State): State {
    s.(worker :=
      if s.ledger.version > LAST then GaveUp
      else if s.ledger.version < 0 then Down
      else AtStep(s.ledger.version))
  }

  function AdvanceWorker(s: State): State {
    match s.worker
    case AtStep(i) =>
      if i >= LAST then s.(worker := Open)
      else if i > 0 && Has(s.ledger.table, ADDED[i - 1]) then
        s.(ledger := s.ledger.(version := i + 1), worker := AtStep(i + 1))
      else s.(worker := InStep(i))
    case InStep(i) =>
      if i >= LAST then s
      else (
        match RunDdl(s.ledger.table, i)
        case Failed(_) => s.(worker := GaveUp)
        case Changed(t) => s.(worker := Altered(i, t)))
    case Altered(i, t) => s.(worker := Stamped(i, Ledger(t, i + 1)))
    case Stamped(i, tx) =>
      State(tx, AtStep(i + 1), if 0 < i < LAST then s.added + [ADDED[i - 1]] else s.added)
    case _ => s
  }

  /** A crash loses the worker and whatever its transaction had not committed. */
  function Next(s: State, e: Event): State {
    match e
    case Start => if s.worker.Down? || s.worker.GaveUp? then Begin(s) else s
    case Advance => AdvanceWorker(s)
    case Crash => s.(worker := Down)
  }

  function Run(d: Ledger, events: seq<Event>): State {
    if events == [] then State(d, Down, [])
    else Next(Run(d, events[..|events| - 1]), events[|events| - 1])
  }

  /** What the worker's position says about the file. */
  predicate Placed(s: State) {
    match s.worker
    case Down => true
    case AtStep(i) => i <= LAST && s.ledger.version == i
    case InStep(i) => i < LAST && s.ledger.version == i && (i > 0 ==> !Has(s.ledger.table, ADDED[i - 1]))
    case Altered(i, t) =>
      && i < LAST && s.ledger.version == i && (i > 0 ==> !Has(s.ledger.table, ADDED[i - 1]))
      && RunDdl(s.ledger.table, i) == Changed(t)
    case Stamped(i, tx) =>
      && i < LAST && s.ledger.version == i && (i > 0 ==> !Has(s.ledger.table, ADDED[i - 1]))
      && RunDdl(s.ledger.table, i) == Changed(tx.table) && tx.version == i + 1
    case Open => Migrated(s.ledger) == Opened(s.ledger)
    case GaveUp => !Migrated(s.ledger).Opened? && Migrated(s.ledger).ledger == s.ledger
  }

  lemma StepKeepsOutcome(s: State, e: Event)
    requires Placed(s)
    ensures Placed(Next(s, e)) && Migrated(Next(s, e).ledger) == Migrated(s.ledger)
    ensures s.ledger.version <= Next(s, e).ledger.version
  {
    hide RunDdl, Has;
  }

  /** Whatever the ledger file is at first, and wherever the worker crashes and restarts: the
      migration is always on its way to the outcome an uninterrupted run would have had, and a
      worker that opens the ledger has reached it. */
  lemma {:induction false} CrashesChangeNothing(d: Ledger, events: seq<Event>)
    ensures Placed(Run(d, events)) && Migrated(Run(d, events).ledger) == Migrated(d)
    ensures Run(d, events).worker.Open? ==> Migrated(d) == Opened(Run(d, events).ledger)
    ensures Run(d, events).worker.GaveUp? ==> !Migrated(d).Opened?
  {
    if events != [] {
      hide Next, Placed, Migrated;
      var n := |events| - 1;
      CrashesChangeNothing(d, events[..n]);
      StepKeepsOutcome(Run(d, events[..n]), events[n]);
    }
    assert Placed(Run(d, events));
  }

  /** The version never decreases. */
  lemma {:induction false} VersionNeverDecreases(d: Ledger, events: seq<Event>, n: nat)
    requires n <= |events|
    ensures Run(d, events[..n]).ledger.version <= Run(d, events).ledger.version
    decreases |events|
  {
    if n == |events| {
      assert events[..n] == events;
    } else {
      hide Next, Placed, Migrated;
      var k := |events| - 1;
      assert events[..k][..n] == events[..n];
      VersionNeverDecreases(d, events[..k], n);
      CrashesChangeNothing(d, events[..k]);
      StepKeepsOutcome(Run(d, events[..k]), events[k]);
    }
  }

  // ----- No column is added twice -----

  predicate Distinct(names: seq<string>) {
    forall i, j | 0 <= i < j < |names| :: names[i] != names[j]
  }

  /** The columns now are those there were first, then the ones logged, which were missing and
      are all different. */
  predicate Accounted(d: Ledger, s: State) {
    && Distinct(s.added)
    && match (d.table, s.ledger.table)
       case (Absent, Absent) => s.added == []
       case (Absent, Columns(now)) => d.version == 0 && s.added == [] && now == SCHEMA
       case (Columns(first), Absent) => false
       case (Columns(first), Columns(now)) =>
         now == first + s.added && forall k | 0 <= k < |s.added| :: s.added[k] !in first
  }

  lemma StepIsAccounted(d: Ledger, s: State, e: Event)
    requires Accounted(d, s) && Placed(s) && (s.ledger.table.Absent? ==> s.ledger.version == d.version)
    ensures Accounted(d, Next(s, e))
    ensures Next(s, e).ledger.table.Absent? ==> Next(s, e).ledger.version == d.version
  {
    hide Migrated, Clashes;
    if e.Advance? && s.worker.Stamped? && s.worker.i > 0 && d.table.Columns? {
      var c := ADDED[s.worker.i - 1];
      assert c !in d.table.names + s.added;
      PresentClashesAll(s.ledger.table.names);
    } else if e.Advance? && s.worker.Stamped? && s.worker.i > 0 {
      SchemaIsComplete();
    }
  }

  lemma PresentClashesAll(names: seq<string>)
    ensures forall c | c in names :: Clashes(names, c)
  {
    forall c | c in names ensures Clashes(names, c) { PresentClashes(names, c); }
  }

  /** Over every run, crashes included: no committed ALTER ever adds a column that was there, in
      the file as found or from an earlier ALTER. */
  lemma {:induction false} NoColumnAddedTwice(d: Ledger, events: seq<Event>)
    ensures Accounted(d, Run(d, events))
    ensures Run(d, events).ledger.table.Absent? ==> Run(d, events).ledger.version == d.version
  {
    if events != [] {
      hide Next, Placed, Accounted;
      var n := |events| - 1;
      NoColumnAddedTwice(d, events[..n]);
      CrashesChangeNothing(d, events[..n]);
      StepIsAccounted(d, Run(d, events[..n]), events[n]);
    }
  }

  // ----- The version is honest -----

  lemma StepStaysHonest(s: State, e: Event)
    requires Placed(s) && Honest(s.ledger)
    ensures Honest(Next(s, e).ledger)
  {
    hide Migrated, Clashes;
  }

  /** From a file with an honest version, such as any unversioned one, every version reached,
      crashes included, means that its columns exist. */
  lemma {:induction false} VersionStaysHonest(d: Ledger, events: seq<Event>)
    requires Honest(d)
    ensures Honest(Run(d, events).ledger)
  {
    if events != [] {
      hide Next, Placed, Honest;
      var n := |events| - 1;
      VersionStaysHonest(d, events[..n]);
      CrashesChangeNothing(d, events[..n]);
      StepStaysHonest(Run(d, events[..n]), events[n]);
    }
  }

  predicate Complete(d: Ledger) {
    d.version == LAST && d.table.Columns? && forall k | 0 <= k < |ADDED| :: ADDED[k] in d.table.names
  }

  /** A worker that opens the ledger, after whatever crashes, finds the last version; and all
      columns exactly when the version it first found was honest. */
  lemma OpenIsComplete(d: Ledger, events: seq<Event>)
    requires Run(d, events).worker.Open?
    ensures Run(d, events).ledger.version == LAST
    ensures Complete(Run(d, events).ledger) <==> Honest(d)
  {
    hide Clashes, SameName, Next;
    AddedLengths();
    CrashesChangeNothing(d, events);
    OpensIff(d);
    if Honest(d) {
      VersionStaysHonest(d, events);
    } else if d.table.Columns? {
      var k :| 0 <= k < d.version - 1 && !Has(d.table, ADDED[k]);
      MissingIsLater(d.table.names, d.version - 1, k);
    }
  }

  lemma {:induction false} MissingIsLater(names: seq<string>, from: nat, k: nat)
    requires k < from <= |ADDED|
    ensures ADDED[k] !in Missing(names, from)
    decreases |ADDED| - from
  {
    AddedLengths();
    if from < |ADDED| { MissingIsLater(names, from + 1, k); }
  }

  /** An unversioned file is opened, from wherever crashes left it, unless a column is there
      under another spelling. */
  lemma UnversionedOpens(names: seq<string>)
    requires forall n | 0 <= n < |names| :: forall k | 0 <= k < |ADDED| ::
               SameName(names[n], ADDED[k]) ==> names[n] == ADDED[k]
    ensures Migrated(Ledger(Columns(names), 0)).Opened?
  {
    OpensIff(Ledger(Columns(names), 0));
  }

  /** A column still to add that is there in another letter case makes the migration fail, as
      SQLite takes the two for one. */
  lemma AnotherSpellingIsRefused(names: seq<string>, version: int, n: nat, k: nat)
    requires 0 <= version <= k + 1 && k < |ADDED| && n < |names|
    requires ADDED[k] !in names && |names[n]| == |ADDED[k]|
    requires forall i | 0 <= i < |names[n]| ::
               names[n][i] == ADDED[k][i] || (names[n][i] as int + 32 == ADDED[k][i] as int && 'A' <= names[n][i] <= 'Z')
    requires forall i | 0 <= i < |ADDED[k]| :: !('A' <= ADDED[k][i] <= 'Z')
    ensures !Migrated(Ledger(Columns(names), version)).Opened?
  {
    hide ADDED;
    OpensIff(Ledger(Columns(names), version));
    assert SameName(names[n], ADDED[k]);
    assert !Fits(names, k);
    AddedCount();
  }

  lemma AddedCount()
    ensures |ADDED| == LAST - 1
  {
  }

  /** A ledger from a newer worker is refused and left as it is. */
  lemma NewerIsUntouched(d: Ledger)
    ensures d.version > LAST <==> Migrated(d) == Newer(d)
  {
    if 0 <= d.version <= LAST { ResumeIsNotNewer(d, d.version); }
  }

  lemma {:induction false} ResumeIsNotNewer(d: Ledger, i: nat)
    requires i <= LAST
    ensures !Resume(d, i).Newer?
    decreases LAST - i
  {
    hide RunDdl, Has;
    if i < LAST {
      ResumeIsNotNewer(Ledger(d.table, i + 1), i + 1);
      match RunDdl(d.table, i)
      case Failed(_) =>
      case Changed(t) => ResumeIsNotNewer(Ledger(t, i + 1), i + 1);
    }
  }

  // ----- A worker left alone finishes -----

  const ENOUGH := 4 * LAST + 1

  /** Steps the worker has left at most. */
  function Left(w: Worker): int {
    match w
    case AtStep(i) => 4 * (LAST - i) + 1
    case InStep(i) => 4 * (LAST - i)
    case Altered(i, _) => 4 * (LAST - i) - 1
    case Stamped(i, _) => 4 * (LAST - i) - 2
    case _ => 0
  }

  lemma AdvanceGetsOn(s: State)
    requires Placed(s)
    ensures 0 <= Left(s.worker) <= ENOUGH
    ensures Left(s.worker) > 0 ==> Left(Next(s, Advance).worker) < Left(s.worker) && !Next(s, Advance).worker.Down?
    ensures Left(s.worker) == 0 ==> Next(s, Advance).worker == s.worker
  {
    hide RunDdl, Has, Migrated;
  }

  function Alone(n: nat): seq<Event> { seq(n, _ => Advance) }

  lemma RunAlone(d: Ledger, events: seq<Event>, n: nat)
    ensures events + Alone(0) == events
    ensures n > 0 ==> Run(d, events + Alone(n)) == Next(Run(d, events + Alone(n - 1)), Advance)
  {
    hide Next;
    if n > 0 { assert (events + Alone(n))[..|events| + n - 1] == events + Alone(n - 1); }
  }

  lemma {:induction false} AloneFinishes(d: Ledger, events: seq<Event>, n: nat)
    ensures var w, w' := Run(d, events).worker, Run(d, events + Alone(n)).worker;
            && 0 <= Left(w') && (Left(w') == 0 || Left(w') <= Left(w) - n)
            && (w'.Down? <==> w.Down?)
  {
    hide Next, Placed, Left, Run, Alone, Migrated;
    RunAlone(d, events, n);
    CrashesChangeNothing(d, events + Alone(n));
    AdvanceGetsOn(Run(d, events + Alone(n)));
    if n > 0 {
      AloneFinishes(d, events, n - 1);
      var s := Run(d, events + Alone(n - 1));
      CrashesChangeNothing(d, events + Alone(n - 1));
      AdvanceGetsOn(s);
      DownIsNoneLeft(s.worker);
      DownIsNoneLeft(Run(d, events).worker);
    }
  }

  lemma DownIsNoneLeft(w: Worker)
    ensures w.Down? ==> Left(w) == 0
  {
  }

  /** Whatever happened before, a worker that is started afresh and not disturbed opens the
      ledger exactly when the file first found was openable, and gives up or stops otherwise. */
  lemma RestartFinishes(d: Ledger, events: seq<Event>)
    ensures Run(d, events + [Crash, Start] + Alone(ENOUGH)).worker.Open? <==> Openable(d)
  {
    var started := events + [Crash, Start];
    assert started[..|events| + 1] == events + [Crash] && (events + [Crash])[..|events|] == events;
    var s := Run(d, started);
    AloneFinishes(d, started, ENOUGH);
    CrashesChangeNothing(d, started);
    CrashesChangeNothing(d, started + Alone(ENOUGH));
    AdvanceGetsOn(s);
    OpensIff(d);
    hide Openable, Placed;
    StartedAt(Run(d, events));
  }

  /** A fresh start stops at once only on a negative version. */
  lemma StartedAt(s: State)
    ensures var s' := Next(Next(s, Crash), Start);
            s'.ledger == s.ledger && (s'.worker.Down? <==> Migrated(s.ledger).Crashed?)
  {
    hide Resume;
    if 0 <= s.ledger.version <= LAST { ResumeNeverCrashes(s.ledger, s.ledger.version); }
  }

  lemma {:induction false} ResumeNeverCrashes(d: Ledger, i: nat)
    requires i <= LAST
    ensures !Resume(d, i).Crashed?
    decreases LAST - i
  {
    hide RunDdl, Has;
    if i < LAST {
      ResumeNeverCrashes(Ledger(d.table, i + 1), i + 1);
      match RunDdl(d.table, i)
      case Failed(_) =>
      case Changed(t) => ResumeNeverCrashes(Ledger(t, i + 1), i + 1);
    }
  }
}
