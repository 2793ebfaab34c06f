/**
 The expansion of a batch manifest into queue jobs, flat and multilingual: what is accepted,
 which jobs come out, that their ids are all different, and that no localised audio is lost.
 Whether bytes are a render plan, and the hash, are parameters.
 */
module BatchExpand {
  import opened Options
  import opened GoStrings
  import opened BatchIdentity

  datatype FlatJob = FlatJob(id: string, plan: string, assets: seq<Asset>)
  datatype Manifest = Manifest(schema: string, batchId: string, jobs: seq<FlatJob>)
  datatype LanguageJob = LanguageJob(
    language: string, baseJobId: string, plan: string, assets: seq<Asset>, audio: Option<Asset>)
  datatype Multilingual = Multilingual(schema: string, batchId: string, base: FlatJob, langs: seq<LanguageJob>)

  datatype Job = Job(id: string, jobType: string, parentId: string, key: string, plan: string, assets: seq<Asset>)

  const FLAT_SCHEMA := "renderinggen.batch-manifest.v1"
  const MULTILINGUAL_SCHEMA := "renderinggen.batch-multilingual.v1"

  // ----- Assets -----

  predicate Named(a: Asset) { !Blank(a.hash) && !Blank(a.logicalPath) }

  predicate ValidAssets(assets: seq<Asset>) {
    (forall i | 0 <= i < |assets| :: Named(assets[i])) && DistinctPaths(assets)
  }

  predicate UsesPath(assets: seq<Asset>, path: string) {
    exists i | 0 <= i < |assets| :: assets[i].logicalPath == path
  }

  lemma ValidGrows(before: seq<Asset>, a: Asset)
    ensures ValidAssets(before + [a]) <==>
              ValidAssets(before) && Named(a) && !UsesPath(before, a.logicalPath)
    ensures forall p :: UsesPath(before + [a], p) <==> UsesPath(before, p) || p == a.logicalPath
  {
    hide Named;
    var after := before + [a];
    assert forall i | 0 <= i < |before| :: after[i] == before[i];
    assert after[|before|] == a;
  }

  /** One turn of the validation loop. */
  lemma ValidTurn(assets: seq<Asset>, i: nat)
    requires i < |assets|
    ensures ValidAssets(assets[..i + 1]) <==>
              ValidAssets(assets[..i]) && Named(assets[i]) && !UsesPath(assets[..i], assets[i].logicalPath)
    ensures forall p :: UsesPath(assets[..i + 1], p) <==> UsesPath(assets[..i], p) || p == assets[i].logicalPath
    ensures ValidAssets(assets) ==> ValidAssets(assets[..i + 1])
  {
    assert assets[..i + 1] == assets[..i] + [assets[i]];
    ValidGrows(assets[..i], assets[i]);
    hide Named;
    assert forall k | 0 <= k < i + 1 :: assets[..i + 1][k] == assets[k];
  }

  lemma ValidEnds(assets: seq<Asset>)
    ensures ValidAssets(assets[..0]) && forall p :: !UsesPath(assets[..0], p)
    ensures assets[..|assets|] == assets
  {
  }

  /** Why the assets are refused, and the first asset that is. */
  datatype AssetFault = Unnamed(at: nat) | RepeatedPath(at: nat)

  predicate IsFirstAssetFault(assets: seq<Asset>, f: AssetFault) {
    && f.at < |assets| && ValidAssets(assets[..f.at])
    && (f.Unnamed? <==> !Named(assets[f.at]))
    && (f.RepeatedPath? ==> UsesPath(assets[..f.at], assets[f.at].logicalPath))
  }

  /** `validateAssets`: no fault exactly when the assets are valid, and the first otherwise. */
  method ValidateAssets(assets: seq<Asset>) returns (r: Option<AssetFault>)
    ensures r.None? <==> ValidAssets(assets)
    ensures r.Some? ==> IsFirstAssetFault(assets, r.value)
  {
    hide ValidAssets, UsesPath, Blank;
    ValidEnds(assets);
    var seen: set<string> := {};
    for i := 0 to |assets|
      invariant ValidAssets(assets[..i])
      invariant forall p :: p in seen <==> UsesPath(assets[..i], p)
    {
      var a := assets[i];
      ValidTurn(assets, i);
      if Blank(a.hash) || Blank(a.logicalPath) { return Some(Unnamed(i)); }
      if a.logicalPath in seen { return Some(RepeatedPath(i)); }
      seen := seen + {a.logicalPath};
    }
    return None;
  }

  // ----- Jobs -----

  type Sha256 = string -> string

  /** The queue job of one manifest entry. */
  ghost predicate IsJob(h: Sha256, batch: string, logical: string, plan: string, assets: seq<Asset>,
                        jobType: string, parentId: string, j: Job)
  {
    && j.id == JobId(batch, logical) && j.jobType == jobType && j.parentId == parentId
    && j.plan == plan && j.assets == assets
    && exists c :: IsContent(batch, logical, plan, assets, c) && j.key == h(c)
  }

  method MakeJob(h: Sha256, batch: string, logical: string, plan: string, assets: seq<Asset>,
                 jobType: string, parentId: string) returns (j: Job)
    ensures IsJob(h, batch, logical, plan, assets, jobType, parentId, j)
  {
    hide IsContent;
    var c := KeyContent(batch, logical, plan, assets);
    j := Job(JobId(batch, logical), jobType, parentId, h(c), plan, assets);
  }

  /** A replay of the same entry, its assets listed in any order, gets the same key. */
  lemma ReplayKeepsKey(h: Sha256, batch: string, logical: string, plan: string, a: seq<Asset>, a': seq<Asset>,
                       t: string, p: string, j: Job, j': Job)
    requires ValidAssets(a) && multiset(a) == multiset(a')
    requires IsJob(h, batch, logical, plan, a, t, p, j) && IsJob(h, batch, logical, plan, a', t, p, j')
    ensures j.id == j'.id && j.key == j'.key
  {
    DistinctIsUnambiguous(a);
    hide IsContent, ValidAssets, Unambiguous;
    var c :| IsContent(batch, logical, plan, a, c) && j.key == h(c);
    var c' :| IsContent(batch, logical, plan, a', c') && j'.key == h(c');
    ContentIgnoresOrder(batch, logical, plan, a, a', c, c');
  }

  /** The hash takes the different bytes of two jobs to one key. */
  ghost predicate HashClash(h: Sha256, b: string, l: string, p: string, a: seq<Asset>,
                            b': string, l': string, p': string, a': seq<Asset>)
  {
    exists c, c' :: IsContent(b, l, p, a, c) && IsContent(b', l', p', a', c') && c != c' && h(c) == h(c')
  }

  /** Under the same ids, whatever they are, an edited plan gets a new key with any assets, unless
      the hash clashes on these very jobs. */
  lemma EditedPlanChangesKey(h: Sha256, isPlan: string -> bool, b: string, l: string,
                             p: string, a: seq<Asset>, t: string, o: string, j: Job,
                             p': string, a': seq<Asset>, t': string, o': string, j': Job)
    requires SelfDelimiting(isPlan) && isPlan(p) && isPlan(p') && p != p'
    requires IsJob(h, b, l, p, a, t, o, j) && IsJob(h, b, l, p', a', t', o', j')
    ensures j.key != j'.key || HashClash(h, b, l, p, a, b, l, p', a')
  {
    hide IsContent, SelfDelimiting;
    var c :| IsContent(b, l, p, a, c) && j.key == h(c);
    var c' :| IsContent(b, l, p', a', c') && j'.key == h(c');
    if c == c' { PlanIsIdentified(isPlan, b, l, p, a, p', a', c); }
  }

  /** A replay gets the same key; of two clean jobs, one that differs in any respect gets another,
      unless the hash clashes on these very jobs. */
  lemma EditChangesKey(h: Sha256, isPlan: string -> bool,
                       b: string, l: string, p: string, a: seq<Asset>, t: string, o: string, j: Job,
                       b': string, l': string, p': string, a': seq<Asset>, t': string, o': string, j': Job)
    requires SelfDelimiting(isPlan) && isPlan(p) && isPlan(p')
    requires CleanJob(b, l, a) && CleanJob(b', l', a') && ValidAssets(a) && ValidAssets(a')
    requires IsJob(h, b, l, p, a, t, o, j) && IsJob(h, b', l', p', a', t', o', j')
    ensures b == b' && l == l' && p == p' && multiset(a) == multiset(a') ==> j.key == j'.key
    ensures j.key == j'.key ==>
              || (b == b' && l == l' && p == p' && multiset(a) == multiset(a'))
              || HashClash(h, b, l, p, a, b', l', p', a')
  {
    DistinctIsUnambiguous(a);
    DistinctIsUnambiguous(a');
    hide IsContent, ValidAssets, Unambiguous, SelfDelimiting, CleanJob;
    var c :| IsContent(b, l, p, a, c) && j.key == h(c);
    var c' :| IsContent(b', l', p', a', c') && j'.key == h(c');
    ContentIdentifiesJob(isPlan, b, l, p, a, c, b', l', p', a', c');
  }

  predicate DistinctIds(jobs: seq<Job>) {
    forall i, j | 0 <= i < j < |jobs| :: jobs[i].id != jobs[j].id
  }

  // ----- Flat manifests -----

  predicate GoodEntry(isPlan: string -> bool, e: FlatJob) {
    !Blank(e.id) && isPlan(e.plan) && ValidAssets(e.assets)
  }

  predicate GoodEntries(isPlan: string -> bool, es: seq<FlatJob>) {
    && (forall i | 0 <= i < |es| :: GoodEntry(isPlan, es[i]))
    && (forall i, j | 0 <= i < j < |es| :: es[i].id != es[j].id)
  }

  predicate UsesId(es: seq<FlatJob>, id: string) { exists i | 0 <= i < |es| :: es[i].id == id }

  lemma EntriesGrow(isPlan: string -> bool, before: seq<FlatJob>, e: FlatJob)
    ensures GoodEntries(isPlan, before + [e]) <==>
              GoodEntries(isPlan, before) && GoodEntry(isPlan, e) && !UsesId(before, e.id)
    ensures forall id :: UsesId(before + [e], id) <==> UsesId(before, id) || id == e.id
  {
    hide GoodEntry;
    var after := before + [e];
    assert forall i | 0 <= i < |before| :: after[i] == before[i];
    assert after[|before|] == e;
  }

  /** One turn of the expansion loop. */
  lemma EntriesTurn(isPlan: string -> bool, es: seq<FlatJob>, i: nat)
    requires i < |es|
    ensures GoodEntries(isPlan, es[..i + 1]) <==>
              GoodEntries(isPlan, es[..i]) && GoodEntry(isPlan, es[i]) && !UsesId(es[..i], es[i].id)
    ensures forall id :: UsesId(es[..i + 1], id) <==> UsesId(es[..i], id) || id == es[i].id
    ensures GoodEntries(isPlan, es) ==> GoodEntries(isPlan, es[..i + 1])
  {
    assert es[..i + 1] == es[..i] + [es[i]];
    EntriesGrow(isPlan, es[..i], es[i]);
    hide GoodEntry;
    assert forall k | 0 <= k < i + 1 :: es[..i + 1][k] == es[k];
  }

  lemma EntriesEnds(isPlan: string -> bool, es: seq<FlatJob>)
    ensures GoodEntries(isPlan, es[..0]) && forall id :: !UsesId(es[..0], id)
    ensures es[..|es|] == es
  {
  }

  /** One job per entry, in order. */
  ghost predicate AreJobs(h: Sha256, batch: string, es: seq<FlatJob>, jobs: seq<Job>) {
    |jobs| == |es| && forall i | 0 <= i < |es| :: IsJob(h, batch, es[i].id, es[i].plan, es[i].assets, "", "", jobs[i])
  }

  lemma JobsGrow(h: Sha256, batch: string, es: seq<FlatJob>, i: nat, jobs: seq<Job>, j: Job)
    requires i < |es| && AreJobs(h, batch, es[..i], jobs)
    requires IsJob(h, batch, es[i].id, es[i].plan, es[i].assets, "", "", j)
    ensures AreJobs(h, batch, es[..i + 1], jobs + [j])
  {
    hide IsJob;
    assert forall k | 0 <= k < i :: es[..i + 1][k] == es[..i][k];
  }

  lemma EntriesHaveDistinctIds(h: Sha256, isPlan: string -> bool, batch: string, es: seq<FlatJob>, jobs: seq<Job>)
    requires GoodEntries(isPlan, es) && AreJobs(h, batch, es, jobs)
    ensures DistinctIds(jobs)
  {
    hide GoodEntry;
    forall i, j | 0 <= i < j < |jobs| ensures jobs[i].id != jobs[j].id {
      assert jobs[i].id == JobId(batch, es[i].id) && jobs[j].id == JobId(batch, es[j].id);
      JobIdsInOneBatch(batch, es[i].id, es[j].id);
    }
  }

  // ----- Refusals -----

  datatype EntryFault = EmptyId | RepeatedId | BadPlan | BadAssets(fault: AssetFault)

  datatype Fault = WrongSchema | NoBatchId | NoJobs | BadEntry(at: nat, what: EntryFault)

  /** Why the entry cannot follow `before`: the first of the checks that fails. */
  predicate IsEntryFault(isPlan: string -> bool, before: seq<FlatJob>, e: FlatJob, what: EntryFault) {
    && (what.EmptyId? <==> Blank(e.id))
    && (what.RepeatedId? ==> UsesId(before, e.id))
    && (what.BadPlan? || what.BadAssets? ==> !UsesId(before, e.id))
    && (what.BadPlan? ==> !isPlan(e.plan))
    && (what.BadAssets? ==> isPlan(e.plan) && IsFirstAssetFault(e.assets, what.fault))
  }

  predicate IsFirstBadEntry(isPlan: string -> bool, es: seq<FlatJob>, fault: Fault) {
    && fault.BadEntry? && fault.at < |es|
    && GoodEntries(isPlan, es[..fault.at]) && IsEntryFault(isPlan, es[..fault.at], es[fault.at], fault.what)
  }

  /** What is wrong with a manifest, when nothing checked earlier is. */
  predicate IsFirstFault(isPlan: string -> bool, m: Manifest, fault: Fault) {
    && (fault.WrongSchema? <==> m.schema != FLAT_SCHEMA)
    && (fault.NoBatchId? ==> Blank(m.batchId))
    && (fault.NoJobs? ==> !Blank(m.batchId) && m.jobs == [])
    && (fault.BadEntry? ==> !Blank(m.batchId) && IsFirstBadEntry(isPlan, m.jobs, fault))
  }

  /** No fault fits a manifest whose entries are good. */
  lemma GoodHasNoFault(isPlan: string -> bool, m: Manifest, fault: Fault)
    requires m.schema == FLAT_SCHEMA && !Blank(m.batchId) && m.jobs != [] && GoodEntries(isPlan, m.jobs)
    ensures !IsFirstFault(isPlan, m, fault)
  {
    hide FLAT_SCHEMA, Blank, UsesId, ValidAssets, IsFirstAssetFault;
    if fault.BadEntry? && fault.at < |m.jobs| {
      EntriesTurn(isPlan, m.jobs, fault.at);
      if fault.what.BadAssets? { FaultIsInvalid(m.jobs[fault.at].assets, fault.what.fault); }
    }
  }

  lemma FaultIsInvalid(assets: seq<Asset>, f: AssetFault)
    ensures IsFirstAssetFault(assets, f) ==> !ValidAssets(assets)
  {
    hide Blank;
    if f.at < |assets| { ValidTurn(assets, f.at); }
  }

  /** `Expand`: accepts exactly the good manifests and gives each entry a job with an id of its
      own; otherwise names the first fault. */
  method Expand(h: Sha256, isPlan: string -> bool, m: Manifest) returns (r: Result<seq<Job>, Fault>)
    ensures r.Success? <==>
              m.schema == FLAT_SCHEMA && !Blank(m.batchId) && m.jobs != [] && GoodEntries(isPlan, m.jobs)
    ensures r.Success? ==> AreJobs(h, m.batchId, m.jobs, r.value) && DistinctIds(r.value)
    ensures r.Failure? ==> IsFirstFault(isPlan, m, r.error)
  {
    hide Blank, FLAT_SCHEMA, GoodEntries, IsFirstBadEntry, AreJobs, DistinctIds;
    if m.schema != FLAT_SCHEMA { return Failure(WrongSchema); }
    if Blank(m.batchId) { return Failure(NoBatchId); }
    if |m.jobs| == 0 { return Failure(NoJobs); }
    r := ExpandEntries(h, isPlan, m.batchId, m.jobs);
    if r.Success? { EntriesHaveDistinctIds(h, isPlan, m.batchId, m.jobs, r.value); }
    else { BadEntryIsBad(isPlan, m.jobs, r.error); }
  }

  lemma BadEntryIsBad(isPlan: string -> bool, es: seq<FlatJob>, fault: Fault)
    requires IsFirstBadEntry(isPlan, es, fault)
    ensures fault.BadEntry?
  {
  }

  /** The loop over the entries. */
  method ExpandEntries(h: Sha256, isPlan: string -> bool, batch: string, es: seq<FlatJob>)
    returns (r: Result<seq<Job>, Fault>)
    ensures r.Success? <==> GoodEntries(isPlan, es)
    ensures r.Success? ==> AreJobs(h, batch, es, r.value)
    ensures r.Failure? ==> IsFirstBadEntry(isPlan, es, r.error)
  {
    hide GoodEntries, UsesId, Blank, IsJob, ValidAssets, AreJobs, IsFirstAssetFault;
    EntriesEnds(isPlan, es);
    var seen: set<string> := {};
    var jobs: seq<Job> := [];
    NoJobsYet(h, batch, es);
    for i := 0 to |es|
      invariant GoodEntries(isPlan, es[..i])
      invariant forall id :: id in seen <==> UsesId(es[..i], id)
      invariant AreJobs(h, batch, es[..i], jobs)
    {
      var e := es[i];
      EntriesTurn(isPlan, es, i);
      if Blank(e.id) { return Failure(BadEntry(i, EmptyId)); }
      if e.id in seen { return Failure(BadEntry(i, RepeatedId)); }
      if !isPlan(e.plan) { return Failure(BadEntry(i, BadPlan)); }
      var bad := ValidateAssets(e.assets);
      if bad.Some? { return Failure(BadEntry(i, BadAssets(bad.value))); }
      seen := seen + {e.id};
      var j := MakeJob(h, batch, e.id, e.plan, e.assets, "", "");
      JobsGrow(h, batch, es, i, jobs, j);
      jobs := jobs + [j];
    }
    return Success(jobs);
  }

  lemma NoJobsYet(h: Sha256, batch: string, es: seq<FlatJob>)
    ensures AreJobs(h, batch, es[..0], [])
  {
  }
}
