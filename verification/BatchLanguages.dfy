/**
 The multilingual expansion: one base job, then one overlay job per language, each with the
 localised audio among its assets.
 */
module BatchLanguages {
  import opened Options
  import opened GoStrings
  import opened BatchIdentity
  import opened BatchExpand

  // ----- The assets of a language -----

  /** The voiceover takes the place of the asset at its own path, or comes last. */
  function WithVoice(assets: seq<Asset>, voice: Asset): seq<Asset> {
    if assets == [] then [voice]
    else if assets[0].logicalPath == voice.logicalPath then [voice] + assets[1..]
    else [assets[0]] + WithVoice(assets[1..], voice)
  }

  function Localised(l: LanguageJob): seq<Asset> {
    if l.audio.None? then l.assets else WithVoice(l.assets, l.audio.value)
  }

  /** No declared asset is at the voiceover's path with other content. */
  predicate VoiceFits(assets: seq<Asset>, voice: Asset) {
    Named(voice) && forall i | 0 <= i < |assets| && assets[i].logicalPath == voice.logicalPath :: assets[i].hash == voice.hash
  }

  predicate GoodLanguageAssets(l: LanguageJob) {
    ValidAssets(l.assets) && (l.audio.Some? ==> VoiceFits(l.assets, l.audio.value))
  }

  predicate FirstAt(assets: seq<Asset>, path: string, i: nat) {
    && i <= |assets| && (i < |assets| ==> assets[i].logicalPath == path)
    && forall k | 0 <= k < i :: assets[k].logicalPath != path
  }

  lemma {:induction false} WithVoiceAt(assets: seq<Asset>, voice: Asset, i: nat)
    requires FirstAt(assets, voice.logicalPath, i)
    ensures WithVoice(assets, voice) == if i < |assets| then assets[i := voice] else assets + [voice]
  {
    if i > 0 {
      var first, rest := assets[0], assets[1..];
      WithVoiceAt(rest, voice, i - 1);
      hide WithVoice;
      assert WithVoice(assets, voice) == [first] + WithVoice(rest, voice) by { WithVoiceRest(assets, voice); }
      if i < |assets| {
        assert assets[i := voice] == [first] + rest[i - 1 := voice];
      } else {
        assert assets + [voice] == [first] + (rest + [voice]);
      }
    } else if assets != [] {
      assert assets[0 := voice] == [voice] + assets[1..];
    }
  }

  lemma WithVoiceRest(assets: seq<Asset>, voice: Asset)
    requires assets != [] && assets[0].logicalPath != voice.logicalPath
    ensures WithVoice(assets, voice) == [assets[0]] + WithVoice(assets[1..], voice)
  {
  }

  lemma ReplacingKeepsValid(assets: seq<Asset>, voice: Asset, i: nat)
    requires i < |assets| && assets[i].logicalPath == voice.logicalPath && assets[i].hash == voice.hash
    ensures ValidAssets(assets[i := voice]) <==> ValidAssets(assets)
    ensures ValidAssets(assets) && Named(voice) ==> VoiceFits(assets, voice)
  {
    hide Blank;
    var after := assets[i := voice];
    assert forall k | 0 <= k < |assets| :: after[k].logicalPath == assets[k].logicalPath;
    assert forall k | 0 <= k < |assets| :: Named(after[k]) <==> Named(assets[k]);
  }

  lemma AppendingKeepsValid(assets: seq<Asset>, voice: Asset)
    requires FirstAt(assets, voice.logicalPath, |assets|) && Named(voice)
    ensures ValidAssets(assets + [voice]) <==> ValidAssets(assets)
    ensures VoiceFits(assets, voice)
  {
    hide Named;
    ValidGrows(assets, voice);
  }

  /** Why a language's assets are refused: its voiceover has no name, or the first asset at the
      voiceover's path has other content, or the resulting list is not valid. */
  datatype LanguageAssetFault = VoiceUnnamed | VoiceContradicts | NotValid(fault: AssetFault)

  predicate VoiceMeets(assets: seq<Asset>, voice: Asset) {
    var i := FindPath(assets, voice.logicalPath);
    i < |assets| ==> assets[i].hash == voice.hash
  }

  predicate IsLanguageAssetFault(l: LanguageJob, what: LanguageAssetFault) {
    && (what.VoiceUnnamed? <==> l.audio.Some? && !Named(l.audio.value))
    && (what.VoiceContradicts? ==> l.audio.Some? && !VoiceMeets(l.assets, l.audio.value))
    && (what.NotValid? ==>
          && (l.audio.Some? ==> VoiceMeets(l.assets, l.audio.value))
          && IsFirstAssetFault(Localised(l), what.fault))
  }

  lemma FirstIsFound(assets: seq<Asset>, path: string, i: nat)
    requires FirstAt(assets, path, i)
    ensures FindPath(assets, path) == i
  {
  }

  lemma ContradictionDoesNotFit(assets: seq<Asset>, voice: Asset)
    requires !VoiceMeets(assets, voice)
    ensures !VoiceFits(assets, voice)
  {
    hide Named;
  }

  /** `languageAssets`: fails exactly on bad assets or a voiceover that contradicts them, and
      says which. */
  method LanguageAssets(l: LanguageJob) returns (r: Result<seq<Asset>, LanguageAssetFault>)
    ensures r.Success? <==> GoodLanguageAssets(l)
    ensures r.Success? ==> r.value == Localised(l)
    ensures r.Failure? ==> IsLanguageAssetFault(l, r.error)
  {
    hide Blank, ValidAssets, WithVoice, VoiceFits, IsFirstAssetFault, FindPath;
    var assets := l.assets;
    if l.audio.Some? {
      var voice := l.audio.value;
      if Blank(voice.hash) || Blank(voice.logicalPath) {
        UnnamedDoesNotFit(assets, voice);
        return Failure(VoiceUnnamed);
      }
      var i := 0;
      while i < |assets| && assets[i].logicalPath != voice.logicalPath
        invariant 0 <= i <= |assets|
        invariant forall k | 0 <= k < i :: assets[k].logicalPath != voice.logicalPath
      {
        i := i + 1;
      }
      WithVoiceAt(assets, voice, i);
      FirstIsFound(assets, voice.logicalPath, i);
      if i < |assets| {
        if assets[i].hash != voice.hash {
          ContradictionDoesNotFit(assets, voice);
          return Failure(VoiceContradicts);
        }
        ReplacingKeepsValid(assets, voice, i);
        assets := assets[i := voice];
      } else {
        AppendingKeepsValid(assets, voice);
        assets := assets + [voice];
      }
    }
    var bad := ValidateAssets(assets);
    if bad.Some? { return Failure(NotValid(bad.value)); }
    return Success(assets);
  }

  lemma UnnamedDoesNotFit(assets: seq<Asset>, voice: Asset)
    requires !Named(voice)
    ensures !VoiceFits(assets, voice)
  {
    hide Named;
  }

  function ExceptAt(assets: seq<Asset>, path: string): seq<Asset> {
    if assets == [] then []
    else (if assets[0].logicalPath == path then [] else [assets[0]]) + ExceptAt(assets[1..], path)
  }

  lemma {:induction false} VoiceTakesItsPath(assets: seq<Asset>, voice: Asset)
    requires DistinctPaths(assets)
    ensures ExceptAt(WithVoice(assets, voice), voice.logicalPath) == ExceptAt(assets, voice.logicalPath)
    ensures voice in WithVoice(assets, voice)
  {
    if assets != [] && assets[0].logicalPath != voice.logicalPath {
      VoiceTakesItsPath(assets[1..], voice);
      assert WithVoice(assets, voice)[1..] == WithVoice(assets[1..], voice);
    } else if assets != [] {
      assert WithVoice(assets, voice)[1..] == assets[1..];
    }
  }

  /** An accepted language job keeps every declared asset, in order, except that its voiceover
      stands at the voiceover's path; and its assets are valid. */
  lemma NoAudioIsLost(l: LanguageJob)
    requires GoodLanguageAssets(l)
    ensures ValidAssets(Localised(l))
    ensures l.audio.None? ==> Localised(l) == l.assets
    ensures l.audio.Some? ==>
              var voice := l.audio.value;
              && voice in Localised(l)
              && ExceptAt(Localised(l), voice.logicalPath) == ExceptAt(l.assets, voice.logicalPath)
  {
    hide Blank;
    if l.audio.Some? {
      var voice := l.audio.value;
      VoiceTakesItsPath(l.assets, voice);
      var i := FindPath(l.assets, voice.logicalPath);
      WithVoiceAt(l.assets, voice, i);
      hide WithVoice, ValidAssets, ExceptAt;
      if i < |l.assets| {
        ReplacingKeepsValid(l.assets, voice, i);
      } else {
        AppendingKeepsValid(l.assets, voice);
      }
    }
  }

  function FindPath(assets: seq<Asset>, path: string): (i: nat)
    ensures FirstAt(assets, path, i)
  {
    if assets == [] || assets[0].logicalPath == path then 0 else 1 + FindPath(assets[1..], path)
  }

  // ----- The jobs of a manifest -----

  function Tag(l: LanguageJob): string { TrimSpace(l.language) }

  function OverlayId(baseId: string, l: LanguageJob): string { baseId + ".overlay." + Tag(l) }

  predicate GoodLanguage(isPlan: string -> bool, baseId: string, l: LanguageJob) {
    && Tag(l) != ""
    && (Blank(l.baseJobId) || l.baseJobId == baseId)
    && isPlan(l.plan)
    && GoodLanguageAssets(l)
  }

  predicate GoodLanguages(isPlan: string -> bool, baseId: string, ls: seq<LanguageJob>) {
    && (forall i | 0 <= i < |ls| :: GoodLanguage(isPlan, baseId, ls[i]))
    && (forall i, j | 0 <= i < j < |ls| :: Tag(ls[i]) != Tag(ls[j]))
  }

  predicate UsesTag(ls: seq<LanguageJob>, tag: string) { exists i | 0 <= i < |ls| :: Tag(ls[i]) == tag }

  lemma LanguagesGrow(isPlan: string -> bool, baseId: string, before: seq<LanguageJob>, l: LanguageJob)
    ensures GoodLanguages(isPlan, baseId, before + [l]) <==>
              GoodLanguages(isPlan, baseId, before) && GoodLanguage(isPlan, baseId, l) && !UsesTag(before, Tag(l))
    ensures forall t :: UsesTag(before + [l], t) <==> UsesTag(before, t) || t == Tag(l)
  {
    hide GoodLanguage, Tag;
    var after := before + [l];
    assert forall i | 0 <= i < |before| :: after[i] == before[i];
    assert after[|before|] == l;
  }

  /** One turn of the expansion loop. */
  lemma LanguagesTurn(isPlan: string -> bool, baseId: string, ls: seq<LanguageJob>, i: nat)
    requires i < |ls|
    ensures GoodLanguages(isPlan, baseId, ls[..i + 1]) <==>
              GoodLanguages(isPlan, baseId, ls[..i]) && GoodLanguage(isPlan, baseId, ls[i]) && !UsesTag(ls[..i], Tag(ls[i]))
    ensures forall t :: UsesTag(ls[..i + 1], t) <==> UsesTag(ls[..i], t) || t == Tag(ls[i])
    ensures GoodLanguages(isPlan, baseId, ls) ==> GoodLanguages(isPlan, baseId, ls[..i + 1])
  {
    assert ls[..i + 1] == ls[..i] + [ls[i]];
    LanguagesGrow(isPlan, baseId, ls[..i], ls[i]);
    hide GoodLanguage, Tag;
    assert forall k | 0 <= k < i + 1 :: ls[..i + 1][k] == ls[k];
  }

  lemma LanguagesEnds(isPlan: string -> bool, baseId: string, ls: seq<LanguageJob>)
    ensures GoodLanguages(isPlan, baseId, ls[..0]) && forall t :: !UsesTag(ls[..0], t)
    ensures ls[..|ls|] == ls
  {
  }

  ghost predicate IsOverlay(h: Sha256, batch: string, baseId: string, l: LanguageJob, j: Job) {
    IsJob(h, batch, OverlayId(baseId, l), l.plan, Localised(l), "overlay.render", JobId(batch, baseId), j)
  }

  /** The base job, then one overlay job per language, in order, each naming the base as its
      parent. */
  ghost predicate AreLanguageJobs(h: Sha256, batch: string, base: FlatJob, ls: seq<LanguageJob>, jobs: seq<Job>) {
    && |jobs| == |ls| + 1
    && IsJob(h, batch, base.id, base.plan, base.assets, "", "", jobs[0])
    && forall i | 0 <= i < |ls| :: IsOverlay(h, batch, base.id, ls[i], jobs[i + 1])
  }

  lemma LanguageJobsGrow(h: Sha256, batch: string, base: FlatJob, ls: seq<LanguageJob>, i: nat, jobs: seq<Job>, j: Job)
    requires i < |ls| && AreLanguageJobs(h, batch, base, ls[..i], jobs) && IsOverlay(h, batch, base.id, ls[i], j)
    ensures AreLanguageJobs(h, batch, base, ls[..i + 1], jobs + [j])
  {
    hide IsJob, IsOverlay;
    assert forall k | 0 <= k < i :: ls[..i + 1][k] == ls[..i][k];
  }

  lemma OverlayIdsDiffer(batch: string, baseId: string, l: LanguageJob, l': LanguageJob)
    ensures JobId(batch, OverlayId(baseId, l)) != JobId(batch, baseId)
    ensures JobId(batch, OverlayId(baseId, l)) == JobId(batch, OverlayId(baseId, l')) <==> Tag(l) == Tag(l')
  {
    hide Tag;
    JobIdsInOneBatch(batch, OverlayId(baseId, l), baseId);
    JobIdsInOneBatch(batch, OverlayId(baseId, l), OverlayId(baseId, l'));
    if OverlayId(baseId, l) == OverlayId(baseId, l') { SamePrefix(baseId + ".overlay.", Tag(l), Tag(l')); }
  }

  /** The ids, parents and kinds of the jobs, spelled out. */
  lemma LanguageJobsAre(h: Sha256, batch: string, base: FlatJob, ls: seq<LanguageJob>, jobs: seq<Job>, i: nat)
    requires AreLanguageJobs(h, batch, base, ls, jobs) && i < |ls|
    ensures jobs[0].id == batch + ":" + base.id && jobs[0].parentId == "" && jobs[0].jobType == ""
    ensures var j := jobs[i + 1];
            && j.id == batch + ":" + (base.id + ".overlay." + TrimSpace(ls[i].language))
            && j.parentId == jobs[0].id && j.jobType == "overlay.render"
            && j.plan == ls[i].plan && j.assets == Localised(ls[i])
  {
    hide TrimSpace, IsContent;
    assert IsOverlay(h, batch, base.id, ls[i], jobs[i + 1]);
  }

  /** All ids of one manifest are different. */
  lemma LanguageIdsAreDistinct(h: Sha256, isPlan: string -> bool, batch: string, base: FlatJob, ls: seq<LanguageJob>, jobs: seq<Job>)
    requires GoodLanguages(isPlan, base.id, ls) && AreLanguageJobs(h, batch, base, ls, jobs)
    ensures DistinctIds(jobs)
  {
    hide GoodLanguage, Tag, OverlayId, JobId;
    forall i, j | 0 <= i < j < |jobs| ensures jobs[i].id != jobs[j].id {
      assert IsOverlay(h, batch, base.id, ls[j - 1], jobs[j]);
      if i == 0 {
        OverlayIdsDiffer(batch, base.id, ls[j - 1], ls[j - 1]);
      } else {
        assert IsOverlay(h, batch, base.id, ls[i - 1], jobs[i]);
        OverlayIdsDiffer(batch, base.id, ls[i - 1], ls[j - 1]);
      }
    }
  }

  // ----- Refusals -----

  datatype LanguageFault = EmptyLanguage | RepeatedLanguage | OtherBase | PlanRefused | AssetsRefused(fault: LanguageAssetFault)

  datatype MultilingualFault =
    | BadSchema
    | EmptyBatchId
    | BadBase(what: EntryFault)
    | BadLanguage(at: nat, why: LanguageFault)

  /** Why the language cannot follow `before`: the first of the checks that fails. */
  predicate IsLanguageFault(isPlan: string -> bool, baseId: string, before: seq<LanguageJob>, l: LanguageJob, why: LanguageFault) {
    && (why.EmptyLanguage? <==> Tag(l) == "")
    && (!why.EmptyLanguage? ==> (why.RepeatedLanguage? <==> UsesTag(before, Tag(l))))
    && (why.OtherBase? ==> !Blank(l.baseJobId) && l.baseJobId != baseId)
    && (why.PlanRefused? || why.AssetsRefused? ==> Blank(l.baseJobId) || l.baseJobId == baseId)
    && (why.PlanRefused? ==> !isPlan(l.plan))
    && (why.AssetsRefused? ==> isPlan(l.plan) && IsLanguageAssetFault(l, why.fault))
  }

  predicate IsFirstBadLanguage(isPlan: string -> bool, baseId: string, ls: seq<LanguageJob>, at: nat, why: LanguageFault) {
    && at < |ls| && GoodLanguages(isPlan, baseId, ls[..at])
    && IsLanguageFault(isPlan, baseId, ls[..at], ls[at], why)
  }

  /** What is wrong with a manifest, when nothing checked earlier is. */
  predicate IsFirstMultilingualFault(isPlan: string -> bool, m: Multilingual, fault: MultilingualFault) {
    && (fault.BadSchema? <==> m.schema != MULTILINGUAL_SCHEMA)
    && (fault.EmptyBatchId? ==> Blank(m.batchId))
    && (fault.BadBase? || fault.BadLanguage? ==> !Blank(m.batchId))
    && (fault.BadBase? ==> IsEntryFault(isPlan, [], m.base, fault.what))
    && (fault.BadLanguage? ==>
          GoodEntry(isPlan, m.base) && IsFirstBadLanguage(isPlan, m.base.id, m.langs, fault.at, fault.why))
  }

  lemma NoIdBefore(id: string)
    ensures !UsesId([], id)
  {
  }

  /** `ExpandMultilingual`: accepts exactly the good manifests, and its job ids are all
      different; otherwise names the first fault. */
  method ExpandMultilingual(h: Sha256, isPlan: string -> bool, m: Multilingual)
    returns (r: Result<seq<Job>, MultilingualFault>)
    ensures r.Success? <==>
              && m.schema == MULTILINGUAL_SCHEMA && !Blank(m.batchId)
              && GoodEntry(isPlan, m.base) && GoodLanguages(isPlan, m.base.id, m.langs)
    ensures r.Success? ==> AreLanguageJobs(h, m.batchId, m.base, m.langs, r.value) && DistinctIds(r.value)
    ensures r.Failure? ==> IsFirstMultilingualFault(isPlan, m, r.error)
  {
    hide Blank, GoodLanguages, AreLanguageJobs, DistinctIds, MULTILINGUAL_SCHEMA, ValidAssets, IsFirstBadLanguage, IsFirstAssetFault;
    if m.schema != MULTILINGUAL_SCHEMA { return Failure(BadSchema); }
    if Blank(m.batchId) { return Failure(EmptyBatchId); }
    var base := m.base;
    NoIdBefore(base.id);
    if Blank(base.id) { return Failure(BadBase(EmptyId)); }
    if !isPlan(base.plan) { return Failure(BadBase(BadPlan)); }
    var bad := ValidateAssets(base.assets);
    if bad.Some? { return Failure(BadBase(BadAssets(bad.value))); }
    r := ExpandLanguages(h, isPlan, m.batchId, base, m.langs);
    if r.Success? { LanguageIdsAreDistinct(h, isPlan, m.batchId, base, m.langs, r.value); }
  }

  /** The base job and the loop over the languages. */
  method ExpandLanguages(h: Sha256, isPlan: string -> bool, batch: string, base: FlatJob, ls: seq<LanguageJob>)
    returns (r: Result<seq<Job>, MultilingualFault>)
    ensures r.Success? <==> GoodLanguages(isPlan, base.id, ls)
    ensures r.Success? ==> AreLanguageJobs(h, batch, base, ls, r.value)
    ensures r.Failure? ==> r.error.BadLanguage? && IsFirstBadLanguage(isPlan, base.id, ls, r.error.at, r.error.why)
  {
    hide GoodLanguages, UsesTag, Blank, IsJob, GoodLanguageAssets, Localised, TrimSpace, IsLanguageAssetFault;
    LanguagesEnds(isPlan, base.id, ls);
    var seen: set<string> := {};
    var first := MakeJob(h, batch, base.id, base.plan, base.assets, "", "");
    var jobs: seq<Job> := [first];
    for i := 0 to |ls|
      invariant GoodLanguages(isPlan, base.id, ls[..i])
      invariant forall t :: t in seen <==> UsesTag(ls[..i], t)
      invariant AreLanguageJobs(h, batch, base, ls[..i], jobs)
    {
      hide AreLanguageJobs;
      var l := ls[i];
      LanguagesTurn(isPlan, base.id, ls, i);
      var lang := TrimSpace(l.language);
      if lang == "" { return Failure(BadLanguage(i, EmptyLanguage)); }
      if lang in seen { return Failure(BadLanguage(i, RepeatedLanguage)); }
      if !Blank(l.baseJobId) && l.baseJobId != base.id { return Failure(BadLanguage(i, OtherBase)); }
      if !isPlan(l.plan) { return Failure(BadLanguage(i, PlanRefused)); }
      var assets := LanguageAssets(l);
      if assets.Failure? { return Failure(BadLanguage(i, AssetsRefused(assets.error))); }
      seen := seen + {lang};
      var logical := base.id + ".overlay." + lang;
      var j := MakeJob(h, batch, logical, l.plan, assets.value, "overlay.render", JobId(batch, base.id));
      assert IsOverlay(h, batch, base.id, l, j);
      LanguageJobsGrow(h, batch, base, ls, i, jobs, j);
      jobs := jobs + [j];
    }
    return Success(jobs);
  }
}
