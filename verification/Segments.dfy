/**
 The boundary checks of a render request: the encoder lane it resolves to, and the segmented
 output contract, which is shown to accept exactly the ordered partitions of a timeline.
 */
module Segments {
  import opened Options

  datatype Requirements = Requirements(
    backend: string, gpuRequired: bool, cpuFallbackAllowed: bool,
    compositionRequired: bool, videoSourceRequired: bool)

  datatype Segment = Segment(outputPath: string, startFrame: int, endFrame: int)

  datatype Request = Request(
    requirements: Requirements, hardwareEncoder: string, encoderBackend: string,
    audioSourcePath: string, rangeEnabled: bool, firstFrame: int, lastFrame: int,
    outputSegments: seq<Segment>)

  const DEFAULT_ENCODER := "nvenc"
  const NO_ENCODER := "none"

  // ----- The encoder lane -----

  datatype Selection = Selection(hardwareEncoder: string, encoderBackend: string, hotPathMode: string)

  /** `resolveNativeEncodeSelection`. */
  function Resolve(req: Request): Option<Selection> {
    var reqs := req.requirements;
    var onlyNone := if req.hardwareEncoder == NO_ENCODER then NO_ENCODER else "";
    var backend := if req.encoderBackend == "" then "native" else req.encoderBackend;
    if reqs.backend == "software" && (reqs.compositionRequired || reqs.videoSourceRequired) then
      Some(Selection(onlyNone, "pipe", "auto"))
    else if reqs.gpuRequired then
      Some(Selection(
        if req.hardwareEncoder == "" then DEFAULT_ENCODER else req.hardwareEncoder,
        backend,
        if reqs.cpuFallbackAllowed then "auto" else "require_gpu_native"))
    else if reqs.compositionRequired then Some(Selection(onlyNone, backend, "auto"))
    else None
  }

  predicate ResolvesNative(req: Request) {
    Resolve(req).Some? && Resolve(req).value.encoderBackend == "native"
  }

  /** Which requests carry the native lane: those that need a GPU or a composition, do not name
      another encoder backend, and do not composite in software. */
  lemma NativeLaneIff(req: Request)
    ensures var reqs := req.requirements;
            ResolvesNative(req) <==>
              && (reqs.gpuRequired || reqs.compositionRequired)
              && (req.encoderBackend == "" || req.encoderBackend == "native")
              && (reqs.backend == "software" ==> !reqs.compositionRequired && !reqs.videoSourceRequired)
  {
    assert "pipe"[0] != "native"[0];
  }

  /** A strict request, one that forbids the CPU, is resolved to the native hot path unless it
      composites in software. The encoder is then the one configured, nvenc by default; a
      request that names "none" is passed on with "none". */
  lemma StrictStaysOnGpu(req: Request)
    requires req.requirements.gpuRequired && !req.requirements.cpuFallbackAllowed
    ensures var reqs := req.requirements;
            Resolve(req).Some? &&
            (Resolve(req).value.hotPathMode == "require_gpu_native" <==>
             !(reqs.backend == "software" && (reqs.compositionRequired || reqs.videoSourceRequired)))
    ensures Resolve(req).value.hotPathMode == "require_gpu_native" ==>
              var encoder := Resolve(req).value.hardwareEncoder;
              && encoder != ""
              && (encoder == DEFAULT_ENCODER <==> req.hardwareEncoder == "" || req.hardwareEncoder == DEFAULT_ENCODER)
              && (encoder == NO_ENCODER <==> req.hardwareEncoder == NO_ENCODER)
  {
    assert "auto"[0] != "require_gpu_native"[0];
    assert |NO_ENCODER| == 4 && |DEFAULT_ENCODER| == 5;
  }

  /** What comes of the other requests: software compositing is piped; a request that allows the
      CPU leaves the hot path open, with the encoder configured or nvenc; one that needs only a
      composition asks for no encoder, unless it names "none"; one that needs nothing resolves to
      no selection at all. */
  lemma OtherSelections(req: Request)
    ensures var reqs, r := req.requirements, Resolve(req);
            var software := reqs.backend == "software" && (reqs.compositionRequired || reqs.videoSourceRequired);
            && (r.None? <==> !software && !reqs.gpuRequired && !reqs.compositionRequired)
            && (software || (!reqs.gpuRequired && reqs.compositionRequired) ==>
                  && r.value.hotPathMode == "auto"
                  && (r.value.hardwareEncoder == NO_ENCODER <==> req.hardwareEncoder == NO_ENCODER)
                  && (r.value.hardwareEncoder == "" <==> req.hardwareEncoder != NO_ENCODER))
            && (!software && reqs.gpuRequired && reqs.cpuFallbackAllowed ==>
                  && r.value.hotPathMode == "auto"
                  && (req.hardwareEncoder != "" ==> r.value.hardwareEncoder == req.hardwareEncoder)
                  && (req.hardwareEncoder == "" ==> r.value.hardwareEncoder == DEFAULT_ENCODER))
            && (software ==> r.value.encoderBackend == "pipe")
            && (r.Some? && !software ==>
                  && (req.encoderBackend != "" ==> r.value.encoderBackend == req.encoderBackend)
                  && (req.encoderBackend == "" ==> r.value.encoderBackend == "native"))
  {
    assert |NO_ENCODER| == 4;
  }

  // ----- The segmented output contract -----

  predicate Tiled(segments: seq<Segment>) {
    && (segments != [] ==> segments[0].startFrame == 0)
    && (forall i | 0 <= i < |segments| - 1 :: segments[i + 1].startFrame == segments[i].endFrame)
    && (forall i | 0 <= i < |segments| :: segments[i].startFrame < segments[i].endFrame)
  }

  predicate GoodPaths(segments: seq<Segment>) {
    && (forall i | 0 <= i < |segments| :: segments[i].outputPath != "")
    && (forall i, j | 0 <= i < j < |segments| :: segments[i].outputPath != segments[j].outputPath)
  }

  datatype Fault =
    | EmptyPath(at: nat)
    | RepeatedPath(at: nat)
    | WrongStart(at: nat, want: int)
    | EmptyWindow(at: nat)
    | HasAudio
    | HasRange
    | NotNative
    | NegativeFirst
    | LastBeforeFirst

  predicate Good(segments: seq<Segment>) { Tiled(segments) && GoodPaths(segments) }

  function ExpectedStart(segments: seq<Segment>): int {
    if segments == [] then 0 else segments[|segments| - 1].endFrame
  }

  predicate RepeatsPath(segments: seq<Segment>, path: string) {
    exists k | 0 <= k < |segments| :: segments[k].outputPath == path
  }

  /** Why the segment after `before` cannot follow it. */
  predicate Explains(before: seq<Segment>, s: Segment, fault: Fault) {
    match fault
    case EmptyPath(at) => at == |before| && s.outputPath == ""
    case RepeatedPath(at) => at == |before| && s.outputPath != "" && RepeatsPath(before, s.outputPath)
    case WrongStart(at, want) =>
      && at == |before| && s.outputPath != "" && !RepeatsPath(before, s.outputPath)
      && want == ExpectedStart(before) && s.startFrame != want
    case EmptyWindow(at) =>
      && at == |before| && s.outputPath != "" && !RepeatsPath(before, s.outputPath)
      && s.startFrame == ExpectedStart(before) && s.endFrame <= s.startFrame
    case _ => false
  }

  /** A segment can follow good ones exactly when no fault explains why not. */
  lemma GoodGrows(before: seq<Segment>, s: Segment)
    requires Good(before)
    ensures Good(before + [s]) <==>
              && s.outputPath != "" && !RepeatsPath(before, s.outputPath)
              && s.startFrame == ExpectedStart(before) && s.startFrame < s.endFrame
  {
    var after := before + [s];
    var n := |before|;
    assert forall i | 0 <= i < n :: after[i] == before[i];
    assert after[n] == s;
    if s.outputPath != "" && !RepeatsPath(before, s.outputPath) &&
       s.startFrame == ExpectedStart(before) && s.startFrame < s.endFrame {
      assert Tiled(after);
    } else if Good(after) {
      if n > 0 { assert after[n - 1 + 1].startFrame == after[n - 1].endFrame; }
    }
  }

  lemma GoodPrefix(segments: seq<Segment>, n: nat)
    requires n <= |segments| && Good(segments)
    ensures Good(segments[..n])
  {
    var p := segments[..n];
    assert forall i | 0 <= i < n :: p[i] == segments[i];
  }

  /** `validateOutputSegments`: no fault exactly when there are no segments, or they tile the
      timeline with paths of their own and the request is video-only, whole and native; and a
      fault is the first there is. */
  method ValidateOutputSegments(req: Request) returns (r: Option<Fault>)
    ensures r.None? <==>
              req.outputSegments == [] ||
              (Good(req.outputSegments) && req.audioSourcePath == "" && !req.rangeEnabled && ResolvesNative(req))
    ensures r.Some? ==>
              match r.value
              case HasAudio => Good(req.outputSegments) && req.audioSourcePath != ""
              case HasRange => Good(req.outputSegments) && req.audioSourcePath == "" && req.rangeEnabled
              case NotNative => Good(req.outputSegments) && req.audioSourcePath == "" && !req.rangeEnabled && !ResolvesNative(req)
              case f => FirstBad(req.outputSegments, f)
  {
    hide Good, Resolve, ExpectedStart, RepeatsPath;
    var segments := req.outputSegments;
    if |segments| == 0 { return None; }
    var bad := CheckSegments(segments);
    if bad.Some? { return bad; }
    if req.audioSourcePath != "" { return Some(HasAudio); }
    if req.rangeEnabled { return Some(HasRange); }
    var selection := Resolve(req);
    if selection.None? || selection.value.encoderBackend != "native" { return Some(NotNative); }
    return None;
  }

  /** The segment before which all is good, and why it is not. */
  predicate FirstBad(segments: seq<Segment>, fault: Fault) {
    exists n :: 0 <= n < |segments| && Good(segments[..n]) && Explains(segments[..n], segments[n], fault)
  }

  /** The loop over the segments. */
  method CheckSegments(segments: seq<Segment>) returns (r: Option<Fault>)
    ensures r.None? <==> Good(segments)
    ensures r.Some? ==> FirstBad(segments, r.value)
  {
    var seen: set<string> := {};
    var expected := 0;
    for i := 0 to |segments|
      invariant Good(segments[..i])
      invariant forall p :: p in seen <==> RepeatsPath(segments[..i], p)
      invariant expected == ExpectedStart(segments[..i])
    {
      hide Good;
      var s := segments[i];
      var before := segments[..i];
      assert segments[..i + 1] == before + [s];
      GoodGrows(before, s);
      var fault :=
        if s.outputPath == "" then Some(EmptyPath(i))
        else if s.outputPath in seen then Some(RepeatedPath(i))
        else if s.startFrame != expected then Some(WrongStart(i, expected))
        else if s.endFrame <= s.startFrame then Some(EmptyWindow(i))
        else None;
      if fault.Some? {
        assert !Good(segments[..i + 1]);
        if Good(segments) { GoodPrefix(segments, i + 1); }
        assert Explains(before, s, fault.value);
        return fault;
      }
      seen := seen + {s.outputPath};
      expected := s.endFrame;
      SeenGrows(before, s);
    }
    assert segments[..|segments|] == segments;
    return None;
  }

  lemma SeenGrows(before: seq<Segment>, s: Segment)
    ensures forall p :: RepeatsPath(before + [s], p) <==> RepeatsPath(before, p) || p == s.outputPath
  {
    var after := before + [s];
    forall p ensures RepeatsPath(after, p) <==> RepeatsPath(before, p) || p == s.outputPath {
      assert forall k | 0 <= k < |before| :: after[k] == before[k];
      assert after[|before|] == s;
    }
  }

  /** `validateRenderRequest`. */
  method ValidateRenderRequest(req: Request) returns (r: Option<Fault>)
    ensures r.None? <==>
              if req.outputSegments == [] then (req.rangeEnabled ==> 0 <= req.firstFrame <= req.lastFrame)
              else Good(req.outputSegments) && req.audioSourcePath == "" && !req.rangeEnabled && ResolvesNative(req)
  {
    hide Good, ResolvesNative;
    r := ValidateOutputSegments(req);
    if r.Some? { return; }
    if !req.rangeEnabled { return None; }
    if req.firstFrame < 0 { return Some(NegativeFirst); }
    if req.lastFrame < req.firstFrame { return Some(LastBeforeFirst); }
    return None;
  }

  // ----- Tiling is partitioning -----

  predicate In(frame: int, s: Segment) { s.startFrame <= frame < s.endFrame }

  /** The frames of [0, last end) and no others are each in a window, in exactly one, no window
      is empty, and the windows come in order. */
  ghost predicate Partitions(segments: seq<Segment>)
    requires segments != []
  {
    && (forall i | 0 <= i < |segments| :: segments[i].startFrame < segments[i].endFrame)
    && (forall i, j | 0 <= i < j < |segments| :: segments[i].startFrame < segments[j].startFrame)
    && (forall i, j, f | 0 <= i < j < |segments| && In(f, segments[i]) :: !In(f, segments[j]))
    && (forall f: int :: 0 <= f < segments[|segments| - 1].endFrame <==> Covered(segments, f))
  }

  predicate Covered(segments: seq<Segment>, f: int) {
    exists i | 0 <= i < |segments| :: In(f, segments[i])
  }

  lemma {:induction false} TilesAreOrdered(segments: seq<Segment>, i: nat, j: nat)
    requires Tiled(segments) && i < j < |segments|
    ensures segments[i].endFrame <= segments[j].startFrame
    decreases j
  {
    assert segments[j - 1 + 1].startFrame == segments[j - 1].endFrame;
    if i < j - 1 { TilesAreOrdered(segments, i, j - 1); }
  }

  lemma {:induction false} TilesCover(segments: seq<Segment>, n: nat, f: int)
    requires Tiled(segments) && n < |segments| && 0 <= f < segments[n].endFrame
    ensures Covered(segments, f)
    decreases n
  {
    if segments[n].startFrame <= f {
      assert In(f, segments[n]);
    } else if n > 0 {
      assert segments[n - 1 + 1].startFrame == segments[n - 1].endFrame;
      TilesCover(segments, n - 1, f);
    }
  }

  lemma TiledPartitions(segments: seq<Segment>)
    requires segments != [] && Tiled(segments)
    ensures Partitions(segments)
  {
    var last := |segments| - 1;
    forall i, j | 0 <= i < j < |segments|
      ensures segments[i].endFrame <= segments[j].startFrame
    {
      TilesAreOrdered(segments, i, j);
    }
    forall f: int ensures 0 <= f < segments[last].endFrame <==> Covered(segments, f) {
      if 0 <= f < segments[last].endFrame {
        TilesCover(segments, last, f);
      }
    }
  }

  lemma FirstStartsAtZero(segments: seq<Segment>)
    requires segments != [] && Partitions(segments)
    ensures segments[0].startFrame == 0
  {
    var s := segments[0].startFrame;
    assert In(s, segments[0]);
    assert Covered(segments, s);
    assert s <= 0 || Covered(segments, 0);
  }

  lemma NextStartsAtEnd(segments: seq<Segment>, i: nat)
    requires i + 1 < |segments| && Partitions(segments)
    ensures segments[i + 1].startFrame == segments[i].endFrame
  {
    var a, b := segments[i], segments[i + 1];
    assert In(b.startFrame, b);
    assert Covered(segments, b.startFrame);
    if a.endFrame < b.startFrame {
      assert In(a.startFrame, a);
      assert Covered(segments, a.startFrame);
      assert Covered(segments, a.endFrame);
      var k :| 0 <= k < |segments| && In(a.endFrame, segments[k]);
      if k < i { assert In(a.startFrame, segments[k]); }
    }
  }

  /** The windows accepted are exactly the ordered partitions: each frame of [0, last end) in
      exactly one window. */
  lemma TiledIffPartitions(segments: seq<Segment>)
    requires segments != []
    ensures Tiled(segments) <==> Partitions(segments)
  {
    if Tiled(segments) {
      TiledPartitions(segments);
    } else if Partitions(segments) {
      FirstStartsAtZero(segments);
      forall i | 0 <= i < |segments| - 1 ensures segments[i + 1].startFrame == segments[i].endFrame {
        NextStartsAtEnd(segments, i);
      }
    }
  }
}
