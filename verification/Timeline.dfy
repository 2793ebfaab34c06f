/**
 The overlay timeline: rows are laid end to end on a frame grid and their bounds are reported
 in whole milliseconds. The arithmetic is exact, a frame rate being a pair of integers.
 */
module Timeline {

  /** `math.Round` of p/q, for p >= 0: half goes up. */
  function Round(p: nat, q: nat): (r: nat)
    requires q > 0
    ensures 2 * p - q < 2 * q * r <= 2 * p + q
  {
    RoundBounds(p, q);
    (2 * p + q) / (2 * q)
  }

  lemma RoundBounds(p: nat, q: nat)
    requires q > 0
    ensures var r := (2 * p + q) / (2 * q); 2 * p - q < 2 * q * r <= 2 * p + q
  {
    var n, d := 2 * p + q, 2 * q;
    assert n == d * (n / d) + n % d;
  }

  /** The bounds of `Round` determine it. */
  lemma RoundIs(p: nat, q: nat, r: nat)
    requires q > 0 && 2 * p - q < 2 * q * r <= 2 * p + q
    ensures Round(p, q) == r
  {
    var s := Round(p, q);
    if s < r {
      MulMono(2 * q, s + 1, r);
    } else if r < s {
      MulMono(2 * q, r + 1, s);
    }
  }

  lemma MulMono(k: nat, a: int, b: int)
    requires a <= b
    ensures k * a <= k * b
  {
  }

  lemma MulLess(k: nat, a: int, b: int)
    requires k * a < k * b
    ensures a < b
  {
    if b <= a { MulMono(k, b, a); }
  }

  /** Frames per second, as `num` / `den`. */
  datatype Rate = Rate(num: int, den: int)

  predicate Positive(rate: Rate) { rate.num > 0 && rate.den > 0 }

  /** The millisecond where a frame starts. */
  function Ms(rate: Rate, frame: nat): nat
    requires Positive(rate)
  {
    Round(frame * (1000 * rate.den), rate.num)
  }

  /** The frame nearest to a millisecond. */
  function NearestFrame(rate: Rate, ms: nat): nat
    requires Positive(rate)
  {
    Round(ms * rate.num, 1000 * rate.den)
  }

  /** The frames a row of this duration gets: at least one. */
  function Frames(rate: Rate, durationMs: nat): nat
    requires Positive(rate)
  {
    var n := NearestFrame(rate, durationMs);
    if n < 1 then 1 else n
  }

  datatype Row = Row(durationMs: int, templateId: string)
  datatype File = File(planId: string, rate: Rate, gapMs: int, rows: seq<Row>)
  datatype Window = Window(index: nat, startMs: nat, endMs: nat, startFrame: nat, endFrame: nat)

  datatype Fault = NoPlanId | BadRate | NoRows | NegativeGap | BadDuration(row: nat) | NoTemplate(row: nat)
  datatype Result = Built(rate: Rate, windows: seq<Window>, durationMs: nat) | Refused(fault: Fault)

  /** The rate used: 30/1 when the file leaves out both numbers. */
  function Effective(rate: Rate): Rate {
    if rate.num == 0 && rate.den == 0 then Rate(30, 1) else rate
  }

  predicate GoodRow(row: Row) { row.durationMs > 0 && row.templateId != "" }

  predicate GoodRows(rows: seq<Row>) { forall i | 0 <= i < |rows| :: GoodRow(rows[i]) }

  predicate Acceptable(file: File) {
    && file.planId != ""
    && Positive(Effective(file.rate))
    && file.rows != []
    && file.gapMs >= 0
    && GoodRows(file.rows)
  }

  /** A fault names something that is wrong, and nothing examined before it is. */
  predicate IsFirstFault(file: File, fault: Fault) {
    && (fault != NoPlanId <==> file.planId != "")
    && (!fault.NoPlanId? ==> (fault != BadRate <==> Positive(Effective(file.rate))))
    && (!fault.NoPlanId? && !fault.BadRate? ==> (fault != NoRows <==> file.rows != []))
    && (!fault.NoPlanId? && !fault.BadRate? && !fault.NoRows? ==> (fault != NegativeGap <==> file.gapMs >= 0))
    && (fault.BadDuration? || fault.NoTemplate? ==>
          && fault.row < |file.rows|
          && GoodRows(file.rows[..fault.row])
          && (fault.BadDuration? <==> file.rows[fault.row].durationMs <= 0)
          && (fault.NoTemplate? ==> file.rows[fault.row].templateId == ""))
  }

  /** A file is acceptable exactly when nothing is wrong with it. */
  lemma AcceptableIffNoFault(file: File)
    ensures Acceptable(file) <==> forall fault :: !IsFirstFault(file, fault)
  {
    if !Acceptable(file) {
      var fault := FirstFault(file);
      assert IsFirstFault(file, fault);
    }
  }

  lemma FirstFault(file: File) returns (fault: Fault)
    requires !Acceptable(file)
    ensures IsFirstFault(file, fault)
  {
    if file.planId == "" { return NoPlanId; }
    if !Positive(Effective(file.rate)) { return BadRate; }
    if file.rows == [] { return NoRows; }
    if file.gapMs < 0 { return NegativeGap; }
    var i := FirstBadRow(file.rows);
    return if file.rows[i].durationMs <= 0 then BadDuration(i) else NoTemplate(i);
  }

  lemma {:induction false} FirstBadRow(rows: seq<Row>) returns (i: nat)
    requires !GoodRows(rows)
    ensures i < |rows| && !GoodRow(rows[i]) && GoodRows(rows[..i])
  {
    var n := |rows| - 1;
    if GoodRows(rows[..n]) {
      assert rows == rows[..n] + [rows[n]];
      i := n;
    } else {
      i := FirstBadRow(rows[..n]);
      assert rows[..n][..i] == rows[..i];
    }
  }

  /** Windows laid end to end from frame 0, exactly `gap` frames apart, each as long as its row
      and reported at its own frames' milliseconds. */
  predicate Laid(rate: Rate, gap: nat, durations: seq<int>, ws: seq<Window>)
    requires Positive(rate)
  {
    && |ws| == |durations|
    && (ws != [] ==> ws[0].startFrame == 0)
    && (forall i | 0 <= i < |ws| - 1 :: ws[i + 1].startFrame == ws[i].endFrame + gap)
    && (forall i | 0 <= i < |ws| :: durations[i] > 0 && IsWindow(rate, i, durations[i], ws[i]))
  }

  predicate IsWindow(rate: Rate, i: nat, duration: nat, w: Window)
    requires Positive(rate)
  {
    && w.index == i
    && w.endFrame == w.startFrame + Frames(rate, duration)
    && w.startMs == Ms(rate, w.startFrame) && w.endMs == Ms(rate, w.endFrame)
  }

  function Durations(rows: seq<Row>): (d: seq<int>)
    ensures |d| == |rows| && forall i | 0 <= i < |rows| :: d[i] == rows[i].durationMs
  {
    seq(|rows|, i requires 0 <= i < |rows| => rows[i].durationMs)
  }

  /** Where the next window starts. */
  function Cursor(gap: nat, ws: seq<Window>): nat {
    if ws == [] then 0 else ws[|ws| - 1].endFrame + gap
  }

  function WindowAt(rate: Rate, i: nat, duration: nat, frame: nat): (w: Window)
    requires Positive(rate)
    ensures IsWindow(rate, i, duration, w) && w.startFrame == frame
  {
    var end := frame + Frames(rate, duration);
    Window(i, Ms(rate, frame), Ms(rate, end), frame, end)
  }

  lemma LaidGrows(rate: Rate, gap: nat, durations: seq<int>, ws: seq<Window>, duration: nat)
    requires Positive(rate) && Laid(rate, gap, durations, ws) && duration > 0
    ensures Laid(rate, gap, durations + [duration], ws + [WindowAt(rate, |ws|, duration, Cursor(gap, ws))])
  {
    hide IsWindow;
  }

  lemma RowsGrow(rows: seq<Row>, i: nat)
    requires i < |rows|
    ensures Durations(rows[..i + 1]) == Durations(rows[..i]) + [rows[i].durationMs]
    ensures GoodRows(rows[..i + 1]) <==> GoodRows(rows[..i]) && GoodRow(rows[i])
  {
    assert rows[..i + 1] == rows[..i] + [rows[i]];
    assert forall k | 0 <= k < i :: rows[..i + 1][k] == rows[..i][k];
  }

  /** The loop over the rows: either windows for all of them, or the first bad one. */
  method LayRows(rate: Rate, gapFrames: nat, rows: seq<Row>) returns (ok: bool, windows: seq<Window>, bad: nat)
    requires Positive(rate)
    ensures ok <==> GoodRows(rows)
    ensures ok ==> Laid(rate, gapFrames, Durations(rows), windows)
    ensures !ok ==> bad < |rows| && GoodRows(rows[..bad]) && !GoodRow(rows[bad])
  {
    hide Ms, Frames, NearestFrame, Laid, IsWindow, Durations;
    windows := [];
    var frame: nat := 0;
    var i := 0;
    LaidEmpty(rate, gapFrames, rows);
    while i < |rows|
      invariant 0 <= i <= |rows| && |windows| == i
      invariant GoodRows(rows[..i])
      invariant Laid(rate, gapFrames, Durations(rows[..i]), windows)
      invariant frame == Cursor(gapFrames, windows)
    {
      var row := rows[i];
      if row.durationMs <= 0 || row.templateId == "" { return false, [], i; }
      LaidGrows(rate, gapFrames, Durations(rows[..i]), windows, row.durationMs);
      RowsGrow(rows, i);
      var endFrame := frame + Frames(rate, row.durationMs);
      windows := windows + [Window(i, Ms(rate, frame), Ms(rate, endFrame), frame, endFrame)];
      frame := endFrame + gapFrames;
      i := i + 1;
    }
    assert rows[..i] == rows;
    return true, windows, 0;
  }

  /** `buildTimeline`. */
  method BuildTimeline(file: File) returns (r: Result)
    ensures r.Built? <==> Acceptable(file)
    ensures r.Refused? ==> IsFirstFault(file, r.fault)
    ensures r.Built? ==>
              && r.rate == Effective(file.rate)
              && Laid(r.rate, NearestFrame(r.rate, file.gapMs), Durations(file.rows), r.windows)
              && r.windows != [] && r.durationMs == r.windows[|r.windows| - 1].endMs
    ensures r.Built? ==> r.rate == if file.rate == Rate(0, 0) then Rate(30, 1) else file.rate
  {
    if file.planId == "" { return Refused(NoPlanId); }
    var rate := Effective(file.rate);
    if rate.num <= 0 || rate.den <= 0 { return Refused(BadRate); }
    if |file.rows| == 0 { return Refused(NoRows); }
    if file.gapMs < 0 { return Refused(NegativeGap); }
    var ok, windows, bad := LayRows(rate, NearestFrame(rate, file.gapMs), file.rows);
    if !ok {
      return Refused(if file.rows[bad].durationMs <= 0 then BadDuration(bad) else NoTemplate(bad));
    }
    return Built(rate, windows, windows[|windows| - 1].endMs);
  }

  lemma LaidEmpty(rate: Rate, gap: nat, rows: seq<Row>)
    requires Positive(rate)
    ensures GoodRows(rows[..0]) && Laid(rate, gap, Durations(rows[..0]), [])
  {
  }

  // ----- The frame grid -----

  /** A row's frames are the whole number nearest to its duration, half a frame going up, and one
      when that is none. */
  lemma FramesAreNearest(rate: Rate, durationMs: nat)
    requires Positive(rate)
    ensures var f, exact, frame := Frames(rate, durationMs), durationMs * rate.num, 1000 * rate.den;
            if 2 * exact < frame then f == 1
            else 2 * exact - frame < 2 * frame * f <= 2 * exact + frame
  {
    var exact, frame := durationMs * rate.num, 1000 * rate.den;
    var n := NearestFrame(rate, durationMs);
    if n >= 1 { MulMono(2 * frame, 1, n); } else { assert 2 * frame * n == 0; }
  }

  /** A reported millisecond is within half a millisecond of where its frame is. */
  lemma MsIsNearest(rate: Rate, frame: nat)
    requires Positive(rate)
    ensures var ms, exact := Ms(rate, frame), frame * (1000 * rate.den);
            2 * exact - rate.num < 2 * rate.num * ms <= 2 * exact + rate.num
  {
    assert Ms(rate, frame) == Round(frame * (1000 * rate.den), rate.num);
  }

  /** Frames at least a millisecond apart are reported at different milliseconds. */
  lemma FurtherIsLater(rate: Rate, f: nat, frames: nat)
    requires Positive(rate) && frames * (1000 * rate.den) >= rate.num
    ensures Ms(rate, f) < Ms(rate, f + frames)
  {
    var n, d := rate.num, 1000 * rate.den;
    var a, b := Ms(rate, f), Ms(rate, f + frames);
    assert (f + frames) * d == f * d + frames * d;
    assert 2 * n * a <= 2 * (f * d) + n;
    assert 2 * ((f + frames) * d) - n < 2 * n * b;
    assert 2 * n * a < 2 * n * b + (2 * n - 2 * (frames * d)) ;
    MulLess(2 * n, a, b);
  }

  lemma LaterIsNotEarlier(rate: Rate, f: nat, frames: nat)
    requires Positive(rate)
    ensures Ms(rate, f) <= Ms(rate, f + frames)
  {
    var n, d := rate.num, 1000 * rate.den;
    var a, b := Ms(rate, f), Ms(rate, f + frames);
    assert (f + frames) * d == f * d + frames * d;
    assert 2 * n * a < 2 * n * b + 2 * n == 2 * n * (b + 1);
    MulLess(2 * n, a, b + 1);
  }

  /** Up to 1000 frames per second, a frame is recovered from its millisecond. */
  lemma FrameRoundTrip(rate: Rate, f: nat)
    requires Positive(rate) && rate.num <= 1000 * rate.den
    ensures NearestFrame(rate, Ms(rate, f)) == f
  {
    var n, d := rate.num, 1000 * rate.den;
    var t := Ms(rate, f);
    HalfFrame(n, d, f, t);
    RoundIs(t * n, d, f);
  }

  /** A millisecond within half a millisecond of a frame is within half a frame of it. */
  lemma HalfFrame(n: nat, d: nat, f: nat, t: nat)
    requires 0 < n <= d && 2 * (f * d) - n < 2 * n * t <= 2 * (f * d) + n
    ensures 2 * (t * n) - d < 2 * d * f <= 2 * (t * n) + d
  {
    var x, y := t * n, f * d;
    assert 2 * n * t == 2 * x && 2 * d * f == 2 * y;
    if 2 * x - d == 2 * y {
      // Half a frame late: then n == d, but t and f are whole.
      assert n == d;
      assert n * (2 * (t - f)) == n * 1;
      if 2 * (t - f) < 1 { MulMono(n, 2 * (t - f), 0); } else { MulMono(n, 2, 2 * (t - f)); }
    }
  }

  /** If `stride` frames take less than a millisecond, two frames that far apart are reported at
      the same millisecond, and soon. */
  lemma StrideCollapses(rate: Rate, stride: nat)
    requires Positive(rate) && stride * (1000 * rate.den) < rate.num
    ensures exists j: nat | j < rate.num :: Ms(rate, j * stride) == Ms(rate, j * stride + stride)
  {
    var n, d := rate.num, 1000 * rate.den;
    if forall j: nat | j < n :: Ms(rate, j * stride) != Ms(rate, j * stride + stride) {
      assert n * stride * d == stride * d * n;
      RoundIs(n * stride * d, n, stride * d);
      StrideClimbs(rate, stride, n);
    }
  }

  lemma {:induction false} StrideClimbs(rate: Rate, stride: nat, k: nat)
    requires Positive(rate)
    requires forall j: nat | j < k :: Ms(rate, j * stride) != Ms(rate, j * stride + stride)
    ensures Ms(rate, k * stride) >= k
  {
    if k > 0 {
      StrideClimbs(rate, stride, k - 1);
      LaterIsNotEarlier(rate, (k - 1) * stride, stride);
      assert k * stride == (k - 1) * stride + stride;
    }
  }

  /** Every frame of the grid is recovered from its millisecond exactly up to 1000 frames per
      second; and exactly then no two frames share a millisecond. */
  lemma GridIff(rate: Rate)
    requires Positive(rate)
    ensures (forall f: nat :: NearestFrame(rate, Ms(rate, f)) == f) <==> rate.num <= 1000 * rate.den
    ensures (forall f: nat :: Ms(rate, f) < Ms(rate, f + 1)) <==> rate.num <= 1000 * rate.den
  {
    if rate.num <= 1000 * rate.den {
      forall f: nat
        ensures NearestFrame(rate, Ms(rate, f)) == f && Ms(rate, f) < Ms(rate, f + 1)
      {
        FrameRoundTrip(rate, f);
        FurtherIsLater(rate, f, 1);
      }
    } else {
      StrideCollapses(rate, 1);
      var j: nat :| j < rate.num && Ms(rate, j * 1) == Ms(rate, j * 1 + 1);
      assert j * 1 == j;
      assert Ms(rate, j) == Ms(rate, j + 1);
    }
  }

  // ----- Whole timelines -----

  /** Every window is at least a frame long, and windows come in order without overlap. */
  lemma {:induction false} WindowsInOrder(rate: Rate, gap: nat, durations: seq<int>, ws: seq<Window>, i: nat, j: nat)
    requires Positive(rate) && Laid(rate, gap, durations, ws) && i < j < |ws|
    ensures ws[i].startFrame < ws[i].endFrame
    ensures ws[i].endFrame + gap <= ws[j].startFrame && ws[i].endMs <= ws[j].startMs
    decreases j
  {
    hide Ms, NearestFrame;
    assert IsWindow(rate, i, durations[i], ws[i]);
    if i + 1 < j {
      WindowsInOrder(rate, gap, durations, ws, i, j - 1);
      assert IsWindow(rate, j - 1, durations[j - 1], ws[j - 1]);
      assert ws[j - 1 + 1].startFrame == ws[j - 1].endFrame + gap;
    }
    assert IsWindow(rate, j, durations[j], ws[j]);
    LaterIsNotEarlier(rate, ws[i].endFrame, ws[j].startFrame - ws[i].endFrame);
  }

  /** A one-millisecond row is given at least a millisecond of frames. */
  predicate ShortestRowFits(rate: Rate)
    requires Positive(rate)
  {
    Frames(rate, 1) * (1000 * rate.den) >= rate.num
  }

  lemma EveryRowFits(rate: Rate, duration: nat)
    requires Positive(rate) && duration > 0 && ShortestRowFits(rate)
    ensures Frames(rate, duration) * (1000 * rate.den) >= rate.num
  {
    var n, d := rate.num, 1000 * rate.den;
    if n <= d {
      MulMono(d, 1, Frames(rate, duration));
    } else if duration > 1 {
      var r := NearestFrame(rate, duration);
      MulMono(n, 2, duration);
      assert 2 * d * r > 2 * (duration * n) - d;
      assert 2 * (r * d) > 3 * n;
      MulMono(d, r, Frames(rate, duration));
    }
  }

  /** Laid out rows of one millisecond, without a gap. */
  function ShortRows(rate: Rate, k: nat): (ws: seq<Window>)
    requires Positive(rate)
  {
    var s := Frames(rate, 1);
    seq(k, i requires 0 <= i < k => Window(i, Ms(rate, i * s), Ms(rate, i * s + s), i * s, i * s + s))
  }

  lemma ShortRowsAreLaid(rate: Rate, k: nat)
    requires Positive(rate)
    ensures Laid(rate, 0, seq(k, _ => 1), ShortRows(rate, k))
  {
    hide Ms, Frames;
    var s, ws := Frames(rate, 1), ShortRows(rate, k);
    forall i | 0 <= i < k - 1 ensures ws[i + 1].startFrame == ws[i].endFrame + 0 {
      assert (i + 1) * s == i * s + s;
    }
  }

  ghost predicate NeverCollapses(rate: Rate)
    requires Positive(rate)
  {
    forall gap: nat, durations: seq<int>, ws: seq<Window> | Laid(rate, gap, durations, ws) ::
      forall i | 0 <= i < |ws| :: ws[i].startMs < ws[i].endMs
  }

  /** In every timeline every row spans at least a millisecond, exactly when a one-millisecond
      row does. */
  lemma NeverCollapsesIff(rate: Rate)
    requires Positive(rate)
    ensures NeverCollapses(rate) <==> ShortestRowFits(rate)
  {
    if ShortestRowFits(rate) {
      forall gap: nat, durations: seq<int>, ws: seq<Window> | Laid(rate, gap, durations, ws)
        ensures forall i | 0 <= i < |ws| :: ws[i].startMs < ws[i].endMs
      {
        forall i | 0 <= i < |ws| ensures ws[i].startMs < ws[i].endMs {
          assert IsWindow(rate, i, durations[i], ws[i]);
          EveryRowFits(rate, durations[i]);
          FurtherIsLater(rate, ws[i].startFrame, Frames(rate, durations[i]));
        }
      }
    } else {
      var s := Frames(rate, 1);
      StrideCollapses(rate, s);
      var j: nat :| j < rate.num && Ms(rate, j * s) == Ms(rate, j * s + s);
      var ws := ShortRows(rate, rate.num);
      ShortRowsAreLaid(rate, rate.num);
      assert ws[j].startMs == ws[j].endMs;
    }
  }

  /** Up to 1000 frames per second every row of every timeline spans a millisecond or more, and
      both its bounds give back its frames. */
  lemma WindowsRoundTrip(rate: Rate, gap: nat, durations: seq<int>, ws: seq<Window>, i: nat)
    requires Positive(rate) && rate.num <= 1000 * rate.den && Laid(rate, gap, durations, ws) && i < |ws|
    ensures ws[i].startMs < ws[i].endMs
    ensures NearestFrame(rate, ws[i].startMs) == ws[i].startFrame
    ensures NearestFrame(rate, ws[i].endMs) == ws[i].endFrame
  {
    assert IsWindow(rate, i, durations[i], ws[i]);
    MulMono(1000 * rate.den, 1, Frames(rate, 1));
    NeverCollapsesIff(rate);
    FrameRoundTrip(rate, ws[i].startFrame);
    FrameRoundTrip(rate, ws[i].endFrame);
  }

  /** Above 1000 frames per second rows can collapse: at 10000/9 frames per second the sixth
      one-millisecond row starts and ends at millisecond 5. */
  lemma FastRateCollapses()
    ensures var rate := Rate(10000, 9);
            Laid(rate, 0, seq(6, _ => 1), ShortRows(rate, 6)) && ShortRows(rate, 6)[5].startMs == ShortRows(rate, 6)[5].endMs
  {
    var rate := Rate(10000, 9);
    ShortRowsAreLaid(rate, 6);
    assert Frames(rate, 1) == 1;
  }
}
