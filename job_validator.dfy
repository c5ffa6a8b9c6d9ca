/**
 * The job validator: range errors for every job, the frames no enabled job
 * covers, and a warning for every pair of enabled jobs that share frames.
 * Messages are kept structured (the job's name and the numbers the message
 * would print) rather than rendered as text.
 */
module JobValidator {
  import opened Wrappers
  import opened SimulationJobs

  // ---------------------------------------------------------------------------
  // Range errors

  /** The errors one job's range produces, in the order they are checked: start, end, then their order. */
  function RangeErrors(totalFrames: int, job: SimulationJob): (r: seq<ValidationError>)
    ensures r == [] <==> 1 <= job.startFrame <= job.endFrame <= totalFrames
  {
    (if job.startFrame < 1 then [StartBelowOne(job.name, job.startFrame)] else [])
    + (if job.endFrame > totalFrames then [EndBeyondTotal(job.name, job.endFrame, totalFrames)] else [])
    + (if job.startFrame > job.endFrame then [StartAfterEnd(job.name, job.startFrame, job.endFrame)] else [])
  }

  /** The range errors of a job list: each job's errors, jobs in list order. */
  function AllRangeErrors(totalFrames: int, jobs: seq<SimulationJob>): seq<ValidationError> {
    if jobs == [] then []
    else AllRangeErrors(totalFrames, jobs[..|jobs| - 1]) + RangeErrors(totalFrames, jobs[|jobs| - 1])
  }

  /** A job's range is acceptable: it starts at 1 or later and ends by the last frame, start not after end. */
  predicate WellRanged(totalFrames: int, job: SimulationJob) {
    1 <= job.startFrame <= job.endFrame <= totalFrames
  }

  /** There are no range errors exactly when every job, enabled or not, is well ranged. */
  lemma {:induction false} NoRangeErrorsIff(totalFrames: int, jobs: seq<SimulationJob>)
    ensures AllRangeErrors(totalFrames, jobs) == [] <==>
            forall k :: 0 <= k < |jobs| ==> WellRanged(totalFrames, jobs[k])
  {
    if jobs != [] {
      var init := jobs[..|jobs| - 1];
      NoRangeErrorsIff(totalFrames, init);
      assert forall k :: 0 <= k < |init| ==> init[k] == jobs[k];
    }
  }

  /** Extending the list by one job appends that job's errors. */
  lemma RangeErrorsStep(totalFrames: int, jobs: seq<SimulationJob>, k: int)
    requires 0 <= k < |jobs|
    ensures AllRangeErrors(totalFrames, jobs[..k + 1]) == AllRangeErrors(totalFrames, jobs[..k]) + RangeErrors(totalFrames, jobs[k])
  {
    assert jobs[..k + 1][..k] == jobs[..k];
  }

  /** validateJobRanges: every job is checked, disabled ones included, and errors are listed in job order. */
  method ValidateJobRanges(totalFrames: int, jobs: seq<SimulationJob>) returns (errors: seq<ValidationError>)
    ensures errors == AllRangeErrors(totalFrames, jobs)
  {
    errors := [];
    for k := 0 to |jobs|
      invariant errors == AllRangeErrors(totalFrames, jobs[..k])
    {
      var job := jobs[k];
      ghost var before := errors;
      if job.startFrame < 1 {
        errors := errors + [StartBelowOne(job.name, job.startFrame)];
      }
      if job.endFrame > totalFrames {
        errors := errors + [EndBeyondTotal(job.name, job.endFrame, totalFrames)];
      }
      if job.startFrame > job.endFrame {
        errors := errors + [StartAfterEnd(job.name, job.startFrame, job.endFrame)];
      }
      assert errors == before + RangeErrors(totalFrames, job);
      RangeErrorsStep(totalFrames, jobs, k);
    }
    assert jobs[..|jobs|] == jobs;
  }

  // ---------------------------------------------------------------------------
  // Coverage

  /** Some enabled job among the first `k` covers `frame`. */
  predicate CoveredBefore(jobs: seq<SimulationJob>, k: int, frame: int) {
    exists i :: 0 <= i < k && i < |jobs| && Covers(jobs[i], frame)
  }

  /** Some enabled job covers `frame`. */
  predicate CoveredByAny(jobs: seq<SimulationJob>, frame: int) {
    CoveredBefore(jobs, |jobs|, frame)
  }

  predicate Increasing(s: seq<int>) {
    forall a, b :: 0 <= a < b < |s| ==> s[a] < s[b]
  }

  /**
   * findUncoveredFrames: marks, in a table indexed by frame, every frame in
   * 1..totalFrames that some enabled job covers, then lists the unmarked ones
   * in increasing order. Parts of a range outside 1..totalFrames are ignored.
   * The table has totalFrames + 1 entries, so totalFrames must be at least -1.
   */
  method FindUncoveredFrames(totalFrames: int, jobs: seq<SimulationJob>) returns (uncovered: seq<int>)
    requires totalFrames >= -1
    ensures Increasing(uncovered)
    ensures forall f :: f in uncovered <==> 1 <= f <= totalFrames && !CoveredByAny(jobs, f)
  {
    var covered := new bool[totalFrames + 1](_ => false);
    for k := 0 to |jobs|
      invariant forall f :: 0 <= f < covered.Length ==> (covered[f] <==> 1 <= f && CoveredBefore(jobs, k, f))
    {
      var job := jobs[k];
      if !job.enabled {
        continue;
      }
      var frame := job.startFrame;
      while frame <= job.endFrame && frame <= totalFrames
        invariant frame == job.startFrame || (job.startFrame < frame <= job.endFrame + 1 && frame <= totalFrames + 1)
        invariant forall f :: 0 <= f < covered.Length ==>
                    (covered[f] <==> 1 <= f && (CoveredBefore(jobs, k, f) || job.startFrame <= f < frame))
        decreases totalFrames - frame
      {
        if frame >= 1 {
          covered[frame] := true;
        }
        frame := frame + 1;
      }
    }

    uncovered := [];
    var frame := 1;
    while frame <= totalFrames
      invariant 1 <= frame && (frame <= totalFrames + 1 || frame == 1)
      invariant Increasing(uncovered)
      invariant forall a :: 0 <= a < |uncovered| ==> uncovered[a] < frame
      invariant forall f :: f in uncovered <==> 1 <= f < frame && !CoveredByAny(jobs, f)
    {
      if !covered[frame] {
        uncovered := uncovered + [frame];
      }
      frame := frame + 1;
    }
  }

  // ---------------------------------------------------------------------------
  // Overlaps

  function Max(a: int, b: int): int { if a >= b then a else b }
  function Min(a: int, b: int): int { if a <= b then a else b }

  /** The warning for one pair of jobs: both enabled and their ranges intersect. */
  function OverlapWarning(a: SimulationJob, b: SimulationJob): Option<Warning> {
    if a.enabled && b.enabled && Max(a.startFrame, b.startFrame) <= Min(a.endFrame, b.endFrame)
    then Some(Overlap(a.name, b.name, Max(a.startFrame, b.startFrame), Min(a.endFrame, b.endFrame)))
    else None
  }

  /** A pair draws a warning exactly when some frame is covered by both, and the warning spans exactly the shared frames. */
  lemma OverlapIsSharedFrames(a: SimulationJob, b: SimulationJob)
    ensures OverlapWarning(a, b).None? <==> forall f :: !(Covers(a, f) && Covers(b, f))
    ensures OverlapWarning(a, b).Some? ==>
              var w := OverlapWarning(a, b).value;
              w.firstName == a.name && w.secondName == b.name &&
              forall f :: w.from <= f <= w.to <==> Covers(a, f) && Covers(b, f)
  {
    if OverlapWarning(a, b).None? && a.enabled && b.enabled {
      forall f ensures !(Covers(a, f) && Covers(b, f)) {
      }
    }
    if OverlapWarning(a, b).Some? {
      assert Covers(a, Max(a.startFrame, b.startFrame));
    }
  }

  function AsSeq(o: Option<Warning>): seq<Warning> {
    if o.Some? then [o.value] else []
  }

  /** The warnings for pairs (i, i+1) .. (i, j-1), in that order. */
  function RowWarnings(jobs: seq<SimulationJob>, i: int, j: int): seq<Warning>
    requires 0 <= i < |jobs| && j <= |jobs|
    decreases j
  {
    if j <= i + 1 then []
    else RowWarnings(jobs, i, j - 1) + AsSeq(OverlapWarning(jobs[i], jobs[j - 1]))
  }

  /** The warnings for all pairs whose first job is among the first `i`, in lexicographic pair order. */
  function PairWarnings(jobs: seq<SimulationJob>, i: int): seq<Warning>
    requires 0 <= i <= |jobs|
  {
    if i == 0 then []
    else PairWarnings(jobs, i - 1) + RowWarnings(jobs, i - 1, |jobs|)
  }

  /** A disabled first job draws no warnings in its row. */
  lemma {:induction false} DisabledRowEmpty(jobs: seq<SimulationJob>, i: int, j: int)
    requires 0 <= i < |jobs| && j <= |jobs| && !jobs[i].enabled
    ensures RowWarnings(jobs, i, j) == []
    decreases j
  {
    if j > i + 1 {
      DisabledRowEmpty(jobs, i, j - 1);
    }
  }

  /** Jobs `a` and `b`, in that order, draw warning `w`. */
  predicate Draws(a: SimulationJob, b: SimulationJob, w: Warning) {
    OverlapWarning(a, b) == Some(w)
  }

  /** Job `a` and some later job before position `j` draw `w`. */
  predicate DrawnInRow(jobs: seq<SimulationJob>, a: int, j: int, w: Warning)
    requires 0 <= a < |jobs| && j <= |jobs|
  {
    exists b :: a < b < j && Draws(jobs[a], jobs[b], w)
  }

  /** Some pair a < b with a among the first `i` jobs draws `w`. */
  predicate DrawnBefore(jobs: seq<SimulationJob>, i: int, w: Warning) {
    exists a, b :: 0 <= a < i && a < b < |jobs| && Draws(jobs[a], jobs[b], w)
  }

  /** A row holds exactly the warnings of its overlapping pairs. */
  lemma {:induction false} RowWarningsExactly(jobs: seq<SimulationJob>, i: int, j: int)
    requires 0 <= i < |jobs| && j <= |jobs|
    ensures forall w :: w in RowWarnings(jobs, i, j) <==> DrawnInRow(jobs, i, j, w)
    decreases j
  {
    if j > i + 1 {
      RowWarningsExactly(jobs, i, j - 1);
      forall w ensures DrawnInRow(jobs, i, j, w) <==> DrawnInRow(jobs, i, j - 1, w) || Draws(jobs[i], jobs[j - 1], w) {
        if DrawnInRow(jobs, i, j, w) {
          var b :| i < b < j && Draws(jobs[i], jobs[b], w);
          if b < j - 1 {
            assert DrawnInRow(jobs, i, j - 1, w);
          }
        }
      }
    }
  }

  /** Drawn by a pair whose first job is among the first i: among the first i - 1, or in row i - 1. */
  lemma DrawnBeforeStep(jobs: seq<SimulationJob>, i: int, w: Warning)
    requires 0 < i <= |jobs|
    ensures DrawnBefore(jobs, i, w) <==> DrawnBefore(jobs, i - 1, w) || DrawnInRow(jobs, i - 1, |jobs|, w)
  {
    if DrawnBefore(jobs, i, w) {
      var a, b :| 0 <= a < i && a < b < |jobs| && Draws(jobs[a], jobs[b], w);
      if a == i - 1 {
        assert DrawnInRow(jobs, i - 1, |jobs|, w);
      } else {
        assert DrawnBefore(jobs, i - 1, w);
      }
    }
    if DrawnInRow(jobs, i - 1, |jobs|, w) {
      var b :| i - 1 < b < |jobs| && Draws(jobs[i - 1], jobs[b], w);
      assert 0 <= i - 1 < i && i - 1 < b < |jobs| && Draws(jobs[i - 1], jobs[b], w);
    }
  }

  /** The warnings are exactly those of the pairs a < b that overlap. */
  lemma {:induction false} PairWarningsExactly(jobs: seq<SimulationJob>, i: int)
    requires 0 <= i <= |jobs|
    ensures forall w :: w in PairWarnings(jobs, i) <==> DrawnBefore(jobs, i, w)
  {
    if i > 0 {
      PairWarningsExactly(jobs, i - 1);
      RowWarningsExactly(jobs, i - 1, |jobs|);
      forall w ensures w in PairWarnings(jobs, i) <==> DrawnBefore(jobs, i, w) {
        DrawnBeforeStep(jobs, i, w);
      }
    }
  }

  /** What checkOverlaps has produced once it reaches pair (i, j): all earlier rows, then row i up to j. */
  function Scanned(jobs: seq<SimulationJob>, i: int, j: int): seq<Warning>
    requires 0 <= i < |jobs| && j <= |jobs|
  {
    PairWarnings(jobs, i) + RowWarnings(jobs, i, j)
  }

  /** Moving from pair (i, j) to (i, j + 1) appends that pair's warning, if any. */
  lemma ScannedStep(jobs: seq<SimulationJob>, i: int, j: int)
    requires 0 <= i < j < |jobs|
    ensures OverlapWarning(jobs[i], jobs[j]).None? ==> Scanned(jobs, i, j + 1) == Scanned(jobs, i, j)
    ensures OverlapWarning(jobs[i], jobs[j]).Some? ==>
              Scanned(jobs, i, j + 1) == Scanned(jobs, i, j) + [OverlapWarning(jobs[i], jobs[j]).value]
  {
    var p := PairWarnings(jobs, i);
    var row := RowWarnings(jobs, i, j);
    if OverlapWarning(jobs[i], jobs[j]).Some? {
      assert p + (row + [OverlapWarning(jobs[i], jobs[j]).value]) == (p + row) + [OverlapWarning(jobs[i], jobs[j]).value];
    } else {
      assert row + [] == row;
    }
  }

  /** A row starts empty, and a finished row completes the next prefix of rows. */
  lemma ScannedRow(jobs: seq<SimulationJob>, i: int)
    requires 0 <= i < |jobs|
    ensures Scanned(jobs, i, i + 1) == PairWarnings(jobs, i)
    ensures Scanned(jobs, i, |jobs|) == PairWarnings(jobs, i + 1)
    ensures !jobs[i].enabled ==> PairWarnings(jobs, i + 1) == PairWarnings(jobs, i)
  {
    assert PairWarnings(jobs, i) + [] == PairWarnings(jobs, i);
    if !jobs[i].enabled {
      DisabledRowEmpty(jobs, i, |jobs|);
    }
  }

  /** checkOverlaps: each pair i < j of enabled jobs, in lexicographic order, warned about when their ranges meet. */
  method CheckOverlaps(jobs: seq<SimulationJob>) returns (warnings: seq<Warning>)
    ensures warnings == PairWarnings(jobs, |jobs|)
  {
    warnings := [];
    for i := 0 to |jobs|
      invariant warnings == PairWarnings(jobs, i)
    {
      ScannedRow(jobs, i);
      if !jobs[i].enabled {
        continue;
      }
      warnings := ScanRow(jobs, i, warnings);
    }
  }

  /** The inner loop of checkOverlaps for an enabled job i: each later job j in turn. */
  method ScanRow(jobs: seq<SimulationJob>, i: int, before: seq<Warning>) returns (warnings: seq<Warning>)
    requires 0 <= i < |jobs| && jobs[i].enabled && before == Scanned(jobs, i, i + 1)
    ensures warnings == Scanned(jobs, i, |jobs|)
  {
    warnings := before;
    for j := i + 1 to |jobs|
      invariant warnings == Scanned(jobs, i, j)
    {
      ScannedStep(jobs, i, j);
      if !jobs[j].enabled {
        continue;
      }
      var overlapStart := Max(jobs[i].startFrame, jobs[j].startFrame);
      var overlapEnd := Min(jobs[i].endFrame, jobs[j].endFrame);
      if overlapStart <= overlapEnd {
        warnings := warnings + [Overlap(jobs[i].name, jobs[j].name, overlapStart, overlapEnd)];
      }
    }
  }

  // ---------------------------------------------------------------------------
  // The whole validation

  /** Every frame 1..totalFrames is covered by some enabled job. */
  predicate FullyCovered(totalFrames: int, jobs: seq<SimulationJob>) {
    forall f :: 1 <= f <= totalFrames ==> CoveredByAny(jobs, f)
  }

  /**
   * validate: range errors first; only when there are none are uncovered
   * frames computed, and a non-empty list adds one error; overlap warnings
   * never affect validity. A configuration is valid exactly when every job is
   * well ranged and every frame is covered by an enabled job. With jobs present
   * a negative frame count always produces a range error, so the coverage table
   * is only built when totalFrames >= -1 or there are no jobs.
   */
  method Validate(config: PipelineConfig) returns (result: ValidationResult)
    requires config.totalFrames >= -1 || config.jobs != []
    ensures AllRangeErrors(config.totalFrames, config.jobs) != [] ==>
              result.errors == AllRangeErrors(config.totalFrames, config.jobs) && result.uncoveredFrames == []
    ensures AllRangeErrors(config.totalFrames, config.jobs) == [] ==>
              && Increasing(result.uncoveredFrames)
              && (forall f :: f in result.uncoveredFrames <==> 1 <= f <= config.totalFrames && !CoveredByAny(config.jobs, f))
              && result.errors == (if result.uncoveredFrames == [] then [] else [UncoveredFrames(result.uncoveredFrames)])
    ensures result.warnings == PairWarnings(config.jobs, |config.jobs|)
    ensures result.isValid <==>
              (forall k :: 0 <= k < |config.jobs| ==> WellRanged(config.totalFrames, config.jobs[k]))
              && FullyCovered(config.totalFrames, config.jobs)
  {
    result := InitialValidationResult;
    var errors := ValidateJobRanges(config.totalFrames, config.jobs);
    NoRangeErrorsIff(config.totalFrames, config.jobs);
    result := result.(errors := errors);
    if errors == [] {
      if config.jobs == [] {
        assert config.totalFrames >= -1;
      } else {
        assert WellRanged(config.totalFrames, config.jobs[0]);
      }
      var uncovered := FindUncoveredFrames(config.totalFrames, config.jobs);
      result := result.(uncoveredFrames := uncovered);
      if uncovered != [] {
        assert uncovered[0] in uncovered;
        result := result.(errors := result.errors + [UncoveredFrames(uncovered)]);
      } else {
        forall f | 1 <= f <= config.totalFrames ensures CoveredByAny(config.jobs, f) {
          assert f !in uncovered;
        }
      }
    }
    var warnings := CheckOverlaps(config.jobs);
    result := result.(warnings := warnings);
    result := result.(isValid := result.errors == [] && result.uncoveredFrames == []);
  }

  /** With no jobs and at least one frame, every frame is uncovered and the configuration is invalid. */
  lemma NoJobsInvalid(totalFrames: int)
    requires totalFrames >= 1
    ensures !FullyCovered(totalFrames, [])
  {
    assert !CoveredByAny([], 1);
  }
}
