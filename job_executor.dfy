/**
 * The job executor: frames 1..totalFrames run in increasing order; in each
 * frame the enabled jobs covering it run in configuration order, each
 * bracketed by the optional start and end callbacks, and the optional frame
 * callback fires after the frame's jobs with the terrain as it then is.
 *
 * The callbacks are code outside this model: what they are called with is
 * recorded as a trace of events. Hydraulic erosion itself is floating-point
 * physics outside this model too: it is a given function from the terrain's
 * cells, its dimensions, the erosion parameters and the particle count to new
 * cells of the same number.
 */
module JobExecutor {
  import opened SimulationJobs
  import opened Heightmaps

  // ---------------------------------------------------------------------------
  // The hydraulic job's parameters

  /** The erosion simulator's parameters, with the defaults it declares. */
  datatype HydraulicErosionParams = HydraulicErosionParams(
    maxIterations: int,
    inertia: real,
    sedimentCapacityFactor: real,
    minSedimentCapacity: real,
    erodeSpeed: real,
    depositSpeed: real,
    evaporateSpeed: real,
    gravity: real,
    maxDropletSpeed: real,
    erosionRadius: int)

  const DefaultParams: HydraulicErosionParams :=
    HydraulicErosionParams(30, 0.05, 4.0, 0.01, 0.3, 0.3, 0.01, 4.0, 10.0, 1)

  /** applyJob's field mapping from a hydraulic job's configuration to the simulator's parameters. */
  function ParamsFor(c: HydraulicErosionConfig): HydraulicErosionParams {
    DefaultParams.(
      maxIterations := c.maxLifetime,
      inertia := c.inertia,
      sedimentCapacityFactor := c.sedimentCapacity,
      minSedimentCapacity := c.minSlope,
      erodeSpeed := c.erosionRate,
      depositSpeed := c.depositionRate,
      evaporateSpeed := c.evaporationRate,
      gravity := c.gravity)
  }

  /** The job's default configuration maps onto the simulator's own defaults. */
  lemma DefaultConfigGivesDefaultParams()
    ensures ParamsFor(DefaultHydraulic) == DefaultParams
  {
  }

  /**
   * The mapping never looks at the particle count (passed to erode on its own)
   * nor at initialWater and initialSpeed, and always keeps the simulator's
   * default droplet speed and erosion radius.
   */
  lemma ParamsIgnoreUnmappedFields(c: HydraulicErosionConfig, n: int, water: real, speed: real)
    ensures ParamsFor(c.(numParticles := n, initialWater := water, initialSpeed := speed)) == ParamsFor(c)
    ensures ParamsFor(c).maxDropletSpeed == DefaultParams.maxDropletSpeed
    ensures ParamsFor(c).erosionRadius == DefaultParams.erosionRadius
  {
  }

  /** `erode(terrain, numParticles)` of a simulator built from the given parameters. */
  type Erosion = (nat, nat, seq<real>, HydraulicErosionParams, int) -> seq<real>

  /** Erosion changes elevations, never the number of cells. */
  ghost predicate PreservesSize(erode: Erosion) {
    forall w: nat, h: nat, cells: seq<real>, p: HydraulicErosionParams, n: int ::
      |erode(w, h, cells, p, n)| == |cells|
  }

  /** The terrain after one job: a hydraulic job erodes it, a thermal job leaves it as it is. */
  function AfterJob(erode: Erosion, w: nat, h: nat, cells: seq<real>, job: SimulationJob): seq<real> {
    match job.config
    case Hydraulic(c) => erode(w, h, cells, ParamsFor(c), c.numParticles)
    case Thermal(_) => cells
  }

  /** A thermal job never changes the terrain, whatever its configuration. */
  lemma ThermalLeavesTerrain(erode: Erosion, w: nat, h: nat, cells: seq<real>, job: SimulationJob)
    requires job.config.Thermal?
    ensures AfterJob(erode, w, h, cells, job) == cells
  {
  }

  /** applyJob */
  method ApplyJob(job: SimulationJob, terrain: Heightmap, erode: Erosion)
    requires terrain.Valid() && PreservesSize(erode)
    modifies terrain.data
    ensures terrain.Cells() == AfterJob(erode, terrain.width, terrain.height, old(terrain.Cells()), job)
  {
    match job.config
    case Hydraulic(c) =>
      var params := ParamsFor(c);
      var eroded := erode(terrain.width, terrain.height, terrain.Cells(), params, c.numParticles);
      terrain.Load(eroded);
    case Thermal(_) =>
  }

  // ---------------------------------------------------------------------------
  // Which jobs run in a frame

  /** The enabled jobs whose inclusive range holds `frame`, in configuration order. */
  function FrameJobs(jobs: seq<SimulationJob>, frame: int): (r: seq<SimulationJob>)
    ensures |r| <= |jobs|
  {
    if jobs == [] then []
    else FrameJobs(jobs[..|jobs| - 1], frame) + (if Covers(jobs[|jobs| - 1], frame) then [jobs[|jobs| - 1]] else [])
  }

  /** A frame runs a job exactly when the job is in the configuration, enabled and covering the frame. */
  lemma {:induction false} FrameJobsExactly(jobs: seq<SimulationJob>, frame: int)
    ensures forall job :: job in FrameJobs(jobs, frame) <==> job in jobs && Covers(job, frame)
  {
    if jobs != [] {
      var init := jobs[..|jobs| - 1];
      FrameJobsExactly(init, frame);
      assert jobs == init + [jobs[|jobs| - 1]];
    }
  }

  /** Selection keeps configuration order: the jobs of a concatenation are those of each part, in turn. */
  lemma {:induction false} FrameJobsAppend(a: seq<SimulationJob>, b: seq<SimulationJob>, frame: int)
    ensures FrameJobs(a + b, frame) == FrameJobs(a, frame) + FrameJobs(b, frame)
    decreases |b|
  {
    if b == [] {
      assert a + b == a;
    } else {
      var init := b[..|b| - 1];
      var last := b[|b| - 1];
      var tail := if Covers(last, frame) then [last] else [];
      FrameJobsAppend(a, init, frame);
      assert (a + b)[..|a + b| - 1] == a + init;
      assert FrameJobs(a + b, frame) == FrameJobs(a + init, frame) + tail;
      assert FrameJobs(b, frame) == FrameJobs(init, frame) + tail;
      assert FrameJobs(a, frame) + FrameJobs(init, frame) + tail == FrameJobs(a, frame) + (FrameJobs(init, frame) + tail);
    }
  }

  /** getJobsForFrame */
  method GetJobsForFrame(frame: int, jobs: seq<SimulationJob>) returns (result: seq<SimulationJob>)
    ensures result == FrameJobs(jobs, frame)
  {
    result := [];
    for k := 0 to |jobs|
      invariant result == FrameJobs(jobs[..k], frame)
    {
      var job := jobs[k];
      assert jobs[..k + 1][..k] == jobs[..k];
      if job.enabled && frame >= job.startFrame && frame <= job.endFrame {
        result := result + [job];
      }
    }
    assert jobs[..|jobs|] == jobs;
  }

  // ---------------------------------------------------------------------------
  // Events and the schedule

  /** What the callbacks are called with, and each job application, in the order they happen. */
  datatype Event =
    | JobStarted(id: string, name: string, frame: int)
    | JobApplied(id: string, frame: int)
    | JobEnded(id: string, name: string, frame: int)
    | FrameCompleted(frame: int, terrain: seq<real>)

  /** Which of the three callbacks were supplied; a missing one is skipped. */
  datatype Callbacks = Callbacks(onFrameComplete: bool, onJobStart: bool, onJobEnd: bool)

  /** One job in one frame: start callback, the application, end callback. */
  function JobEvents(job: SimulationJob, frame: int, cb: Callbacks): seq<Event> {
    (if cb.onJobStart then [JobStarted(job.id, job.name, frame)] else [])
    + [JobApplied(job.id, frame)]
    + (if cb.onJobEnd then [JobEnded(job.id, job.name, frame)] else [])
  }

  /** The events of running `jobs` in one frame, one job after the other. */
  function FrameEvents(jobs: seq<SimulationJob>, frame: int, cb: Callbacks): seq<Event> {
    if jobs == [] then []
    else FrameEvents(jobs[..|jobs| - 1], frame, cb) + JobEvents(jobs[|jobs| - 1], frame, cb)
  }

  /** The terrain after running `jobs` one after the other. */
  function AfterJobs(erode: Erosion, w: nat, h: nat, cells: seq<real>, jobs: seq<SimulationJob>): seq<real> {
    if jobs == [] then cells
    else AfterJob(erode, w, h, AfterJobs(erode, w, h, cells, jobs[..|jobs| - 1]), jobs[|jobs| - 1])
  }

  /** The terrain after frames 1..n. */
  function AfterFrames(erode: Erosion, w: nat, h: nat, cells: seq<real>, jobs: seq<SimulationJob>, n: int): seq<real>
    decreases n
  {
    if n <= 0 then cells
    else AfterJobs(erode, w, h, AfterFrames(erode, w, h, cells, jobs, n - 1), FrameJobs(jobs, n))
  }

  /** The events of frames 1..n: each frame's job events, then its completion with the terrain as it then is. */
  function Trace(erode: Erosion, w: nat, h: nat, cells: seq<real>, jobs: seq<SimulationJob>, n: int, cb: Callbacks): seq<Event>
    decreases n
  {
    if n <= 0 then []
    else
      Trace(erode, w, h, cells, jobs, n - 1, cb)
      + FrameEvents(FrameJobs(jobs, n), n, cb)
      + (if cb.onFrameComplete then [FrameCompleted(n, AfterFrames(erode, w, h, cells, jobs, n))] else [])
  }

  /** executeFrame: each job of the frame in turn, between its start and end callbacks. */
  method ExecuteFrame(frame: int, jobs: seq<SimulationJob>, terrain: Heightmap, erode: Erosion, cb: Callbacks)
    returns (events: seq<Event>)
    requires terrain.Valid() && PreservesSize(erode)
    modifies terrain.data
    ensures terrain.Cells() == AfterJobs(erode, terrain.width, terrain.height, old(terrain.Cells()), jobs)
    ensures events == FrameEvents(jobs, frame, cb)
  {
    events := [];
    for k := 0 to |jobs|
      invariant terrain.Cells() == AfterJobs(erode, terrain.width, terrain.height, old(terrain.Cells()), jobs[..k])
      invariant events == FrameEvents(jobs[..k], frame, cb)
    {
      var job := jobs[k];
      ghost var done := jobs[..k + 1];
      assert done[..|done| - 1] == jobs[..k] && done[|done| - 1] == job;
      var jobEvents := [];
      if cb.onJobStart {
        jobEvents := jobEvents + [JobStarted(job.id, job.name, frame)];
      }
      ApplyJob(job, terrain, erode);
      jobEvents := jobEvents + [JobApplied(job.id, frame)];
      if cb.onJobEnd {
        jobEvents := jobEvents + [JobEnded(job.id, job.name, frame)];
      }
      assert jobEvents == JobEvents(job, frame, cb);
      events := events + jobEvents;
    }
    assert jobs[..|jobs|] == jobs;
  }

  /** execute: frames 1..totalFrames in order, the frame callback after each frame's jobs. */
  method Execute(config: PipelineConfig, terrain: Heightmap, erode: Erosion, cb: Callbacks)
    returns (events: seq<Event>)
    requires terrain.Valid() && PreservesSize(erode)
    modifies terrain.data
    ensures terrain.Cells() ==
            AfterFrames(erode, terrain.width, terrain.height, old(terrain.Cells()), config.jobs, config.totalFrames)
    ensures events == Trace(erode, terrain.width, terrain.height, old(terrain.Cells()), config.jobs, config.totalFrames, cb)
  {
    ghost var start := terrain.Cells();
    ghost var last := if config.totalFrames < 1 then 0 else config.totalFrames;
    ghost var w, h := terrain.width, terrain.height;
    events := [];
    var frame := 1;
    while frame <= config.totalFrames
      invariant 1 <= frame <= last + 1
      invariant terrain.Valid() && terrain.width == w && terrain.height == h
      invariant terrain.Cells() == AfterFrames(erode, w, h, start, config.jobs, frame - 1)
      invariant events == Trace(erode, w, h, start, config.jobs, frame - 1, cb)
    {
      ghost var cells := terrain.Cells();
      var frameJobs := GetJobsForFrame(frame, config.jobs);
      var frameEvents := ExecuteFrame(frame, frameJobs, terrain, erode, cb);
      var after := terrain.Cells();
      var completion := if cb.onFrameComplete then [FrameCompleted(frame, after)] else [];
      FrameStep(erode, w, h, start, config.jobs, frame, cb, events, cells, frameEvents, after);
      events := events + frameEvents + completion;
      frame := frame + 1;
    }
    if config.totalFrames < 1 {
      NoFrames(erode, w, h, start, config.jobs, config.totalFrames, cb);
    }
  }

  /** Running frame n's jobs on the terrain after frame n - 1 extends the trace by frame n's events. */
  lemma FrameStep(erode: Erosion, w: nat, h: nat, start: seq<real>, jobs: seq<SimulationJob>, n: int, cb: Callbacks,
                  events: seq<Event>, cells: seq<real>, frameEvents: seq<Event>, after: seq<real>)
    requires n >= 1
    requires cells == AfterFrames(erode, w, h, start, jobs, n - 1)
    requires events == Trace(erode, w, h, start, jobs, n - 1, cb)
    requires after == AfterJobs(erode, w, h, cells, FrameJobs(jobs, n))
    requires frameEvents == FrameEvents(FrameJobs(jobs, n), n, cb)
    ensures after == AfterFrames(erode, w, h, start, jobs, n)
    ensures events + frameEvents + (if cb.onFrameComplete then [FrameCompleted(n, after)] else []) ==
            Trace(erode, w, h, start, jobs, n, cb)
  {
    TraceStep(erode, w, h, start, jobs, n, cb);
  }

  /** No frame to run leaves the terrain as it was and reports nothing. */
  lemma NoFrames(erode: Erosion, w: nat, h: nat, cells: seq<real>, jobs: seq<SimulationJob>, n: int, cb: Callbacks)
    requires n < 1
    ensures AfterFrames(erode, w, h, cells, jobs, n) == AfterFrames(erode, w, h, cells, jobs, 0) == cells
    ensures Trace(erode, w, h, cells, jobs, n, cb) == Trace(erode, w, h, cells, jobs, 0, cb) == []
  {
  }

  /** One more frame: its jobs run on the terrain so far, and its events follow the earlier ones. */
  lemma TraceStep(erode: Erosion, w: nat, h: nat, cells: seq<real>, jobs: seq<SimulationJob>, n: int, cb: Callbacks)
    requires n >= 1
    ensures AfterFrames(erode, w, h, cells, jobs, n) ==
            AfterJobs(erode, w, h, AfterFrames(erode, w, h, cells, jobs, n - 1), FrameJobs(jobs, n))
    ensures Trace(erode, w, h, cells, jobs, n, cb) ==
            Trace(erode, w, h, cells, jobs, n - 1, cb) + FrameEvents(FrameJobs(jobs, n), n, cb)
            + (if cb.onFrameComplete then [FrameCompleted(n, AfterFrames(erode, w, h, cells, jobs, n))] else [])
  {
  }

  // ---------------------------------------------------------------------------
  // Properties of the schedule

  /** The frames reported complete, in the order reported. */
  function CompletedFrames(events: seq<Event>): seq<int> {
    if events == [] then []
    else CompletedFrames(events[..|events| - 1])
         + (if events[|events| - 1].FrameCompleted? then [events[|events| - 1].frame] else [])
  }

  /** The job applications, in the order they happen. */
  function Applications(events: seq<Event>): seq<Event> {
    if events == [] then []
    else Applications(events[..|events| - 1])
         + (if events[|events| - 1].JobApplied? then [events[|events| - 1]] else [])
  }

  lemma {:induction false} CompletedFramesAppend(a: seq<Event>, b: seq<Event>)
    ensures CompletedFrames(a + b) == CompletedFrames(a) + CompletedFrames(b)
    decreases |b|
  {
    if b == [] {
      assert a + b == a;
    } else {
      CompletedFramesAppend(a, b[..|b| - 1]);
      assert (a + b)[..|a + b| - 1] == a + b[..|b| - 1];
    }
  }

  lemma {:induction false} ApplicationsAppend(a: seq<Event>, b: seq<Event>)
    ensures Applications(a + b) == Applications(a) + Applications(b)
    decreases |b|
  {
    if b == [] {
      assert a + b == a;
    } else {
      ApplicationsAppend(a, b[..|b| - 1]);
      assert (a + b)[..|a + b| - 1] == a + b[..|b| - 1];
    }
  }

  /** One job's events hold no frame completion and exactly its one application. */
  lemma JobEventsContent(job: SimulationJob, frame: int, cb: Callbacks)
    ensures CompletedFrames(JobEvents(job, frame, cb)) == []
    ensures Applications(JobEvents(job, frame, cb)) == [JobApplied(job.id, frame)]
  {
    var s := if cb.onJobStart then [JobStarted(job.id, job.name, frame)] else [];
    var a := [JobApplied(job.id, frame)];
    var e := if cb.onJobEnd then [JobEnded(job.id, job.name, frame)] else [];
    assert CompletedFrames(s) == [] && Applications(s) == [] by {
      assert s == [] || s[..|s| - 1] == [];
    }
    assert CompletedFrames(e) == [] && Applications(e) == [] by {
      assert e == [] || e[..|e| - 1] == [];
    }
    assert CompletedFrames(a) == [] && Applications(a) == a by {
      assert a[..|a| - 1] == [];
    }
    CompletedFramesAppend(s, a);
    CompletedFramesAppend(s + a, e);
    ApplicationsAppend(s, a);
    ApplicationsAppend(s + a, e);
  }

  /** A frame's job events hold no frame completion, and exactly one application per job, in job order. */
  lemma {:induction false} FrameEventsContent(jobs: seq<SimulationJob>, frame: int, cb: Callbacks)
    ensures CompletedFrames(FrameEvents(jobs, frame, cb)) == []
    ensures Applications(FrameEvents(jobs, frame, cb)) == AppliedEvents(jobs, frame)
  {
    if jobs != [] {
      var init := jobs[..|jobs| - 1];
      var job := jobs[|jobs| - 1];
      FrameEventsContent(init, frame, cb);
      JobEventsContent(job, frame, cb);
      CompletedFramesAppend(FrameEvents(init, frame, cb), JobEvents(job, frame, cb));
      ApplicationsAppend(FrameEvents(init, frame, cb), JobEvents(job, frame, cb));
    }
  }

  /** One application event per job, in job order. */
  function AppliedEvents(jobs: seq<SimulationJob>, frame: int): (r: seq<Event>)
    ensures |r| == |jobs|
  {
    if jobs == [] then []
    else AppliedEvents(jobs[..|jobs| - 1], frame) + [JobApplied(jobs[|jobs| - 1].id, frame)]
  }

  /** 1, 2, .., n */
  function FramesUpTo(n: int): (r: seq<int>)
    ensures |r| == if n <= 0 then 0 else n
    ensures forall k :: 0 <= k < |r| ==> r[k] == k + 1
    decreases n
  {
    if n <= 0 then [] else FramesUpTo(n - 1) + [n]
  }

  /** Events that report no frame leave the reported frames of what surrounds them unchanged. */
  lemma CompletedAround(a: seq<Event>, b: seq<Event>, c: seq<Event>)
    requires CompletedFrames(b) == []
    ensures CompletedFrames(a + b + c) == CompletedFrames(a) + CompletedFrames(c)
  {
    CompletedFramesAppend(a, b);
    assert CompletedFrames(a) + [] == CompletedFrames(a);
    CompletedFramesAppend(a + b, c);
  }

  /**
   * With a frame callback, it is called exactly once per frame, for frames
   * 1..totalFrames in increasing order, frames without jobs included; without
   * one, nothing is reported.
   */
  lemma {:induction false} EveryFrameCompletesInOrder(
    erode: Erosion, w: nat, h: nat, cells: seq<real>, jobs: seq<SimulationJob>, n: int, cb: Callbacks)
    ensures CompletedFrames(Trace(erode, w, h, cells, jobs, n, cb)) == if cb.onFrameComplete then FramesUpTo(n) else []
    decreases n
  {
    if n > 0 {
      var before := Trace(erode, w, h, cells, jobs, n - 1, cb);
      var frameEvents := FrameEvents(FrameJobs(jobs, n), n, cb);
      var done := if cb.onFrameComplete then [FrameCompleted(n, AfterFrames(erode, w, h, cells, jobs, n))] else [];
      TraceStep(erode, w, h, cells, jobs, n, cb);
      EveryFrameCompletesInOrder(erode, w, h, cells, jobs, n - 1, cb);
      FrameEventsContent(FrameJobs(jobs, n), n, cb);
      CompletionEvent(n, AfterFrames(erode, w, h, cells, jobs, n), cb.onFrameComplete);
      CompletedAround(before, frameEvents, done);
      if cb.onFrameComplete {
        assert FramesUpTo(n) == FramesUpTo(n - 1) + [n];
      } else {
        assert CompletedFrames(before) + CompletedFrames(done) == [] + [];
      }
    }
  }

  /** Every application of frames 1..n, frame by frame, each frame's jobs in configuration order. */
  function Schedule(jobs: seq<SimulationJob>, n: int): seq<Event>
    decreases n
  {
    if n <= 0 then [] else Schedule(jobs, n - 1) + AppliedEvents(FrameJobs(jobs, n), n)
  }

  /** The jobs that run do not depend on which callbacks are supplied. */
  lemma {:induction false} ApplicationsFollowSchedule(
    erode: Erosion, w: nat, h: nat, cells: seq<real>, jobs: seq<SimulationJob>, n: int, cb: Callbacks)
    ensures Applications(Trace(erode, w, h, cells, jobs, n, cb)) == Schedule(jobs, n)
    decreases n
  {
    if n > 0 {
      var before := Trace(erode, w, h, cells, jobs, n - 1, cb);
      var frameEvents := FrameEvents(FrameJobs(jobs, n), n, cb);
      var done := if cb.onFrameComplete then [FrameCompleted(n, AfterFrames(erode, w, h, cells, jobs, n))] else [];
      TraceStep(erode, w, h, cells, jobs, n, cb);
      ApplicationsFollowSchedule(erode, w, h, cells, jobs, n - 1, cb);
      FrameEventsContent(FrameJobs(jobs, n), n, cb);
      ApplicationsAppend(before, frameEvents);
      ApplicationsAppend(before + frameEvents, done);
      CompletionEvent(n, AfterFrames(erode, w, h, cells, jobs, n), cb.onFrameComplete);
      var applied := AppliedEvents(FrameJobs(jobs, n), n);
      assert Schedule(jobs, n) == Schedule(jobs, n - 1) + applied;
      assert Applications(before + frameEvents + done) == Schedule(jobs, n - 1) + applied + [];
    }
  }

  /** The event closing frame `n`, when there is a frame callback: it reports frame n and applies no job. */
  lemma CompletionEvent(n: int, terrain: seq<real>, onFrameComplete: bool)
    ensures var done := if onFrameComplete then [FrameCompleted(n, terrain)] else [];
            CompletedFrames(done) == (if onFrameComplete then [n] else []) && Applications(done) == []
  {
    var done := if onFrameComplete then [FrameCompleted(n, terrain)] else [];
    assert done == [] || done[..|done| - 1] == [];
  }

  /** How many of frames 1..n job `job` covers: |[startFrame, endFrame] ∩ [1, n]| if enabled, else 0. */
  function FramesCovered(job: SimulationJob, n: int): (c: nat) {
    var lo := if job.startFrame >= 1 then job.startFrame else 1;
    var hi := if job.endFrame <= n then job.endFrame else n;
    if job.enabled && lo <= hi then hi - lo + 1 else 0
  }

  /** The sum of FramesCovered over all jobs. */
  function TotalCovered(jobs: seq<SimulationJob>, n: int): nat {
    if jobs == [] then 0
    else TotalCovered(jobs[..|jobs| - 1], n) + FramesCovered(jobs[|jobs| - 1], n)
  }

  /** Extending the frame range by frame n adds one frame for each job covering it. */
  lemma {:induction false} TotalCoveredStep(jobs: seq<SimulationJob>, n: int)
    requires n >= 1
    ensures TotalCovered(jobs, n) == TotalCovered(jobs, n - 1) + |FrameJobs(jobs, n)|
  {
    if jobs != [] {
      TotalCoveredStep(jobs[..|jobs| - 1], n);
    }
  }

  lemma {:induction false} NothingCoveredBeforeFrameOne(jobs: seq<SimulationJob>, n: int)
    requires n <= 0
    ensures TotalCovered(jobs, n) == 0
  {
    if jobs != [] {
      NothingCoveredBeforeFrameOne(jobs[..|jobs| - 1], n);
    }
  }

  /**
   * The number of job executions over a run of n frames is the sum, over the
   * enabled jobs, of how many of frames 1..n each one covers.
   */
  lemma {:induction false} ExecutionCount(jobs: seq<SimulationJob>, n: int)
    ensures |Schedule(jobs, n)| == TotalCovered(jobs, n)
    decreases n
  {
    if n <= 0 {
      NothingCoveredBeforeFrameOne(jobs, n);
    } else {
      ExecutionCount(jobs, n - 1);
      TotalCoveredStep(jobs, n);
    }
  }
}
