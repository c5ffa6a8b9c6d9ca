/**
 * The shared data model of the simulation pipeline: erosion and modelling
 * configurations with their default values, a job applying one erosion
 * algorithm to an inclusive, 1-based frame range, the whole pipeline
 * configuration, and the result of validating it.
 * C++ `double` fields are reals here; `int` fields are integers kept in the
 * 32-bit range by whoever fills them (the parser wraps them explicitly).
 */
module SimulationJobs {

  datatype HydraulicErosionConfig = HydraulicErosionConfig(
    numParticles: int,
    erosionRate: real,
    depositionRate: real,
    evaporationRate: real,
    sedimentCapacity: real,
    minSlope: real,
    inertia: real,
    gravity: real,
    maxLifetime: int,
    initialWater: real,
    initialSpeed: real)

  const DefaultHydraulic: HydraulicErosionConfig :=
    HydraulicErosionConfig(50000, 0.3, 0.3, 0.01, 4.0, 0.01, 0.05, 4.0, 30, 1.0, 1.0)

  datatype ThermalErosionConfig = ThermalErosionConfig(
    talusAngle: real,
    transferRate: real,
    iterations: int)

  const DefaultThermal: ThermalErosionConfig := ThermalErosionConfig(0.7, 0.5, 100)

  /** The five ways step 0 can generate the initial terrain. */
  datatype Method = PerlinNoise | Fbm | SemiSphere | Cone | Sigmoid

  datatype ModelingConfig = ModelingConfig(
    modelingMethod: Method,
    seed: int,
    frequency: real,
    amplitude: real,
    octaves: int,
    persistence: real,
    lacunarity: real,
    radius: real,
    height: real)

  const DefaultModeling: ModelingConfig :=
    ModelingConfig(Fbm, 12345, 0.01, 50.0, 6, 0.5, 2.0, 128.0, 100.0)

  /** A job's configuration is exactly one of the two erosion variants. */
  datatype JobConfig = Hydraulic(hydraulic: HydraulicErosionConfig) | Thermal(thermal: ThermalErosionConfig)

  /** A job covers the frames startFrame..endFrame, both included, counting from 1. */
  datatype SimulationJob = SimulationJob(
    id: string,
    name: string,
    startFrame: int,
    endFrame: int,
    config: JobConfig,
    enabled: bool)

  datatype PipelineConfig = PipelineConfig(
    totalFrames: int,
    step0: ModelingConfig,
    jobs: seq<SimulationJob>)

  const DefaultPipeline: PipelineConfig := PipelineConfig(10, DefaultModeling, [])

  /** Job `job` is switched on and its inclusive range holds `frame`. */
  predicate Covers(job: SimulationJob, frame: int) {
    job.enabled && job.startFrame <= frame <= job.endFrame
  }

  /** A non-fatal finding: two enabled jobs share the frames from..to. */
  datatype Warning = Overlap(firstName: string, secondName: string, from: int, to: int)

  /** A fatal finding about one job's range, or the frames nothing covers. */
  datatype ValidationError =
    | StartBelowOne(name: string, startFrame: int)
    | EndBeyondTotal(name: string, endFrame: int, totalFrames: int)
    | StartAfterEnd(name: string, startFrame: int, endFrame: int)
    | UncoveredFrames(frames: seq<int>)

  datatype ValidationResult = ValidationResult(
    isValid: bool,
    uncoveredFrames: seq<int>,
    warnings: seq<Warning>,
    errors: seq<ValidationError>)

  const InitialValidationResult: ValidationResult := ValidationResult(false, [], [], [])
}
