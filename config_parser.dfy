/**
 * Turning a parsed JSON tree into a PipelineConfig: a schema check of the top
 * level, then step 0's modelling configuration, then the jobs array one job at
 * a time. Every optional field overwrites its default only when present;
 * every failure is an exception, modelled as an Err carrying what was thrown.
 */
module ConfigParser {
  import opened Wrappers
  import opened JsonTree
  import opened SimulationJobs

  /**
   * What parsing throws: a std::runtime_error with its message, or the JSON
   * library's type error when `get<T>()` meets a value of another type.
   */
  datatype ParseError = RuntimeError(message: string) | TypeError(expected: string)

  function Lift<T>(r: Result<T, string>): (l: Result<T, ParseError>)
    ensures l.Ok? <==> r.Ok?
    ensures r.Ok? ==> l.value == r.value
  {
    match r
    case Ok(v) => Ok(v)
    case Err(e) => Err(TypeError(e))
  }

  // ---------------------------------------------------------------------------
  // Top-level schema

  /** The top-level shape validateSchema accepts. */
  predicate SchemaOk(j: Json) {
    && j.JObject?
    && Has(j, "totalFrames") && At(j, "totalFrames").JInt?
    && Has(j, "step0") && At(j, "step0").JObject?
    && ToInt32(At(j, "totalFrames").i) >= 1
    && (Has(j, "jobs") ==> At(j, "jobs").JArray?)
  }

  /**
   * validateSchema: the checks run in a fixed order and the first one that
   * fails decides the message; it never reaches a `get<T>()` that could throw a
   * type error, because totalFrames is read only after its type was checked.
   */
  function ValidateSchema(j: Json): (r: Option<ParseError>)
    ensures r.None? <==> SchemaOk(j)
    ensures r.Some? ==> r.value.RuntimeError?
    ensures !j.JObject? ==> r == Some(RuntimeError("Configuration must be a JSON object"))
    ensures j.JObject? && !Has(j, "totalFrames") ==>
              r == Some(RuntimeError("Configuration missing required field: totalFrames"))
  {
    if !j.JObject? then Some(RuntimeError("Configuration must be a JSON object"))
    else if !Has(j, "totalFrames") then Some(RuntimeError("Configuration missing required field: totalFrames"))
    else if !At(j, "totalFrames").JInt? then Some(RuntimeError("totalFrames must be an integer"))
    else if !Has(j, "step0") then Some(RuntimeError("Configuration missing required field: step0"))
    else if !At(j, "step0").JObject? then Some(RuntimeError("step0 must be an object"))
    else if ToInt32(At(j, "totalFrames").i) < 1 then Some(RuntimeError("totalFrames must be >= 1"))
    else if Has(j, "jobs") && !At(j, "jobs").JArray? then Some(RuntimeError("jobs must be an array"))
    else None
  }

  /** A configuration that names step 0 but not totalFrames is rejected for totalFrames, whatever step 0 holds. */
  lemma MissingTotalFramesWins(step0: Json)
    ensures ValidateSchema(JObject(map["step0" := step0])) ==
            Some(RuntimeError("Configuration missing required field: totalFrames"))
  {
  }

  /** totalFrames 0 is rejected for its value only once step 0 is present and an object. */
  lemma TotalFramesCheckedAfterStep0()
    ensures ValidateSchema(JObject(map["totalFrames" := JInt(0)])) ==
            Some(RuntimeError("Configuration missing required field: step0"))
    ensures ValidateSchema(JObject(map["totalFrames" := JInt(0), "step0" := JObject(map[])])) ==
            Some(RuntimeError("totalFrames must be >= 1"))
  {
  }

  // ---------------------------------------------------------------------------
  // Step 0: the modelling method and its parameters

  /** The name each modelling method has in a configuration file. */
  function MethodName(m: Method): string {
    match m
    case PerlinNoise => "perlin"
    case Fbm => "fbm"
    case SemiSphere => "semiSphere"
    case Cone => "cone"
    case Sigmoid => "sigmoid"
  }

  /** The method string mapping; any other string is unknown. */
  function MethodFromString(s: string): (r: Option<Method>)
    ensures r.Some? ==> MethodName(r.value) == s
  {
    if s == "perlin" then Some(PerlinNoise)
    else if s == "fbm" then Some(Fbm)
    else if s == "semiSphere" then Some(SemiSphere)
    else if s == "cone" then Some(Cone)
    else if s == "sigmoid" then Some(Sigmoid)
    else None
  }

  /** Every method's name maps back to that method, so the five names are distinct. */
  lemma MethodRoundTrip(m: Method)
    ensures MethodFromString(MethodName(m)) == Some(m)
  {
  }

  /** A string is accepted exactly when it is one of the five names. */
  lemma MethodKnownIff(s: string)
    ensures MethodFromString(s).Some? <==> s in {"perlin", "fbm", "semiSphere", "cone", "sigmoid"}
  {
  }

  /** An optional integer field: its converted value when present and convertible, else `default`. */
  function IntOr(j: Json, key: string, default: int): int {
    if Has(j, key) && GetInt(At(j, key)).Ok? then GetInt(At(j, key)).value else default
  }

  /** An optional double field: its converted value when present and convertible, else `default`. */
  function RealOr(j: Json, key: string, default: real): real {
    if Has(j, key) && GetDouble(At(j, key)).Ok? then GetDouble(At(j, key)).value else default
  }

  /** An optional field read with `get<int>()` does not throw. */
  predicate IntReadable(j: Json, key: string) {
    Has(j, key) ==> GetInt(At(j, key)).Ok?
  }

  /** An optional field read with `get<double>()` does not throw. */
  predicate RealReadable(j: Json, key: string) {
    Has(j, key) ==> GetDouble(At(j, key)).Ok?
  }

  /** `if (j.contains(key)) field = j[key].get<int>();` with `current` the field's value so far. */
  function OptionalInt(j: Json, key: string, current: int): (r: Result<int, ParseError>)
    ensures r.Ok? <==> IntReadable(j, key)
    ensures r.Ok? ==> r.value == IntOr(j, key, current)
  {
    if Has(j, key) then Lift(GetInt(At(j, key))) else Ok(current)
  }

  /** `if (j.contains(key)) field = j[key].get<double>();` with `current` the field's value so far. */
  function OptionalReal(j: Json, key: string, current: real): (r: Result<real, ParseError>)
    ensures r.Ok? <==> RealReadable(j, key)
    ensures r.Ok? ==> r.value == RealOr(j, key, current)
  {
    if Has(j, key) then Lift(GetDouble(At(j, key))) else Ok(current)
  }

  /** An optional `method` field is a string naming one of the five methods. */
  predicate MethodReadable(j: Json) {
    Has(j, "method") ==> GetString(At(j, "method")).Ok? && MethodFromString(GetString(At(j, "method")).value).Some?
  }

  predicate ModelingReadable(j: Json) {
    && MethodReadable(j)
    && IntReadable(j, "seed") && RealReadable(j, "frequency") && RealReadable(j, "amplitude")
    && IntReadable(j, "octaves") && RealReadable(j, "persistence") && RealReadable(j, "lacunarity")
    && RealReadable(j, "radius") && RealReadable(j, "height")
  }

  /** Step 0 as a readable object describes it: each field the file gives, the default for every other. */
  function ModelingFrom(j: Json): ModelingConfig
    requires MethodReadable(j)
  {
    var d := DefaultModeling;
    ModelingConfig(
      if Has(j, "method") then MethodFromString(GetString(At(j, "method")).value).value else d.modelingMethod,
      IntOr(j, "seed", d.seed),
      RealOr(j, "frequency", d.frequency),
      RealOr(j, "amplitude", d.amplitude),
      IntOr(j, "octaves", d.octaves),
      RealOr(j, "persistence", d.persistence),
      RealOr(j, "lacunarity", d.lacunarity),
      RealOr(j, "radius", d.radius),
      RealOr(j, "height", d.height))
  }

  /** parseModelingConfig: start from the defaults and overwrite each field that is present. */
  method ParseModelingConfig(j: Json) returns (r: Result<ModelingConfig, ParseError>)
    ensures r.Ok? <==> ModelingReadable(j)
    ensures r.Ok? ==> r.value == ModelingFrom(j)
    ensures Has(j, "method") && At(j, "method").JString? && MethodFromString(At(j, "method").s).None? ==>
              r == Err(RuntimeError("Unknown modeling method: " + At(j, "method").s))
  {
    var config := DefaultModeling;
    if Has(j, "method") {
      var methodStr :- Lift(GetString(At(j, "method")));
      match MethodFromString(methodStr)
      case Some(m) => config := config.(modelingMethod := m);
      case None => return Err(RuntimeError("Unknown modeling method: " + methodStr));
    }
    var seed :- OptionalInt(j, "seed", config.seed);
    config := config.(seed := seed);
    var frequency :- OptionalReal(j, "frequency", config.frequency);
    config := config.(frequency := frequency);
    var amplitude :- OptionalReal(j, "amplitude", config.amplitude);
    config := config.(amplitude := amplitude);
    var octaves :- OptionalInt(j, "octaves", config.octaves);
    config := config.(octaves := octaves);
    var persistence :- OptionalReal(j, "persistence", config.persistence);
    config := config.(persistence := persistence);
    var lacunarity :- OptionalReal(j, "lacunarity", config.lacunarity);
    config := config.(lacunarity := lacunarity);
    var radius :- OptionalReal(j, "radius", config.radius);
    config := config.(radius := radius);
    var height :- OptionalReal(j, "height", config.height);
    config := config.(height := height);
    return Ok(config);
  }

  /** An empty step 0 object selects every default, fBm included. */
  lemma EmptyStep0IsDefault()
    ensures ModelingReadable(JObject(map[]))
    ensures ModelingFrom(JObject(map[])) == DefaultModeling
  {
  }

  // ---------------------------------------------------------------------------
  // Erosion configurations

  predicate HydraulicReadable(j: Json) {
    && IntReadable(j, "numParticles") && RealReadable(j, "erosionRate") && RealReadable(j, "depositionRate")
    && RealReadable(j, "evaporationRate") && RealReadable(j, "sedimentCapacity") && RealReadable(j, "minSlope")
    && RealReadable(j, "inertia") && RealReadable(j, "gravity") && IntReadable(j, "maxLifetime")
    && RealReadable(j, "initialWater") && RealReadable(j, "initialSpeed")
  }

  /** A hydraulic config object's meaning: each field the file gives, the default for every other. */
  function HydraulicFrom(j: Json): HydraulicErosionConfig {
    var d := DefaultHydraulic;
    HydraulicErosionConfig(
      IntOr(j, "numParticles", d.numParticles),
      RealOr(j, "erosionRate", d.erosionRate),
      RealOr(j, "depositionRate", d.depositionRate),
      RealOr(j, "evaporationRate", d.evaporationRate),
      RealOr(j, "sedimentCapacity", d.sedimentCapacity),
      RealOr(j, "minSlope", d.minSlope),
      RealOr(j, "inertia", d.inertia),
      RealOr(j, "gravity", d.gravity),
      IntOr(j, "maxLifetime", d.maxLifetime),
      RealOr(j, "initialWater", d.initialWater),
      RealOr(j, "initialSpeed", d.initialSpeed))
  }

  /** parseHydraulicConfig: every field optional; present ones overwrite the defaults. */
  method ParseHydraulicConfig(j: Json) returns (r: Result<HydraulicErosionConfig, ParseError>)
    ensures r.Ok? <==> HydraulicReadable(j)
    ensures r.Ok? ==> r.value == HydraulicFrom(j)
  {
    var config := DefaultHydraulic;
    var numParticles :- OptionalInt(j, "numParticles", config.numParticles);
    config := config.(numParticles := numParticles);
    var erosionRate :- OptionalReal(j, "erosionRate", config.erosionRate);
    config := config.(erosionRate := erosionRate);
    var depositionRate :- OptionalReal(j, "depositionRate", config.depositionRate);
    config := config.(depositionRate := depositionRate);
    var evaporationRate :- OptionalReal(j, "evaporationRate", config.evaporationRate);
    config := config.(evaporationRate := evaporationRate);
    var sedimentCapacity :- OptionalReal(j, "sedimentCapacity", config.sedimentCapacity);
    config := config.(sedimentCapacity := sedimentCapacity);
    var minSlope :- OptionalReal(j, "minSlope", config.minSlope);
    config := config.(minSlope := minSlope);
    var inertia :- OptionalReal(j, "inertia", config.inertia);
    config := config.(inertia := inertia);
    var gravity :- OptionalReal(j, "gravity", config.gravity);
    config := config.(gravity := gravity);
    var maxLifetime :- OptionalInt(j, "maxLifetime", config.maxLifetime);
    config := config.(maxLifetime := maxLifetime);
    var initialWater :- OptionalReal(j, "initialWater", config.initialWater);
    config := config.(initialWater := initialWater);
    var initialSpeed :- OptionalReal(j, "initialSpeed", config.initialSpeed);
    config := config.(initialSpeed := initialSpeed);
    return Ok(config);
  }

  /** Setting one hydraulic field in the file changes that field of the result and no other. */
  lemma HydraulicFieldIsolated(j: Json, v: real)
    requires j.JObject?
    ensures var h := HydraulicFrom(JObject(j.fields["gravity" := JFloat(v)]));
            h == HydraulicFrom(j).(gravity := v)
  {
  }

  predicate ThermalReadable(j: Json) {
    RealReadable(j, "talusAngle") && RealReadable(j, "transferRate") && IntReadable(j, "iterations")
  }

  /** A thermal config object's meaning: each field the file gives, the default for every other. */
  function ThermalFrom(j: Json): ThermalErosionConfig {
    var d := DefaultThermal;
    ThermalErosionConfig(
      RealOr(j, "talusAngle", d.talusAngle),
      RealOr(j, "transferRate", d.transferRate),
      IntOr(j, "iterations", d.iterations))
  }

  /** parseThermalConfig: every field optional; present ones overwrite the defaults. */
  method ParseThermalConfig(j: Json) returns (r: Result<ThermalErosionConfig, ParseError>)
    ensures r.Ok? <==> ThermalReadable(j)
    ensures r.Ok? ==> r.value == ThermalFrom(j)
  {
    var config := DefaultThermal;
    var talusAngle :- OptionalReal(j, "talusAngle", config.talusAngle);
    config := config.(talusAngle := talusAngle);
    var transferRate :- OptionalReal(j, "transferRate", config.transferRate);
    config := config.(transferRate := transferRate);
    var iterations :- OptionalInt(j, "iterations", config.iterations);
    config := config.(iterations := iterations);
    return Ok(config);
  }

  // ---------------------------------------------------------------------------
  // Jobs

  /** The fields every job must have, in the order they are checked. */
  const RequiredJobFields: seq<string> := ["id", "name", "startFrame", "endFrame", "type", "config"]

  /** The error a job without required field `name` raises. */
  function MissingField(name: string): ParseError {
    RuntimeError("Job missing required field: " + name)
  }

  /** Required field `i` is present and, except for "config", has the type the parser reads it as. */
  predicate FieldReadable(j: Json, i: int)
    requires 0 <= i < |RequiredJobFields|
  {
    Has(j, RequiredJobFields[i]) &&
    (if i == 2 || i == 3 then GetInt(At(j, RequiredJobFields[i])).Ok?
     else if i == 5 then true
     else GetString(At(j, RequiredJobFields[i])).Ok?)
  }

  /** Required field `k` is the first one missing: everything checked before it was read successfully. */
  predicate FirstMissing(j: Json, k: int)
    requires 0 <= k < |RequiredJobFields|
  {
    !Has(j, RequiredJobFields[k]) && forall i :: 0 <= i < k ==> FieldReadable(j, i)
  }

  /** The six required fields are readable, the type is known and its config and `enabled` read without error. */
  predicate JobReadable(j: Json) {
    && FieldsReadable(j)
    && (At(j, "type").s == "hydraulic" || At(j, "type").s == "thermal")
    && (At(j, "type").s == "hydraulic" ==> HydraulicReadable(At(j, "config")))
    && (At(j, "type").s == "thermal" ==> ThermalReadable(At(j, "config")))
    && (Has(j, "enabled") ==> GetBool(At(j, "enabled")).Ok?)
  }

  /** The job a readable job object describes; `enabled` is true unless the field says otherwise. */
  function JobFrom(j: Json): SimulationJob
    requires JobReadable(j)
  {
    SimulationJob(
      At(j, "id").s,
      At(j, "name").s,
      GetInt(At(j, "startFrame")).value,
      GetInt(At(j, "endFrame")).value,
      if At(j, "type").s == "hydraulic" then Hydraulic(HydraulicFrom(At(j, "config")))
      else Thermal(ThermalFrom(At(j, "config"))),
      if Has(j, "enabled") then At(j, "enabled").b else true)
  }

  /** The six required fields are all readable. */
  predicate FieldsReadable(j: Json) {
    FieldReadable(j, 0) && FieldReadable(j, 1) && FieldReadable(j, 2) && FieldReadable(j, 3)
    && FieldReadable(j, 4) && FieldReadable(j, 5)
  }

  /** The first part of parseJob: the six required fields in order, each present and read as its type. */
  method ReadRequiredFields(j: Json) returns (r: Result<(string, string, int, int, string), ParseError>)
    ensures forall k :: 0 <= k < |RequiredJobFields| && FirstMissing(j, k) ==>
              r == Err(MissingField(RequiredJobFields[k]))
    ensures r.Ok? <==> FieldsReadable(j)
    ensures r.Ok? ==> r.value == (At(j, "id").s, At(j, "name").s, GetInt(At(j, "startFrame")).value,
                                  GetInt(At(j, "endFrame")).value, At(j, "type").s)
  {
    assert FieldReadable(j, 0) == (Has(j, "id") && GetString(At(j, "id")).Ok?);
    if !Has(j, "id") { return Err(MissingField("id")); }
    var id :- Lift(GetString(At(j, "id")));
    assert FieldReadable(j, 1) == (Has(j, "name") && GetString(At(j, "name")).Ok?);
    if !Has(j, "name") { return Err(MissingField("name")); }
    var name :- Lift(GetString(At(j, "name")));
    assert FieldReadable(j, 2) == (Has(j, "startFrame") && GetInt(At(j, "startFrame")).Ok?);
    if !Has(j, "startFrame") { return Err(MissingField("startFrame")); }
    var startFrame :- Lift(GetInt(At(j, "startFrame")));
    assert FieldReadable(j, 3) == (Has(j, "endFrame") && GetInt(At(j, "endFrame")).Ok?);
    if !Has(j, "endFrame") { return Err(MissingField("endFrame")); }
    var endFrame :- Lift(GetInt(At(j, "endFrame")));
    assert FieldReadable(j, 4) == (Has(j, "type") && GetString(At(j, "type")).Ok?);
    if !Has(j, "type") { return Err(MissingField("type")); }
    var jobType :- Lift(GetString(At(j, "type")));
    assert FieldReadable(j, 5) == Has(j, "config");
    if !Has(j, "config") { return Err(MissingField("config")); }
    return Ok((id, name, startFrame, endFrame, jobType));
  }

  /** parseJob: the six required fields in order, then the config variant the type selects, then `enabled`. */
  method ParseJob(j: Json) returns (r: Result<SimulationJob, ParseError>)
    ensures forall k :: 0 <= k < |RequiredJobFields| && FirstMissing(j, k) ==>
              r == Err(MissingField(RequiredJobFields[k]))
    ensures FieldsReadable(j) && At(j, "type").s != "hydraulic" && At(j, "type").s != "thermal" ==>
              r == Err(RuntimeError("Unknown job type: " + At(j, "type").s))
    ensures r.Ok? <==> JobReadable(j)
    ensures r.Ok? ==> r.value == JobFrom(j)
  {
    var fields :- ReadRequiredFields(j);
    var (id, name, startFrame, endFrame, jobType) := fields;

    var config: JobConfig;
    if jobType == "hydraulic" {
      var h :- ParseHydraulicConfig(At(j, "config"));
      config := Hydraulic(h);
    } else if jobType == "thermal" {
      var t :- ParseThermalConfig(At(j, "config"));
      config := Thermal(t);
    } else {
      return Err(RuntimeError("Unknown job type: " + jobType));
    }

    var enabled := true;
    if Has(j, "enabled") {
      enabled :- Lift(GetBool(At(j, "enabled")));
    }
    return Ok(SimulationJob(id, name, startFrame, endFrame, config, enabled));
  }

  /** parseJobs: each element in array order; the first job that fails rejects the whole array. */
  method ParseJobs(items: seq<Json>) returns (r: Result<seq<SimulationJob>, ParseError>)
    ensures r.Ok? <==> forall i :: 0 <= i < |items| ==> JobReadable(items[i])
    ensures r.Ok? ==> |r.value| == |items|
    ensures r.Ok? ==> forall i :: 0 <= i < |items| ==> r.value[i] == JobFrom(items[i])
  {
    var jobs: seq<SimulationJob> := [];
    var n := 0;
    while n < |items|
      invariant 0 <= n <= |items| && |jobs| == n
      invariant forall i :: 0 <= i < n ==> JobReadable(items[i]) && jobs[i] == JobFrom(items[i])
    {
      var job :- ParseJob(items[n]);
      jobs := jobs + [job];
      n := n + 1;
    }
    return Ok(jobs);
  }

  // ---------------------------------------------------------------------------
  // The whole configuration

  /** Everything parse(json) needs to succeed. */
  predicate Accepts(j: Json) {
    && SchemaOk(j)
    && ModelingReadable(At(j, "step0"))
    && (Has(j, "jobs") ==> forall i :: 0 <= i < |At(j, "jobs").items| ==> JobReadable(At(j, "jobs").items[i]))
  }

  /**
   * parse(json): schema first, then totalFrames, step 0 and the jobs. An
   * accepted configuration has totalFrames >= 1 (the input value, read as a
   * 32-bit int), step 0 as the file says, and one job per array element in
   * array order; an absent jobs array gives no jobs. Frame ranges are not
   * checked here.
   */
  method Parse(j: Json) returns (r: Result<PipelineConfig, ParseError>)
    ensures r.Ok? <==> Accepts(j)
    ensures ValidateSchema(j).Some? ==> r == Err(ValidateSchema(j).value)
    ensures r.Ok? ==> r.value.totalFrames >= 1 && r.value.totalFrames == ToInt32(At(j, "totalFrames").i)
    ensures r.Ok? ==> r.value.step0 == ModelingFrom(At(j, "step0"))
    ensures r.Ok? && !Has(j, "jobs") ==> r.value.jobs == []
    ensures r.Ok? && Has(j, "jobs") ==>
              && |r.value.jobs| == |At(j, "jobs").items|
              && forall i :: 0 <= i < |r.value.jobs| ==> r.value.jobs[i] == JobFrom(At(j, "jobs").items[i])
  {
    var schemaError := ValidateSchema(j);
    if schemaError.Some? {
      return Err(schemaError.value);
    }
    var config := DefaultPipeline;
    config := config.(totalFrames := ToInt32(At(j, "totalFrames").i));
    if Has(j, "step0") {
      var step0 :- ParseModelingConfig(At(j, "step0"));
      config := config.(step0 := step0);
    }
    if Has(j, "jobs") && At(j, "jobs").JArray? {
      var jobs :- ParseJobs(At(j, "jobs").items);
      config := config.(jobs := jobs);
    }
    return Ok(config);
  }

  /**
   * parse(string): a syntax error from the JSON library is rethrown as a
   * runtime error with a "JSON parse error: " prefix; a well-formed text is
   * parsed as a tree.
   */
  method ParseText(text: Result<Json, string>) returns (r: Result<PipelineConfig, ParseError>)
    ensures text.Err? ==> r == Err(RuntimeError("JSON parse error: " + text.error))
    ensures text.Ok? ==> (r.Ok? <==> Accepts(text.value))
  {
    match text
    case Err(e) => return Err(RuntimeError("JSON parse error: " + e));
    case Ok(j) => r := Parse(j);
  }

  /**
   * The parser puts no constraint on a job's frames: any pair of 32-bit
   * values, a start after the end included, is accepted as given. Ranges are
   * the validator's business.
   */
  lemma AnyRangeAccepted(start: int, end: int)
    requires IsInt32(start) && IsInt32(end)
    ensures var j := JObject(map[
              "id" := JString("job-1"), "name" := JString("Late"),
              "startFrame" := JInt(start), "endFrame" := JInt(end),
              "type" := JString("thermal"), "config" := JObject(map[])]);
            JobReadable(j) && JobFrom(j).startFrame == start && JobFrom(j).endFrame == end
  {
    var j := JObject(map[
      "id" := JString("job-1"), "name" := JString("Late"),
      "startFrame" := JInt(start), "endFrame" := JInt(end),
      "type" := JString("thermal"), "config" := JObject(map[])]);
    assert FieldReadable(j, 0) && FieldReadable(j, 1) && FieldReadable(j, 2);
    assert FieldReadable(j, 3) && FieldReadable(j, 4) && FieldReadable(j, 5);
  }
}
