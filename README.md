# TerrainSim core, modelled in Dafny

This project models the deterministic decision logic of TerrainSim and proves
what that logic promises. Two halves are covered.

The C++ simulation job pipeline:

- the configuration parser: schema checks over a parsed JSON tree, method
  mapping, optional fields over defaults, typed job variants;
- the job validator: range errors, uncovered frames, overlap warnings;
- the job executor: frame loop, per-frame job selection, callback trace;
- the shared data model (`SimulationJob.hpp`) with its defaults;
- the row-major `Heightmap` buffer, as a class over an array;
- the integer part of `PerlinNoise`: the 512-entry permutation table, `hash`,
  and gradient-case selection.

The Python tooling scripts:

- `audit-dependencies.py`: the `pnpm list` parser, the dependency-usage
  decision, the package.json walk, the report totals and the exit rule;
- `detect-dead-code.py`: the commented-code scanner, the `ts-unused-exports`
  output parser, the unused-file decision, the total and the exit rule;
- `set-log-level.py`: the `.env` key update and its wrapper functions;
- `run-ci-locally.py`: step selection, sequencing with early stop, and
  `--steps` validation;
- `compare-benchmarks.py`: time-string units, the baseline table, matching,
  three-way classification and the exit rule.

Each source file becomes one module:

| file | module |
|---|---|
| `simulation_job.dfy` | `SimulationJobs` |
| `json_tree.dfy` | `JsonTree` |
| `config_parser.dfy` | `ConfigParser` |
| `job_validator.dfy` | `JobValidator` |
| `job_executor.dfy` | `JobExecutor` |
| `heightmap.dfy` | `Heightmaps` |
| `perlin_noise.dfy` | `Perlin` |
| `audit_dependencies.dfy` | `DependencyAudit` |
| `path_order.dfy` | `PathOrder` |
| `dead_code.dfy` | `DeadCode` |
| `set_log_level.dfy` | `LogLevel` |
| `run_ci_locally.dfy` | `CiLocal` |
| `compare_benchmarks.dfy` | `Benchmarks` |

Two modules are shared helpers:

- `Wrappers` holds `Option` and `Result`.
- `Strings` holds the Python string operations the scripts use: `strip`,
  `split`, `join`, `find`, `replace`, `lower`, and `int`/`str` of numbers.

Code that changes state step by step is modelled as methods with loops, or as
classes whose methods change their fields:

- `Heightmap`, `PerlinNoise`, `DependencyInfo`, `EnvFiles`, `StepList`
  and `CIRunner` are classes.
- Each such method is proved equal to a specification function.
- The lemmas state what the source promises about that function.

The program's environment becomes parameters:

- File contents, directory trees and subprocess output are given data:
  maps, sequences and a `Dir` tree.
- `grep`, `float()`, the hydraulic erosion routine, the `mt19937`
  shuffle and the report's later sections are given functions.
- The clock is a `Moment` parameter.
- The callbacks are recorded as a trace of events.

## Model

| member | source | states |
|---|---|---|
| JsonTree.ToInt32 | libs/core/src/ConfigParser.cpp:24 | `get<int>` of a wider integer gives a 32-bit value congruent to the input modulo 2^32 |
| JsonTree.ToInt32Identity | libs/core/src/ConfigParser.cpp:24 | a value that already fits in 32 bits is kept unchanged |
| JsonTree.TruncateTowardZero | libs/core/src/ConfigParser.cpp:62 | a float read as an int is truncated toward zero, bounded on both sides for either sign |
| JsonTree.GetInt | libs/core/src/ConfigParser.cpp:62-66 | `get<int>` succeeds exactly on integers, floats and booleans; the result is 32-bit; an in-range integer is returned as is |
| JsonTree.GetDouble | libs/core/src/ConfigParser.cpp:63-64 | `get<double>` succeeds exactly on integers and floats, returning their value |
| JsonTree.GetString | libs/core/src/ConfigParser.cpp:44 | `get<std::string>` succeeds exactly on strings and returns the text |
| JsonTree.GetBool | libs/core/src/ConfigParser.cpp:129-131 | `get<bool>` succeeds exactly on booleans and returns the value |
| ConfigParser.Lift | libs/core/src/ConfigParser.cpp:62-71 | a `get<T>` type error becomes a parse error; success and value are kept |
| ConfigParser.ValidateSchema | libs/core/src/ConfigParser.cpp:166-200 | rejects exactly the trees failing the ordered schema checks, always with a runtime error; a non-object and a missing totalFrames give their own messages |
| ConfigParser.MissingTotalFramesWins | libs/core/src/ConfigParser.cpp:172-182 | a missing totalFrames is reported before anything about step0 |
| ConfigParser.TotalFramesCheckedAfterStep0 | libs/core/src/ConfigParser.cpp:180-192 | totalFrames 0 is reported only after step0 is present and an object |
| ConfigParser.MethodFromString | libs/core/src/ConfigParser.cpp:43-59 | an accepted method string is the name of the method it maps to |
| ConfigParser.MethodRoundTrip | libs/core/src/ConfigParser.cpp:46-55 | every method's name maps back to that method |
| ConfigParser.MethodKnownIff | libs/core/src/ConfigParser.cpp:46-58 | a method string is accepted iff it is one of perlin, fbm, semiSphere, cone, sigmoid |
| ConfigParser.OptionalInt | libs/core/src/ConfigParser.cpp:62 | an optional int field succeeds iff it is absent or convertible, giving the file's value or the current one |
| ConfigParser.OptionalReal | libs/core/src/ConfigParser.cpp:63 | the same for an optional double field |
| ConfigParser.ParseModelingConfig | libs/core/src/ConfigParser.cpp:39-73 | succeeds iff every present field converts; the result is the defaults overwritten by present fields; an unknown method gives "Unknown modeling method: …" |
| ConfigParser.EmptyStep0IsDefault | libs/core/include/SimulationJob.hpp:42-54 | an empty step0 yields the default modelling configuration, FBM included |
| ConfigParser.ParseHydraulicConfig | libs/core/src/ConfigParser.cpp:136-153 | succeeds iff every present field converts; present fields overwrite the defaults |
| ConfigParser.HydraulicFieldIsolated | libs/core/src/ConfigParser.cpp:136-153 | setting gravity in the file changes that field of the result and no other |
| ConfigParser.ParseThermalConfig | libs/core/src/ConfigParser.cpp:155-164 | succeeds iff every present field converts; present fields overwrite the defaults |
| ConfigParser.ParseJob | libs/core/src/ConfigParser.cpp:86-134 | the first missing required field, in order, is the error; an unknown type is an error; otherwise succeeds iff every field reads, with the config variant the type selects and `enabled` true unless given |
| ConfigParser.ReadRequiredFields | libs/core/src/ConfigParser.cpp:89-117 | the first missing required field, in order, is the error; succeeds iff every field is present and of its type, giving their values |
| ConfigParser.ParseJobs | libs/core/src/ConfigParser.cpp:76-84 | succeeds iff every element parses; the jobs are the elements' jobs, in array order |
| ConfigParser.Parse | libs/core/src/ConfigParser.cpp:18-37 | schema errors come first; an accepted config has totalFrames >= 1 equal to the file's value wrapped to 32 bits (so 4294967297 is read as 1), step0 as given, and no jobs without a jobs array or one job per element |
| ConfigParser.ParseText | libs/core/src/ConfigParser.cpp:7-16 | a syntax error becomes "JSON parse error: …"; a well-formed text is accepted iff its tree is |
| ConfigParser.AnyRangeAccepted | libs/core/src/ConfigParser.cpp:100-108 | the parser accepts any pair of 32-bit frames, a start after the end included |
| JobValidator.RangeErrors | libs/core/src/JobValidator.cpp:95-119 | a job has no range error iff 1 <= start <= end <= totalFrames |
| JobValidator.NoRangeErrorsIff | libs/core/src/JobValidator.cpp:92-122 | there are no range errors iff every job, enabled or not, is well ranged |
| JobValidator.ValidateJobRanges | libs/core/src/JobValidator.cpp:92-122 | the loop's errors are every job's errors, in job order |
| JobValidator.FindUncoveredFrames | libs/core/src/JobValidator.cpp:39-64 | the result is strictly increasing and holds exactly the frames of 1..totalFrames that no enabled job covers |
| JobValidator.OverlapIsSharedFrames | libs/core/src/JobValidator.cpp:73-85 | a pair is warned about iff some frame is covered by both; the warning spans exactly the shared frames |
| JobValidator.DisabledRowEmpty | libs/core/src/JobValidator.cpp:71 | a disabled first job draws no warnings |
| JobValidator.RowWarningsExactly | libs/core/src/JobValidator.cpp:73-86 | a row holds exactly the warnings of its overlapping pairs |
| JobValidator.PairWarningsExactly | libs/core/src/JobValidator.cpp:66-90 | the warnings are exactly those of the overlapping pairs i < j |
| JobValidator.CheckOverlaps | libs/core/src/JobValidator.cpp:66-90 | the loop's warnings are the pair warnings in lexicographic (i, j) order |
| JobValidator.ScanRow | libs/core/src/JobValidator.cpp:73-86 | the inner loop adds, in order, the warnings of job i with every later job |
| JobValidator.Validate | libs/core/src/JobValidator.cpp:8-37 | range errors suppress coverage; otherwise uncovered frames are exactly the uncovered ones and add one error; warnings are always computed; valid iff no errors and no uncovered frames |
| JobValidator.NoJobsInvalid | libs/core/src/JobValidator.cpp:57-61 | with no jobs and at least one frame the configuration is not fully covered |
| JobExecutor.DefaultConfigGivesDefaultParams | libs/core/src/JobExecutor.cpp:74-84 | the default hydraulic job maps onto the simulator's defaults |
| JobExecutor.ParamsIgnoreUnmappedFields | libs/core/src/JobExecutor.cpp:74-84 | the mapping ignores the particle count, initial water and speed, and keeps the default droplet speed and radius |
| JobExecutor.ThermalLeavesTerrain | libs/core/src/JobExecutor.cpp:87-90 | a thermal job leaves the terrain unchanged |
| JobExecutor.ApplyJob | libs/core/src/JobExecutor.cpp:67-92 | the terrain becomes the job's result on the old cells |
| JobExecutor.FrameJobsExactly | libs/core/src/JobExecutor.cpp:54-65 | a job runs in a frame iff it is configured, enabled and covers the frame |
| JobExecutor.FrameJobsAppend | libs/core/src/JobExecutor.cpp:57-62 | selection keeps configuration order: the jobs of a concatenation are the parts' jobs in turn |
| JobExecutor.GetJobsForFrame | libs/core/src/JobExecutor.cpp:54-65 | the loop returns the frame's jobs |
| JobExecutor.ExecuteFrame | libs/core/src/JobExecutor.cpp:33-52 | each job runs in turn between its start and end events; the terrain is the jobs applied in order |
| JobExecutor.Execute | libs/core/src/JobExecutor.cpp:7-31 | frames 1..totalFrames run in order; the terrain and the trace are those of the frame schedule |
| JobExecutor.JobEventsContent | libs/core/src/JobExecutor.cpp:41-51 | one job's events hold exactly its one application and no frame completion |
| JobExecutor.FrameEventsContent | libs/core/src/JobExecutor.cpp:41-51 | a frame's job events hold one application per job, in job order |
| JobExecutor.FramesUpTo | libs/core/src/JobExecutor.cpp:17 | the frames 1..n in order |
| JobExecutor.EveryFrameCompletesInOrder | libs/core/src/JobExecutor.cpp:17-30 | with a frame callback it fires once per frame, 1..n in order, frames without jobs included; without one nothing is reported |
| JobExecutor.ApplicationsFollowSchedule | libs/core/src/JobExecutor.cpp:17-50 | the jobs applied do not depend on which callbacks are supplied |
| JobExecutor.CompletionEvent | libs/core/src/JobExecutor.cpp:27-29 | the frame callback reports frame n and applies no job; without a callback nothing is reported |
| JobExecutor.ExecutionCount | libs/core/src/JobExecutor.cpp:17-30 | the number of job executions is the sum over enabled jobs of the frames of 1..n each covers |
| Heightmaps.CellIndexInBounds | libs/core/include/Heightmap.hpp:55-57 | every cell's flat index lies inside the buffer |
| Heightmaps.CellIndex | libs/core/include/Heightmap.hpp:56 | the flat index y·width + x is below width·height |
| Heightmaps.CellIndexInjective | libs/core/include/Heightmap.hpp:127 | distinct cells have distinct flat indices |
| Heightmaps.FlatIndexIsCell | libs/core/include/Heightmap.hpp:80 | flat index i is cell (i mod width, i div width), inside the grid |
| Heightmaps.Heightmap.constructor | libs/core/src/Heightmap.cpp:6-11 | stores the dimensions and a buffer of zeros |
| Heightmaps.Heightmap.Size | libs/core/include/Heightmap.hpp:46 | the size is width times height |
| Heightmaps.Heightmap.Set | libs/core/include/Heightmap.hpp:66-68 | the cell reads back the value; every other cell is unchanged |
| Heightmaps.Heightmap.SetFlat | libs/core/include/Heightmap.hpp:80 | a write at flat index i is seen by `at(i mod width, i div width)` |
| Heightmaps.Heightmap.Fill | libs/core/src/Heightmap.cpp:13-15 | every cell takes the value; the dimensions are unchanged |
| Perlin.Iota | libs/core/src/PerlinNoise.cpp:15-16 | the values 0..255 in order |
| Perlin.TableShape | libs/core/src/PerlinNoise.cpp:13-27 | the table has 512 entries; its first half is a permutation of 0..255 and the second half repeats it |
| Perlin.GradientCase | libs/core/src/PerlinNoise.cpp:52-57 | (hash & 15) & 7 is one of eight cases, equal to hash mod 8 |
| Perlin.LowThreeBits | libs/core/src/PerlinNoise.cpp:52-57 | masking to four bits and then to three keeps the low three bits |
| Perlin.PerlinNoise.constructor | libs/core/src/PerlinNoise.cpp:9-11 | the table is the seed's table, so one seed always gives one table |
| Perlin.PerlinNoise.InitPermutation | libs/core/src/PerlinNoise.cpp:13-27 | the array holds the shuffled 0..255 in both halves |
| Perlin.PerlinNoise.InnerIndex | libs/core/src/PerlinNoise.cpp:31 | the inner index is below 511, so the outer lookup is in bounds |
| Perlin.HashPeriodic | libs/core/src/PerlinNoise.cpp:29-32 | the hash repeats every 256 cells in each direction, negative coordinates included |
| Perlin.HashOfNegative | libs/core/src/PerlinNoise.cpp:31 | -1 hashes like 255 |
| Perlin.GradIsDotProduct | libs/core/src/PerlinNoise.cpp:50-68 | grad is the dot product of (dx, dy) with the selected direction |
| Perlin.HashReadsTable | libs/core/src/PerlinNoise.cpp:29-32 | the hash reads the table at p[ix mod 256] + iy mod 256 |
| DependencyAudit.NonSpacePrefix | scripts/audit-dependencies.py:133 | the longest whitespace-free prefix |
| DependencyAudit.PackageNameShape | scripts/audit-dependencies.py:133 | a match is a whitespace-free prefix of the stripped line, of at least two characters, starting with a lower-case ASCII letter or '@', followed by whitespace |
| DependencyAudit.BareNameDropped | scripts/audit-dependencies.py:133-134 | a line without a version yields no package |
| DependencyAudit.NameWithVersionParsed | scripts/audit-dependencies.py:133-135 | "name version" yields the name |
| DependencyAudit.ParsePnpmList | scripts/audit-dependencies.py:119-142 | the loop's lists are the state machine's lists over the output's lines |
| DependencyAudit.ReadListLine | scripts/audit-dependencies.py:127-140 | one line of the loop is one step of the section state machine |
| DependencyAudit.StepCollected | scripts/audit-dependencies.py:127-140 | a line adds at most its own package, and only to the section in force |
| DependencyAudit.ScanExactly | scripts/audit-dependencies.py:126-140 | a name is collected under a section iff some non-header line in that section lists it |
| DependencyAudit.NothingBeforeHeader | scripts/audit-dependencies.py:126-131 | lines before any header yield nothing |
| DependencyAudit.ScanAppends | scripts/audit-dependencies.py:136-140 | one more line keeps every name collected so far and can only append its own |
| DependencyAudit.DependencyInfo.constructor | scripts/audit-dependencies.py:23-31 | a fresh record is unused, with no locations and no reason |
| DependencyAudit.NewDependencies | scripts/audit-dependencies.py:174-180 | one fresh unchecked record per name, with the declared version or "unknown" |
| DependencyAudit.GetWorkspaceDependencies | scripts/audit-dependencies.py:144-182 | a failed listing gives two empty lists; otherwise the listed names with declared versions, prod then dev |
| DependencyAudit.CheckDependencyUsage | scripts/audit-dependencies.py:184-243 | the record's new usage is the allowlist, types, configuration and import decision applied to the old one |
| DependencyAudit.SourceHitsExactly | scripts/audit-dependencies.py:224-241 | the source scan keeps earlier locations and adds, without repeats, exactly the importing files not yet listed |
| DependencyAudit.ConfigHitsExactly | scripts/audit-dependencies.py:203-210 | the configuration hits are exactly the listed files that exist and contain the name |
| DependencyAudit.CheckConfigFiles | scripts/audit-dependencies.py:203-210 | the configuration hits are appended to the locations and mark the record used; the reason is kept |
| DependencyAudit.CheckSourceFile | scripts/audit-dependencies.py:220-241 | a scanned file that imports the package marks it used and adds its path once |
| DependencyAudit.CheckSourceFiles | scripts/audit-dependencies.py:212-243 | the source scan over every file in walk order gives the source hits; used iff used before or some file imports it |
| DependencyAudit.AllowlistedSkipsScan | scripts/audit-dependencies.py:189-193 | an allowlisted name is used with its listed reason and nothing is scanned |
| DependencyAudit.TypesPackageSkipsScan | scripts/audit-dependencies.py:196-200 | an `@types/` name is used for its base package and nothing is scanned |
| DependencyAudit.UsedIffReferenced | scripts/audit-dependencies.py:202-241 | otherwise used iff already used, mentioned by a config file or imported by a source file; the reason is untouched; config locations come first |
| DependencyAudit.ImportFromFound | scripts/audit-dependencies.py:53 | the search finds `import x from 'name'` |
| DependencyAudit.RequireFound | scripts/audit-dependencies.py:55 | the search finds `require('name')` |
| DependencyAudit.QuotedNameIsWhole | scripts/audit-dependencies.py:52-56 | a quoted match ends right after the name, so `'name/sub'` is not `'name'` |
| DependencyAudit.CheckAll | scripts/audit-dependencies.py:256-258 | every record of the workspace is checked in turn |
| DependencyAudit.AuditWorkspace | scripts/audit-dependencies.py:253-261 | one workspace is listed and each of its records checked |
| DependencyAudit.WalkSound | scripts/audit-dependencies.py:107-117 | every path the walk yields is a package.json reached without entering node_modules |
| DependencyAudit.WalkComplete | scripts/audit-dependencies.py:107-117 | every such package.json is yielded |
| DependencyAudit.FindPackageJsonFiles | scripts/audit-dependencies.py:107-117 | the result is sorted and holds exactly the package.json files outside node_modules |
| DependencyAudit.WalkExactly | scripts/audit-dependencies.py:107-117 | the walk yields a path iff some route outside node_modules reaches a package.json there |
| DependencyAudit.SortSameMembers | scripts/audit-dependencies.py:117 | sorting keeps exactly the same paths |
| DependencyAudit.AuditWorkspaces | scripts/audit-dependencies.py:245-265 | one workspace per package.json, in sorted order, each audited in its directory |
| DependencyAudit.AuditFound | scripts/audit-dependencies.py:253-261 | the loop audits each package.json's directory, in the order found |
| DependencyAudit.EntriesCount | scripts/audit-dependencies.py:285-287 | the total is the prod count plus the dev count |
| DependencyAudit.UnusedExactly | scripts/audit-dependencies.py:289-293 | an entry is listed unused iff it is an entry whose dependency is unused |
| DependencyAudit.CleanIffAllUsed | scripts/audit-dependencies.py:299 | the status is clean iff every dependency is used |
| DependencyAudit.GroupedExactly | scripts/audit-dependencies.py:372-383 | each workspace appears once, holding exactly its unused names in order |
| DependencyAudit.GenerateReport | scripts/audit-dependencies.py:267-463 | no dependencies means the efficiency division fails; otherwise the totals, the unused list in order, and the grouping |
| DependencyAudit.CollectUnused | scripts/audit-dependencies.py:289-293 | the loop keeps the unused entries in workspace order |
| DependencyAudit.CollectWorkspace | scripts/audit-dependencies.py:291-293 | the inner loop extends the unused list by the workspace's unused entries |
| DependencyAudit.RunAudit | scripts/audit-dependencies.py:500-505 | the exit status is 0 iff there are dependencies and every one is used |
| PathOrder.StrLessTransitive | scripts/audit-dependencies.py:117 | Python's string order is transitive |
| PathOrder.StrLessTotal | scripts/audit-dependencies.py:117 | Python's string order is total |
| PathOrder.PathLessTransitive | scripts/audit-dependencies.py:117 | path order is transitive |
| PathOrder.PathLessTotal | scripts/audit-dependencies.py:117 | path order is total |
| PathOrder.Insert | scripts/audit-dependencies.py:117 | insertion keeps a list sorted and adds exactly one element |
| PathOrder.Sort | scripts/audit-dependencies.py:117 | `sorted` returns a sorted permutation |
| DeadCode.QualifiesAtExtend | scripts/detect-dead-code.py:69-100 | lines already read keep their verdict when another follows |
| DeadCode.BlockExtends | scripts/detect-dead-code.py:85-98 | a block closed before the last line stays a block of the longer text |
| DeadCode.PreviewOfRun | scripts/detect-dead-code.py:97 | the preview is the first three lines joined by newlines, then "..." |
| DeadCode.BlockPreview | scripts/detect-dead-code.py:97-109 | a block's preview is its first three right-stripped lines, then "..." |
| DeadCode.ScanLineKeeps | scripts/detect-dead-code.py:69-100 | reading one line keeps the scanner invariant |
| DeadCode.ScanLinesInvariant | scripts/detect-dead-code.py:69-110 | the invariant holds after every line |
| DeadCode.FileBlocksSound | scripts/detect-dead-code.py:86-110 | every reported block is a maximal run of more than five qualifying lines, in file order |
| DeadCode.BlocksGrow | scripts/detect-dead-code.py:91-98 | reading more lines only appends blocks |
| DeadCode.RunAtEndReported | scripts/detect-dead-code.py:103-110 | a long run reaching the end of file is reported, ending at the last line |
| DeadCode.RunBeforeLineReported | scripts/detect-dead-code.py:86-98 | a long run followed by a non-qualifying line is reported with its bounds |
| DeadCode.FileBlocksComplete | scripts/detect-dead-code.py:86-110 | every maximal run of more than five qualifying lines is reported with its bounds |
| DeadCode.ScanFile | scripts/detect-dead-code.py:69-110 | the loop's blocks are the scanner's blocks |
| DeadCode.DetectCommentedCodeBlocks | scripts/detect-dead-code.py:40-116 | every scanned file's blocks, in order; node_modules and test files are skipped |
| DeadCode.ToolLines | scripts/detect-dead-code.py:138 | the output's lines hold no newline |
| DeadCode.ExportEntryRoundTrip | scripts/detect-dead-code.py:139-145 | the tool's `path: a, b` line reads back as the path and its names |
| DeadCode.EntryLineParts | scripts/detect-dead-code.py:141-145 | around the colon, the printed line strips back to the path and splits back to the names |
| DeadCode.StoreUntouched | scripts/detect-dead-code.py:143-145 | a key no line names keeps its old value |
| DeadCode.StoreLast | scripts/detect-dead-code.py:143-145 | a repeated key keeps the last line's value |
| DeadCode.StoreKeys | scripts/detect-dead-code.py:143-145 | every key was there before or is named by some line |
| DeadCode.ReadLine | scripts/detect-dead-code.py:139-145 | one line is matched and stored |
| DeadCode.ReadLines | scripts/detect-dead-code.py:138-145 | the loop stores every line's entry in order |
| DeadCode.ReadToolRun | scripts/detect-dead-code.py:125-150 | output is parsed only on a failing exit code with output |
| DeadCode.DetectUnusedExports | scripts/detect-dead-code.py:118-181 | the frontend's entries, then the backend's over them |
| DeadCode.BackendOverwrites | scripts/detect-dead-code.py:153-178 | a path the backend names holds the backend's list |
| DeadCode.NoFailingRunNoExports | scripts/detect-dead-code.py:136 | nothing is reported when no tool failed with output |
| DeadCode.LastIndexOf | scripts/detect-dead-code.py:222 | the last position of a character |
| DeadCode.BaseName | scripts/detect-dead-code.py:222 | the name is the part after the last '/' |
| DeadCode.StemDropsExtension | scripts/detect-dead-code.py:222 | the stem drops the last extension only |
| DeadCode.OthersEmptyIff | scripts/detect-dead-code.py:240-245 | the other listings are empty iff every line is empty or names the file itself |
| DeadCode.OwnListingCounts | scripts/detect-dead-code.py:240-245 | a file listed only by its own relative path still counts as imported |
| DeadCode.FindImport | scripts/detect-dead-code.py:228-247 | the flag is set iff some pattern lists another file |
| DeadCode.SearchPatterns | scripts/detect-dead-code.py:228-247 | the loop finds an import iff some pattern's run lists another file |
| DeadCode.ReadGrep | scripts/detect-dead-code.py:239-245 | a run counts iff it succeeded with output and some line does not name the file |
| DeadCode.UnusedFilesSound | scripts/detect-dead-code.py:214-256 | every reported path is a visited file that qualifies |
| DeadCode.UnusedFilesComplete | scripts/detect-dead-code.py:214-256 | every visited file that qualifies is reported |
| DeadCode.DetectPotentiallyUnusedFiles | scripts/detect-dead-code.py:183-259 | the loop reports exactly the qualifying files, in order |
| DeadCode.TotalIssues | scripts/detect-dead-code.py:270 | the total is zero iff all three lists are empty |
| DeadCode.Padded | scripts/detect-dead-code.py:275 | a zero-padded field has at least its width and only digits |
| DeadCode.Timestamp | scripts/detect-dead-code.py:275 | the generation time holds no 'T' |
| DeadCode.NoNeedleWithoutT | scripts/detect-dead-code.py:396 | text without a 'T' never holds the searched "Total Issues:** 0" |
| DeadCode.RepositoryLineClean | scripts/detect-dead-code.py:276 | the repository line does not hold the searched text |
| DeadCode.HeadClean | scripts/detect-dead-code.py:273-276 | the lines before the total never hold the searched text, whatever the time |
| DeadCode.TotalLineChars | scripts/detect-dead-code.py:277 | the total line's label is followed by the number, and its only 'T' starts the label |
| DeadCode.TotalLineExit | scripts/detect-dead-code.py:277 | the total line holds the searched text iff the total is zero |
| DeadCode.ReportExit | scripts/detect-dead-code.py:396-402 | main exits 0 iff the total is zero or the text after the total line holds the searched text |
| DeadCode.BlockTextsContain | scripts/detect-dead-code.py:296-301 | a block's preview text appears in the blocks' entries |
| DeadCode.BlocksSectionContains | scripts/detect-dead-code.py:295-301 | a block's preview text appears in section 1 |
| DeadCode.BodyContainsPreview | scripts/detect-dead-code.py:279-304 | a block's preview text appears in the report after the total line |
| DeadCode.QuotingLineShape | scripts/detect-dead-code.py:70-85 | a comment line quoting "Total Issues:** 0" inside a `const` qualifies as commented code |
| DeadCode.FileBlockPreview | scripts/detect-dead-code.py:85-110 | a reported block's preview is its first three right-stripped lines and an ellipsis |
| DeadCode.PreviewKeepsFirst | scripts/detect-dead-code.py:97 | a preview holds whatever its first line holds |
| DeadCode.RunCarriesNeedle | scripts/detect-dead-code.py:69-110 | six qualifying lines whose first holds the searched text give a block whose preview holds it |
| DeadCode.OneSourceBlocks | scripts/detect-dead-code.py:52-63 | one readable, unskipped file contributes exactly its own blocks |
| DeadCode.PreviewHidesIssues | scripts/detect-dead-code.py:396 | six commented lines quoting the searched text give a nonzero total yet exit status 0 |
| DeadCode.IntendedExitCode | scripts/detect-dead-code.py:393-402 | the intended exit status: 0 iff no block, no unused export and no unused file was found |
| DeadCode.IntendedAgrees | scripts/detect-dead-code.py:396-402 | when the text after the total line lacks the searched text, main's exit status is the intended one |
| DeadCode.DetectDeadCode | scripts/detect-dead-code.py:261-402 | the total is the three counts summed; the report is the modelled text; exit 0 iff nothing is found or the later text holds the searched text |
| LogLevel.HasKeyLineIff | scripts/set-log-level.py:63-66 | the search succeeds iff some line starts with "KEY=" |
| LogLevel.ReplaceLinesByLine | scripts/set-log-level.py:63-69 | the line count is kept; each line is rewritten on its own |
| LogLevel.ReplaceLinesIdempotent | scripts/set-log-level.py:63-69 | substituting twice is substituting once |
| LogLevel.UpdateIdempotent | scripts/set-log-level.py:63-73 | setting the same key and value twice equals setting it once |
| LogLevel.UpdateSetsKey | scripts/set-log-level.py:63-73 | afterwards some line assigns the key, and every such line is `KEY=value` |
| LogLevel.UpdateAppends | scripts/set-log-level.py:70-73 | without an assigning line, the right-stripped content comes first and "\nKEY=value\n" last |
| LogLevel.AnchoredKey | scripts/set-log-level.py:63 | setting LOG_LEVEL keeps VITE_LOG_LEVEL and LOG_LEVEL_X lines |
| LogLevel.EnvFiles.UpdateEnvFile | scripts/set-log-level.py:47-80 | a missing file gives false and nothing is written; otherwise only that file is updated |
| LogLevel.EnvFiles.SetBackendLogLevelLocal | scripts/set-log-level.py:135-147 | updates LOG_LEVEL in .env, or .env.development when .env is missing |
| LogLevel.EnvFiles.SetFrontendLogLevel | scripts/set-log-level.py:149-167 | updates VITE_LOG_LEVEL in the environment's file |
| LogLevel.EnvFiles.Configure | scripts/set-log-level.py:185-218 | exit 0 iff the level is one of the five; a refused level changes nothing; an accepted level rewrites the frontend's or the local backend's chosen file and nothing else; no file is created |
| CiLocal.RemoveFirstAbsent | scripts/run-ci-locally.py:341-343 | removing an absent element changes nothing |
| CiLocal.RemoveFirstAt | scripts/run-ci-locally.py:341-343 | what goes is the first occurrence |
| CiLocal.RemoveFirstCount | scripts/run-ci-locally.py:341-343 | one occurrence goes and everything else stays |
| CiLocal.StepList.Remove | scripts/run-ci-locally.py:343 | the caller's list loses its first occurrence |
| CiLocal.Runnable | scripts/run-ci-locally.py:347-350 | the steps that can run are all in 1..4 |
| CiLocal.RunnableOfSteps | scripts/run-ci-locally.py:347-350 | a list of valid steps runs whole |
| CiLocal.RunStepsMeaning | scripts/run-ci-locally.py:347-364 | the executed steps are a prefix of the runnable ones; all passed except possibly the last; passed iff every executed step passed, and then all ran |
| CiLocal.RunSplit | scripts/run-ci-locally.py:347-359 | after a passing prefix, the run continues with the rest |
| CiLocal.CIRunner.RunStep | scripts/run-ci-locally.py:352-354 | the step is recorded and reports its outcome |
| CiLocal.CIRunner.RunAllSteps | scripts/run-ci-locally.py:314-364 | default [1, 2, 3, 4]; skip removes the first 2 from the caller's list; the result and log are those of the run |
| CiLocal.CIRunner.RunPlan | scripts/run-ci-locally.py:347-364 | the loop's log and result are the run's |
| CiLocal.CIRunner.RunCli | scripts/run-ci-locally.py:409-433 | a bad list or no workspace exits 1 before any step; otherwise exit 0 iff the run passed |
| CiLocal.ParseInts | scripts/run-ci-locally.py:420 | every piece is an integer, or some piece is not |
| CiLocal.ParseSteps | scripts/run-ci-locally.py:417-427 | an accepted list has one step in 1..4 per piece; absent or empty means all |
| CiLocal.StepsRoundTrip | scripts/run-ci-locally.py:417-427 | printed steps joined with commas read back as the same list |
| Benchmarks.NoUnitIff | scripts/compare-benchmarks.py:64-76 | a time has no unit iff its cleaned text has no 's' |
| Benchmarks.UnitlessIff | scripts/compare-benchmarks.py:66-75 | a cleaned time text takes no unit branch iff it holds no 's' |
| Benchmarks.RemoveMarks | scripts/compare-benchmarks.py:64 | removing '~' and '<' takes off a leading mark and nothing else |
| Benchmarks.MicroUnit | scripts/compare-benchmarks.py:64-68 | "~50 μs" is 50 microseconds, whatever the mark |
| Benchmarks.MilliUnit | scripts/compare-benchmarks.py:69-71 | "1.2 ms" is 1200 microseconds |
| Benchmarks.SecondUnit | scripts/compare-benchmarks.py:72-74 | "1.75 sec" is 1750000 microseconds |
| Benchmarks.MicroText | scripts/compare-benchmarks.py:66-68 | a numeral followed by " μs" takes the microsecond branch and gives `float` the numeral |
| Benchmarks.MilliText | scripts/compare-benchmarks.py:69-71 | a numeral followed by " ms" takes the millisecond branch and gives `float` the numeral |
| Benchmarks.SecondsText | scripts/compare-benchmarks.py:72-74 | a numeral followed by " sec" takes the seconds branch and gives `float` the numeral |
| Benchmarks.RowEntry | scripts/compare-benchmarks.py:41-54 | a row's contribution has a non-empty name and a non-zero time |
| Benchmarks.RowCells | scripts/compare-benchmarks.py:42 | a row's cells are its name and its time |
| Benchmarks.PaddedCells | scripts/compare-benchmarks.py:42 | a table row holding a name and a time keeps exactly those two cells |
| Benchmarks.RowEntryOfRow | scripts/compare-benchmarks.py:41-54 | a baseline row gives its name and its time in microseconds |
| Benchmarks.AssignLookup | scripts/compare-benchmarks.py:52 | after `d[k] = v`, k maps to v and other keys are unchanged |
| Benchmarks.AssignKeys | scripts/compare-benchmarks.py:52 | keys keep insertion order; a new key is appended |
| Benchmarks.AssignWellFormed | scripts/compare-benchmarks.py:51-52 | keys stay distinct and values non-zero |
| Benchmarks.Baselines | scripts/compare-benchmarks.py:20-56 | baseline keys are distinct and no value is zero, so the division is safe |
| Benchmarks.BaselinesLast | scripts/compare-benchmarks.py:52 | a later row for the same name overwrites an earlier one |
| Benchmarks.BaselinesAbsent | scripts/compare-benchmarks.py:37-54 | a name no row gives has no baseline |
| Benchmarks.BaselinesRecorded | scripts/compare-benchmarks.py:37-54 | the baselines are the rows' entries recorded in line order |
| Benchmarks.ReadRow | scripts/compare-benchmarks.py:39-54 | one line of the loop is recorded |
| Benchmarks.ParseBaselineMd | scripts/compare-benchmarks.py:20-56 | the loop's dict is the baselines of the lines |
| Benchmarks.FirstMatch | scripts/compare-benchmarks.py:105-110 | the first baseline, in insertion order, whose lowered name is inside the lowered benchmark name |
| Benchmarks.FindBaseline | scripts/compare-benchmarks.py:105-110 | the loop stops at the first applicable baseline |
| Benchmarks.PercentChangeSign | scripts/compare-benchmarks.py:117 | the change is positive iff the time grew, negative iff it shrank |
| Benchmarks.Compared | scripts/compare-benchmarks.py:101-124 | a benchmark has a result iff some baseline applies |
| Benchmarks.Comparisons | scripts/compare-benchmarks.py:100-124 | every result carries its benchmark's baseline |
| Benchmarks.MatchedKept | scripts/compare-benchmarks.py:112-124 | every matched benchmark has its result among them |
| Benchmarks.WithVerdict | scripts/compare-benchmarks.py:126-131 | a list holds results of its own verdict only |
| Benchmarks.Partition | scripts/compare-benchmarks.py:126-131 | every result is in the list of its verdict, and the lists together are as long as the results |
| Benchmarks.VerdictDirection | scripts/compare-benchmarks.py:126-129 | a regression is slower, an improvement faster |
| Benchmarks.CompareOne | scripts/compare-benchmarks.py:101-131 | one benchmark is appended to its verdict's list, or skipped |
| Benchmarks.CompareBenchmarks | scripts/compare-benchmarks.py:79-133 | the three lists are the matched results split by verdict, in input order; no benchmarks key means three empty lists |
| Benchmarks.ExitIffRegression | scripts/compare-benchmarks.py:198-203 | exit 1 iff some result changed by more than the threshold |
| Benchmarks.CompareMain | scripts/compare-benchmarks.py:166-203 | missing arguments, a bad threshold or a missing file exit 1; otherwise the exit follows the regressions |
| Strings.IndexOf | scripts/set-log-level.py:66 | the first occurrence, or none iff absent |
| Strings.JoinSplit | scripts/compare-benchmarks.py:42 | joining the pieces of a split gives back the text |
| Strings.SplitJoin | scripts/run-ci-locally.py:420 | splitting a join gives back the parts |
| Strings.SplitPiecesAvoidSep | scripts/compare-benchmarks.py:42 | no piece of a split contains the separator |
| Strings.DecimalLeadingZero | scripts/run-ci-locally.py:420 | only zero prints with a leading '0' |
| Strings.DigitsValueDecimal | scripts/run-ci-locally.py:420 | the digits `str` prints are read back as the number |
| Strings.ParseIntDecimal | scripts/run-ci-locally.py:420 | `int` reads back what `str` prints, signed or not |

## Findings

| source | as written | input that shows it | evidently intended | confidence | as-written member | corrected member |
|---|---|---|---|---|---|---|
| scripts/detect-dead-code.py:396 | exit 0 when "Total Issues:** 0" occurs anywhere in the report, previews included | a `.ts` file of six lines `// const s = "**Total Issues:** 0";` gives one block and a total of 1, yet exit status 0 | exit 0 iff the total is zero | not executed | DeadCode.PreviewHidesIssues | DeadCode.IntendedExitCode |

## Left out

- Floating point: C++ floats and doubles, and Python floats, are reals. Rounding, NaN and infinities are not modelled.
- Erosion physics, terrain generators, and Perlin `noise`/`fade`/`lerp`/`smoothstep` are not modelled. Hydraulic erosion is a given function that keeps the number of cells.
- `std::mt19937` and `std::shuffle`: the shuffle is a given function returning some permutation of its input.
- JSON text lexing is not modelled. `ParseText` receives the library's outcome.
- Exception message texts of the validator and executor become structured values. The wording of formatted messages is not modelled.
- JobValidator.Validate: requires `totalFrames >= -1` when there are no jobs. Below that, the C++ vector size is library-dependent.
- JobExecutor.Execute: the frame counter is unbounded, so `++frame` overflowing at INT_MAX is not modelled.
- JobExecutor.Execute: hydraulic erosion seeds a fresh `std::mt19937` from `std::random_device` on every call, so its outcome is random. The given erosion function fixes one outcome per input.
- JsonTree.GetInt: a double outside the 32-bit range is truncated and then wrapped. In C++ that conversion is undefined behaviour.
- JobValidator.FindUncoveredFrames: frames are unbounded integers. `totalFrames + 1` and `++frame` overflow at INT_MAX in the C++, and that is not modelled.
- Heightmaps.Heightmap.constructor: `width * height` is exact. The `size_t` product wrapping around is not modelled.
- DependencyAudit.RunAudit: a malformed `package.json` makes `json.load` raise, and so does a config file that is not valid UTF-8. Both end the program with status 1, and neither is modelled.
- Strings.Lower: only ASCII letters are lowered. Python lowers all Unicode letters.
- Strings.ParseInt: Python's `int` also accepts digit-group underscores (`1_0`) and non-ASCII decimal digits; both are rejected here.
- The regex engine is not modelled. Only the three quoted-name import forms and the fixed `.env` and export-line patterns are modelled.
- Subprocesses are given data: `pnpm list`, `ts-unused-exports` and `grep` are results, or functions from pattern to result.
- The file system is given data. `os.walk` and `rglob` become given sequences or a directory tree, in their iteration order.
- `stat` and the modification dates are not modelled. Summary texts are not modelled, except the dead-code report up to its first section.
- DeadCode.DetectDeadCode: sections 2 and 3, the recommendations and the footer of the report are a given function of the findings. Dictionary order, file sizes and dates are not modelled, so the model states only that the searched text there also gives exit status 0.
- The efficiency division by zero in `generate_report` is modelled as `None`.
- DeadCode.ExportEntry: requires a line without '\n'. Every caller's lines come from a split at '\n'.
- LogLevel.EnvFiles.UpdateEnvFile: requires a key without '\n' and a key and value without '\\'. Otherwise `re.sub` reads escapes in the replacement and the pattern would span lines.
- The SSH and remote branch of `set-log-level.py` is not modelled; the production backend is left unchanged.
- `argparse` usage errors and their exit status 2 are not modelled, except the refused log level.
- Exceptions caught in `main` of `detect-dead-code.py` (exit 2) are not modelled.
- CI steps: whether a step passes is a given function of its number. Subprocess output and the `results` dict, which is never read, are not modelled.
- `compare-benchmarks.py`: `float()` is a given partial function. A JSON load failure and `print_results` are not modelled.
- The N-API bindings, log cleanup and capture scripts, and the remote test scripts are outside this model.
