/**
 * The dependency audit: which declared dependencies of each pnpm workspace
 * are referenced. The workspace tree, `pnpm list` output, package.json
 * contents and file contents are given data; the regex searches are the three
 * quoted-name import forms written out as predicates.
 */
module DependencyAudit {
  import opened Wrappers
  import opened Strings
  import opened PathOrder

  // ---------------------------------------------------------------------------
  // Parsing `pnpm list --depth 0`

  datatype Section = Outside | Prod | Dev

  /** A line that opens the production section: it mentions "dependencies:" and nowhere "dev". */
  predicate IsProdHeader(line: string) {
    Contains(Lower(line), "dependencies:") && !Contains(Lower(line), "dev")
  }

  /** A line that opens the development section. */
  predicate IsDevHeader(line: string) {
    Contains(Lower(line), "devdependencies:")
  }

  /** Length of the longest prefix of `s` free of whitespace. */
  function NonSpacePrefix(s: string): (n: nat)
    ensures n <= |s|
    ensures forall i :: 0 <= i < n ==> !IsSpace(s[i])
    ensures n == |s| || IsSpace(s[n])
  {
    if s == [] || IsSpace(s[0]) then 0 else 1 + NonSpacePrefix(s[1..])
  }

  predicate NameStart(c: char) {
    'a' <= c <= 'z' || c == '@'
  }

  /**
   * The match of `^([a-z@][^\s]+)\s+` on the stripped line: a word of at least
   * two characters starting with a lower-case letter or '@', followed by whitespace.
   */
  function PackageName(line: string): Option<string> {
    var t := Strip(line);
    var n := NonSpacePrefix(t);
    if 2 <= n < |t| && NameStart(t[0]) then Some(t[..n]) else None
  }

  /** A package name is a whitespace-free word of two or more characters opening the stripped line, before whitespace. */
  lemma PackageNameShape(line: string)
    ensures var r := PackageName(line);
            r.Some? ==> 2 <= |r.value| < |Strip(line)| && Strip(line)[..|r.value|] == r.value
    ensures var r := PackageName(line);
            r.Some? ==> IsSpace(Strip(line)[|r.value|]) && NameStart(r.value[0])
    ensures var r := PackageName(line);
            r.Some? ==> forall i :: 0 <= i < |r.value| ==> !IsSpace(r.value[i])
  {
    var t := Strip(line);
    var n := NonSpacePrefix(t);
    if 2 <= n < |t| && NameStart(t[0]) {
      assert PackageName(line) == Some(t[..n]);
    }
  }

  /** A stripped line with no whitespace inside (a bare name, no version) yields no package. */
  lemma BareNameDropped(line: string)
    requires forall i :: 0 <= i < |Strip(line)| ==> !IsSpace(Strip(line)[i])
    ensures PackageName(line) == None
  {
  }

  /** "name version" yields the name. */
  lemma NameWithVersionParsed(name: string, version: string)
    requires |name| >= 2 && NameStart(name[0])
    requires forall i :: 0 <= i < |name| ==> !IsSpace(name[i])
    requires version != [] && !IsSpace(version[|version| - 1])
    ensures PackageName(name + " " + version) == Some(name)
  {
    var line := name + " " + version;
    assert !IsSpace(line[0]) && !IsSpace(line[|line| - 1]);
    assert LStrip(line) == line;
    assert RStrip(line) == line;
    var t := Strip(line);
    assert forall i :: 0 <= i < |name| ==> t[i] == name[i] && !IsSpace(t[i]);
    assert IsSpace(t[|name|]);
    var n := NonSpacePrefix(t);
    assert n == |name|;
    assert t[..n] == name;
  }

  /** What the parser has seen so far: the section in force and the names collected. */
  datatype ListState = ListState(section: Section, prod: seq<string>, dev: seq<string>)

  /** One line of the listing. */
  function Step(st: ListState, line: string): ListState {
    if IsProdHeader(line) then st.(section := Prod)
    else if IsDevHeader(line) then st.(section := Dev)
    else if Strip(line) != [] && st.section != Outside && PackageName(line).Some? then
      if st.section == Prod then st.(prod := st.prod + [PackageName(line).value])
      else st.(dev := st.dev + [PackageName(line).value])
    else st
  }

  /** The state after reading `lines` from the start. */
  function Scan(lines: seq<string>): ListState {
    if lines == [] then ListState(Outside, [], [])
    else Step(Scan(lines[..|lines| - 1]), lines[|lines| - 1])
  }

  function Collected(st: ListState, section: Section): seq<string> {
    if section == Prod then st.prod else if section == Dev then st.dev else []
  }

  /** Line `i` lists `name` under `section`: not a header, with `section` in force before it. */
  predicate ListsPackage(lines: seq<string>, i: int, section: Section, name: string) {
    && 0 <= i < |lines|
    && section != Outside
    && Scan(lines[..i]).section == section
    && !IsProdHeader(lines[i]) && !IsDevHeader(lines[i])
    && PackageName(lines[i]) == Some(name)
  }

  /** parse_pnpm_list: the lines of the output run through the two-section state machine. */
  method ParsePnpmList(output: string) returns (dependencies: seq<string>, devDependencies: seq<string>)
    ensures dependencies == Scan(Split(output, "\n")).prod
    ensures devDependencies == Scan(Split(output, "\n")).dev
  {
    var lines := Split(output, "\n");
    var section := Outside;
    dependencies, devDependencies := [], [];
    for i := 0 to |lines|
      invariant Scan(lines[..i]) == ListState(section, dependencies, devDependencies)
    {
      assert lines[..i + 1] == lines[..i] + [lines[i]];
      section, dependencies, devDependencies := ReadListLine(lines[i], section, dependencies, devDependencies);
    }
    assert lines[..|lines|] == lines;
  }

  /** The body of the parsing loop: a header switches the section, a package line in a section is collected. */
  method ReadListLine(line: string, section: Section, dependencies: seq<string>, devDependencies: seq<string>)
    returns (section': Section, dependencies': seq<string>, devDependencies': seq<string>)
    ensures ListState(section', dependencies', devDependencies') == Step(ListState(section, dependencies, devDependencies), line)
  {
    section', dependencies', devDependencies' := section, dependencies, devDependencies;
    if IsProdHeader(line) {
      section' := Prod;
    } else if IsDevHeader(line) {
      section' := Dev;
    } else if Strip(line) != [] && section != Outside {
      var found := PackageName(line);
      if found.Some? {
        if section == Prod {
          dependencies' := dependencies + [found.value];
        } else {
          devDependencies' := devDependencies + [found.value];
        }
      }
    }
  }

  /** A line the current section takes as a package: not a header, and naming one. */
  predicate Takes(st: ListState, line: string, section: Section) {
    section != Outside && st.section == section
    && !IsProdHeader(line) && !IsDevHeader(line) && PackageName(line).Some?
  }

  /** One line adds at most its own package to a section, and only when that section is in force. */
  lemma StepCollected(st: ListState, line: string, section: Section)
    ensures Collected(Step(st, line), section) ==
              Collected(st, section) + (if Takes(st, line, section) then [PackageName(line).value] else [])
  {
    if IsProdHeader(line) || IsDevHeader(line) || st.section == Outside || PackageName(line).None? {
      StepKeeps(st, line, section);
    } else {
      StepAdds(st, line, section);
    }
  }

  /** A header, a line outside any section or a line naming no package collects nothing. */
  lemma StepKeeps(st: ListState, line: string, section: Section)
    requires IsProdHeader(line) || IsDevHeader(line) || st.section == Outside || PackageName(line).None?
    ensures !Takes(st, line, section) && Collected(Step(st, line), section) == Collected(st, section)
  {
    if IsProdHeader(line) {
      assert Step(st, line) == st.(section := Prod);
    } else if IsDevHeader(line) {
      assert Step(st, line) == st.(section := Dev);
    } else {
      assert Step(st, line) == st;
    }
  }

  /** A package line inside a section is collected under that section only. */
  lemma StepAdds(st: ListState, line: string, section: Section)
    requires !IsProdHeader(line) && !IsDevHeader(line) && st.section != Outside && PackageName(line).Some?
    ensures Takes(st, line, section) <==> section == st.section
    ensures Collected(Step(st, line), section) ==
              Collected(st, section) + (if section == st.section then [PackageName(line).value] else [])
  {
    var found := PackageName(line);
    PackageNameShape(line);
    var next := if st.section == Prod then st.(prod := st.prod + [found.value]) else st.(dev := st.dev + [found.value]);
    assert Step(st, line) == next;
  }

  lemma ListsPackageSnoc(init: seq<string>, last: string, section: Section, name: string, i: int)
    requires 0 <= i <= |init|
    ensures ListsPackage(init + [last], i, section, name) <==>
              if i < |init| then ListsPackage(init, i, section, name)
              else Takes(Scan(init), last, section) && PackageName(last) == Some(name)
  {
    assert (init + [last])[..i] == init[..i];
    assert (init + [last])[i] == if i < |init| then init[i] else last;
  }

  /** A name is collected under a section exactly when some non-header line in that section lists it. */
  lemma {:induction false} ScanExactly(lines: seq<string>, section: Section, name: string)
    ensures name in Collected(Scan(lines), section) <==> exists i :: ListsPackage(lines, i, section, name)
    decreases |lines|
  {
    if lines == [] {
      return;
    }
    var init := lines[..|lines| - 1];
    var last := lines[|lines| - 1];
    assert lines == init + [last];
    ScanExactly(init, section, name);
    ScanAppends(init, last, section);
    if name in Collected(Scan(init), section) {
      var i :| ListsPackage(init, i, section, name);
      ListsPackageSnoc(init, last, section, name, i);
    } else if name in Collected(Scan(lines), section) {
      ListsPackageSnoc(init, last, section, name, |init|);
    }
    if exists i :: ListsPackage(lines, i, section, name) {
      var i :| ListsPackage(lines, i, section, name);
      ListsPackageSnoc(init, last, section, name, i);
    }
  }

  /** Lines before the first header yield nothing. */
  lemma {:induction false} NothingBeforeHeader(lines: seq<string>)
    requires forall i :: 0 <= i < |lines| ==> !IsProdHeader(lines[i]) && !IsDevHeader(lines[i])
    ensures Scan(lines) == ListState(Outside, [], [])
    decreases |lines|
  {
    if lines != [] {
      NothingBeforeHeader(lines[..|lines| - 1]);
    }
  }

  lemma ScanSnoc(lines: seq<string>, line: string)
    ensures Scan(lines + [line]) == Step(Scan(lines), line)
  {
    assert (lines + [line])[..|lines|] == lines;
  }

  /** Reading one more line keeps every name collected so far and can only add its own at the end. */
  lemma ScanAppends(lines: seq<string>, line: string, section: Section)
    ensures Collected(Scan(lines + [line]), section) ==
              Collected(Scan(lines), section)
              + (if Takes(Scan(lines), line, section) then [PackageName(line).value] else [])
  {
    ScanSnoc(lines, line);
    StepCollected(Scan(lines), line, section);
  }

  // ---------------------------------------------------------------------------
  // Dependencies and workspaces

  /** What the usage check records about one dependency. */
  datatype Usage = Usage(used: bool, locations: seq<string>, reason: string)

  const Unchecked: Usage := Usage(false, [], "")

  class DependencyInfo {
    const name: string
    const version: string
    const isDev: bool
    var used: bool
    var usageLocations: seq<string>
    var usageReason: string

    /** A dependency not yet checked: unused, no locations, no reason. */
    constructor(name: string, version: string, isDev: bool)
      ensures this.name == name && this.version == version && this.isDev == isDev
      ensures CurrentUsage() == Unchecked
    {
      this.name := name;
      this.version := version;
      this.isDev := isDev;
      used := false;
      usageLocations := [];
      usageReason := "";
    }

    function CurrentUsage(): Usage
      reads this
    {
      Usage(used, usageLocations, usageReason)
    }
  }

  datatype WorkspaceInfo = WorkspaceInfo(
    name: string,
    path: Path,
    dependencies: seq<DependencyInfo>,
    devDependencies: seq<DependencyInfo>)
  {
    /** Production dependencies, then development ones. */
    function All(): seq<DependencyInfo> {
      dependencies + devDependencies
    }
  }

  /** The parts of a package.json the audit reads. */
  datatype PackageJson = PackageJson(
    name: Option<string>,
    dependencies: map<string, string>,
    devDependencies: map<string, string>)

  function VersionOf(declared: map<string, string>, name: string): string {
    if name in declared then declared[name] else "unknown"
  }

  /** The package's own name, or else the directory's name. */
  function WorkspaceName(dir: Path, rootName: string, pkg: PackageJson): string {
    pkg.name.GetOr(if dir == [] then rootName else dir[|dir| - 1])
  }

  predicate Declares(deps: seq<DependencyInfo>, names: seq<string>, declared: map<string, string>, isDev: bool) {
    && |deps| == |names|
    && forall k :: 0 <= k < |deps| ==>
         deps[k].name == names[k] && deps[k].version == VersionOf(declared, names[k]) && deps[k].isDev == isDev
  }

  predicate Distinct(deps: seq<DependencyInfo>) {
    forall a, b :: 0 <= a < b < |deps| ==> deps[a] != deps[b]
  }

  /** One fresh, unchecked record per listed name, with the version package.json declares. */
  method NewDependencies(names: seq<string>, declared: map<string, string>, isDev: bool)
    returns (deps: seq<DependencyInfo>)
    ensures Declares(deps, names, declared, isDev)
    ensures Distinct(deps)
    ensures forall d :: d in deps ==> fresh(d) && d.CurrentUsage() == Unchecked
  {
    deps := [];
    for k := 0 to |names|
      invariant Declares(deps, names[..k], declared, isDev)
      invariant Distinct(deps)
      invariant forall d :: d in deps ==> fresh(d) && d.CurrentUsage() == Unchecked
    {
      var d := new DependencyInfo(names[k], VersionOf(declared, names[k]), isDev);
      deps := deps + [d];
    }
  }

  /**
   * get_workspace_dependencies: `pnpmList` is the listing's output, or None
   * when the command failed, in which case both lists are empty.
   */
  method GetWorkspaceDependencies(dir: Path, rootName: string, pkg: PackageJson, pnpmList: Option<string>)
    returns (ws: WorkspaceInfo)
    ensures ws.name == WorkspaceName(dir, rootName, pkg) && ws.path == dir
    ensures pnpmList.None? ==> ws.dependencies == [] && ws.devDependencies == []
    ensures pnpmList.Some? ==>
              && Declares(ws.dependencies, Scan(Split(pnpmList.value, "\n")).prod, pkg.dependencies, false)
              && Declares(ws.devDependencies, Scan(Split(pnpmList.value, "\n")).dev, pkg.devDependencies, true)
    ensures Distinct(ws.All())
    ensures forall d :: d in ws.All() ==> fresh(d) && d.CurrentUsage() == Unchecked
  {
    var name := WorkspaceName(dir, rootName, pkg);
    if pnpmList.None? {
      return WorkspaceInfo(name, dir, [], []);
    }
    var prodNames, devNames := ParsePnpmList(pnpmList.value);
    var prod := NewDependencies(prodNames, pkg.dependencies, false);
    var dev := NewDependencies(devNames, pkg.devDependencies, true);
    ws := WorkspaceInfo(name, dir, prod, dev);
    assert forall a, b :: 0 <= a < |prod| && 0 <= b < |dev| ==> prod[a] != dev[b];
  }

  // ---------------------------------------------------------------------------
  // Deciding whether a dependency is used

  /** Packages used without being imported, with the reason reported for each. */
  const ImplicitUsage: map<string, string> := map[
    "typescript" := "TypeScript compiler",
    "vite" := "Build tool",
    "vitest" := "Test runner",
    "eslint" := "Linting",
    "playwright" := "E2E testing",
    "@playwright/test" := "E2E testing",
    "tailwindcss" := "Styling framework",
    "postcss" := "CSS processing (via Tailwind)",
    "autoprefixer" := "CSS vendor prefixes (via PostCSS)",
    "jsdom" := "Vitest test environment",
    "tsx" := "TypeScript execution",
    "cmake-js" := "Native addon build system",
    "node-addon-api" := "Native addon API"
  ]

  /** Configuration files searched, in this order, in the workspace directory. */
  const ConfigFiles: seq<string> := [
    "vite.config.ts", "vite.config.js",
    "vitest.config.ts", "vitest.config.js",
    "postcss.config.js", "postcss.config.cjs",
    "tailwind.config.js", "tailwind.config.ts",
    "eslint.config.js", "eslint.config.mjs",
    ".eslintrc.js", ".eslintrc.json",
    "playwright.config.ts", "playwright.config.js",
    "package.json"
  ]

  const SourceExtensions: seq<string> := [".ts", ".tsx", ".js", ".jsx", ".mjs", ".cjs"]

  /** A file met by the walks of src, tests, test and e2e: its path from the project root, and its text (None when unreadable). */
  datatype SourceFile = SourceFile(path: string, content: Option<string>)

  /**
   * A workspace's files as the check sees them: the configuration files that
   * exist, by file name, and the files under its source directories in walk order.
   */
  datatype WorkspaceFiles = WorkspaceFiles(configs: map<string, string>, sources: seq<SourceFile>)

  /** A workspace's audit inputs. */
  datatype WorkspaceSource = WorkspaceSource(packageJson: PackageJson, pnpmList: Option<string>, files: WorkspaceFiles)

  /** The path of a workspace file relative to the project root. */
  function ConfigPath(dir: Path, file: string): string {
    Join(dir + [file], "/")
  }

  predicate IsQuote(c: char) {
    c == '\'' || c == '"'
  }

  /** `['"]name['"]` at position m */
  predicate QuotedAt(c: string, name: string, m: int) {
    0 <= m && m + |name| + 2 <= |c| && IsQuote(c[m]) && OccursAt(c, name, m + 1) && IsQuote(c[m + |name| + 1])
  }

  /** `\s+` covering exactly c[a..b] */
  predicate SpaceRun(c: string, a: int, b: int) {
    0 <= a < b <= |c| && forall t :: a <= t < b ==> IsSpace(c[t])
  }

  /** `.*?` covering exactly c[a..b]: no line break */
  predicate LineRun(c: string, a: int, b: int) {
    0 <= a <= b <= |c| && forall t :: a <= t < b ==> c[t] != '\n'
  }

  /** `from\s+['"]name['"]` at position k */
  predicate FromAt(c: string, name: string, k: int) {
    OccursAt(c, "from", k) && exists m :: k + 4 < m <= |c| && SpaceRun(c, k + 4, m) && QuotedAt(c, name, m)
  }

  /** `.*?from\s+['"]name['"]` at position j */
  predicate FromAfter(c: string, name: string, j: int) {
    exists k :: j <= k <= |c| && LineRun(c, j, k) && FromAt(c, name, k)
  }

  /** `import\s+.*?from\s+['"]name['"]` at position i */
  predicate ImportFromAt(c: string, name: string, i: int) {
    OccursAt(c, "import", i) && exists j :: i + 6 < j <= |c| && SpaceRun(c, i + 6, j) && FromAfter(c, name, j)
  }

  /** `import\s+['"]name['"]` at position i */
  predicate BareImportAt(c: string, name: string, i: int) {
    OccursAt(c, "import", i) && exists m :: i + 6 < m <= |c| && SpaceRun(c, i + 6, m) && QuotedAt(c, name, m)
  }

  /** `require\(['"]name['"]\)` at position i */
  predicate RequireAt(c: string, name: string, i: int) {
    OccursAt(c, "require(", i) && QuotedAt(c, name, i + 8) && i + |name| + 11 <= |c| && c[i + |name| + 10] == ')'
  }

  /** The three reference forms, searched in this order. */
  datatype ImportPattern = ImportFrom | BareImport | Require

  const ImportPatterns: seq<ImportPattern> := [ImportFrom, BareImport, Require]

  /** `re.search` of one form, with the name escaped so that it matches only itself. */
  predicate Search(pattern: ImportPattern, c: string, name: string) {
    exists i :: 0 <= i <= |c| && MatchesAt(pattern, c, name, i)
  }

  predicate MatchesAt(pattern: ImportPattern, c: string, name: string, i: int) {
    match pattern
    case ImportFrom => ImportFromAt(c, name, i)
    case BareImport => BareImportAt(c, name, i)
    case Require => RequireAt(c, name, i)
  }

  /** One of the first `p` forms occurs in `c`. */
  predicate FirstPatterns(c: string, name: string, p: nat)
    requires p <= |ImportPatterns|
  {
    p > 0 && (FirstPatterns(c, name, p - 1) || Search(ImportPatterns[p - 1], c, name))
  }

  predicate ImportsPackage(c: string, name: string) {
    FirstPatterns(c, name, |ImportPatterns|)
  }

  /** A source file is read only when its name has a source extension and it can be decoded. */
  predicate Scannable(f: SourceFile) {
    (exists e :: e in SourceExtensions && EndsWith(f.path, e)) && f.content.Some?
  }

  predicate Imports(f: SourceFile, name: string) {
    Scannable(f) && ImportsPackage(f.content.value, name)
  }

  predicate SourceUses(sources: seq<SourceFile>, name: string) {
    exists k :: 0 <= k < |sources| && Imports(sources[k], name)
  }

  predicate Mentions(configs: map<string, string>, file: string, name: string) {
    file in configs && Contains(configs[file], name)
  }

  /** The paths of the listed configuration files that exist and contain the name, in list order. */
  function ConfigHits(dir: Path, configs: map<string, string>, name: string, files: seq<string>): seq<string> {
    if files == [] then []
    else
      var last := files[|files| - 1];
      ConfigHits(dir, configs, name, files[..|files| - 1])
        + (if Mentions(configs, last, name) then [ConfigPath(dir, last)] else [])
  }

  /** `locations` extended, in walk order, by each importing file's path not already present. */
  function SourceHits(locations: seq<string>, sources: seq<SourceFile>, name: string): seq<string> {
    if sources == [] then locations
    else
      var prev := SourceHits(locations, sources[..|sources| - 1], name);
      var f := sources[|sources| - 1];
      if Imports(f, name) && f.path !in prev then prev + [f.path] else prev
  }

  /** check_dependency_usage as a function of the record's state before the check. */
  function Checked(name: string, dir: Path, files: WorkspaceFiles, before: Usage): Usage {
    if name in ImplicitUsage then
      before.(used := true, reason := ImplicitUsage[name])
    else if StartsWith(name, "@types/") then
      before.(used := true, reason := "TypeScript types for " + Replace(name, "@types/", ""))
    else
      var hits := ConfigHits(dir, files.configs, name, ConfigFiles);
      before.(used := before.used || hits != [] || SourceUses(files.sources, name),
              locations := SourceHits(before.locations + hits, files.sources, name))
  }

  /** check_dependency_usage: the allowlist, then `@types/`, then configuration files, then source imports. */
  method CheckDependencyUsage(dep: DependencyInfo, dir: Path, files: WorkspaceFiles)
    modifies dep
    ensures dep.CurrentUsage() == Checked(dep.name, dir, files, old(dep.CurrentUsage()))
  {
    var name := dep.name;
    if name in ImplicitUsage {
      dep.used := true;
      dep.usageReason := ImplicitUsage[name];
      return;
    }
    if StartsWith(name, "@types/") {
      var basePackage := Replace(name, "@types/", "");
      dep.used := true;
      dep.usageReason := "TypeScript types for " + basePackage;
      return;
    }
    CheckConfigFiles(dep, dir, files.configs);
    CheckSourceFiles(dep, files.sources);
  }

  /** The source-file loop of check_dependency_usage, over the walked files in order. */
  method CheckSourceFiles(dep: DependencyInfo, sources: seq<SourceFile>)
    modifies dep
    ensures dep.usageLocations == SourceHits(old(dep.usageLocations), sources, dep.name)
    ensures dep.used == (old(dep.used) || SourceUses(sources, dep.name))
    ensures dep.usageReason == old(dep.usageReason)
  {
    var name := dep.name;
    for k := 0 to |sources|
      invariant dep.usageLocations == SourceHits(old(dep.usageLocations), sources[..k], name)
      invariant dep.used == (old(dep.used) || SourceUses(sources[..k], name))
      invariant dep.usageReason == old(dep.usageReason)
    {
      CheckSourceFile(dep, sources[k]);
      assert sources[..k + 1][..k] == sources[..k];
      SourceUsesStep(sources[..k + 1], name);
    }
    assert sources[..|sources|] == sources;
  }

  /** One more listed file adds its path when it exists and names the package. */
  lemma ConfigHitsStep(dir: Path, configs: map<string, string>, name: string, files: seq<string>, i: nat)
    requires i < |files|
    ensures ConfigHits(dir, configs, name, files[..i + 1]) ==
              ConfigHits(dir, configs, name, files[..i]) + (if Mentions(configs, files[i], name) then [ConfigPath(dir, files[i])] else [])
  {
    assert files[..i + 1][..i] == files[..i];
  }

  /** The configuration-file loop of check_dependency_usage: each listed file that exists and names the package is a location. */
  method CheckConfigFiles(dep: DependencyInfo, dir: Path, configs: map<string, string>)
    modifies dep
    ensures dep.usageLocations == old(dep.usageLocations) + ConfigHits(dir, configs, dep.name, ConfigFiles)
    ensures dep.used == (old(dep.used) || ConfigHits(dir, configs, dep.name, ConfigFiles) != [])
    ensures dep.usageReason == old(dep.usageReason)
  {
    var name := dep.name;
    for i := 0 to |ConfigFiles|
      invariant dep.usageLocations == old(dep.usageLocations) + ConfigHits(dir, configs, name, ConfigFiles[..i])
      invariant dep.used == (old(dep.used) || ConfigHits(dir, configs, name, ConfigFiles[..i]) != [])
      invariant dep.usageReason == old(dep.usageReason)
    {
      var configFile := ConfigFiles[i];
      ConfigHitsStep(dir, configs, name, ConfigFiles, i);
      if configFile in configs {
        var content := configs[configFile];
        if Contains(content, name) {
          dep.used := true;
          dep.usageLocations := dep.usageLocations + [ConfigPath(dir, configFile)];
        }
      }
    }
    assert ConfigFiles[..|ConfigFiles|] == ConfigFiles;
  }

  /** One source file of check_dependency_usage: any import form found marks the package used, and the file's path is added once. */
  method CheckSourceFile(dep: DependencyInfo, file: SourceFile)
    modifies dep
    ensures dep.usageLocations ==
              if Imports(file, dep.name) && file.path !in old(dep.usageLocations) then old(dep.usageLocations) + [file.path]
              else old(dep.usageLocations)
    ensures dep.used == (old(dep.used) || Imports(file, dep.name))
    ensures dep.usageReason == old(dep.usageReason)
  {
    var name := dep.name;
    if Scannable(file) {
      var content := file.content.value;
      for p := 0 to |ImportPatterns|
        invariant dep.usageLocations ==
          (if FirstPatterns(content, name, p) && file.path !in old(dep.usageLocations) then old(dep.usageLocations) + [file.path]
           else old(dep.usageLocations))
        invariant dep.used == (old(dep.used) || FirstPatterns(content, name, p))
        invariant dep.usageReason == old(dep.usageReason)
      {
        if Search(ImportPatterns[p], content, name) {
          dep.used := true;
          if file.path !in dep.usageLocations {
            dep.usageLocations := dep.usageLocations + [file.path];
          }
        }
      }
    }
  }

  lemma SourceUsesStep(sources: seq<SourceFile>, name: string)
    requires sources != []
    ensures SourceUses(sources, name) <==>
              SourceUses(sources[..|sources| - 1], name) || Imports(sources[|sources| - 1], name)
  {
    var init := sources[..|sources| - 1];
    if SourceUses(sources, name) && !Imports(sources[|sources| - 1], name) {
      var k :| 0 <= k < |sources| && Imports(sources[k], name);
      assert init[k] == sources[k];
    }
    if SourceUses(init, name) {
      var k :| 0 <= k < |init| && Imports(init[k], name);
      assert sources[k] == init[k];
    }
  }

  predicate NoRepeats(s: seq<string>) {
    forall a, b :: 0 <= a < b < |s| ==> s[a] != s[b]
  }

  /** Some scanned file at path `p` imports the package. */
  predicate ImportedFrom(sources: seq<SourceFile>, name: string, p: string) {
    exists k :: 0 <= k < |sources| && Imports(sources[k], name) && sources[k].path == p
  }

  lemma ImportedFromStep(sources: seq<SourceFile>, name: string, p: string)
    requires sources != []
    ensures ImportedFrom(sources, name, p) <==>
              || ImportedFrom(sources[..|sources| - 1], name, p)
              || (Imports(sources[|sources| - 1], name) && sources[|sources| - 1].path == p)
  {
    var init := sources[..|sources| - 1];
    if ImportedFrom(sources, name, p) {
      var k :| 0 <= k < |sources| && Imports(sources[k], name) && sources[k].path == p;
      if k < |init| {
        assert init[k] == sources[k];
      }
    }
    if ImportedFrom(init, name, p) {
      var k :| 0 <= k < |init| && Imports(init[k], name) && init[k].path == p;
      assert sources[k] == init[k];
    }
  }

  /**
   * The source scan keeps the locations it starts from and adds, without
   * repeats, exactly the paths of importing files not already listed.
   */
  lemma {:induction false} SourceHitsExactly(locations: seq<string>, sources: seq<SourceFile>, name: string)
    ensures |locations| <= |SourceHits(locations, sources, name)|
    ensures SourceHits(locations, sources, name)[..|locations|] == locations
    ensures NoRepeats(SourceHits(locations, sources, name)[|locations|..])
    ensures forall p :: p in SourceHits(locations, sources, name)[|locations|..] <==>
              p !in locations && ImportedFrom(sources, name, p)
    decreases |sources|
  {
    if sources != [] {
      var init := sources[..|sources| - 1];
      var f := sources[|sources| - 1];
      SourceHitsExactly(locations, init, name);
      var prev := SourceHits(locations, init, name);
      var prevAdded := prev[|locations|..];
      assert prev == locations + prevAdded;
      var added := SourceHits(locations, sources, name)[|locations|..];
      if Imports(f, name) && f.path !in prev {
        assert SourceHits(locations, sources, name) == locations + (prevAdded + [f.path]);
        assert added == prevAdded + [f.path];
      } else {
        assert added == prevAdded;
      }
      forall p ensures p in added <==> p !in locations && ImportedFrom(sources, name, p) {
        ImportedFromStep(sources, name, p);
      }
    }
  }

  /** The configuration hits are exactly the listed files that exist and contain the name. */
  lemma {:induction false} ConfigHitsExactly(dir: Path, configs: map<string, string>, name: string, files: seq<string>)
    ensures ConfigHits(dir, configs, name, files) != [] <==> exists k :: 0 <= k < |files| && Mentions(configs, files[k], name)
    ensures forall p :: p in ConfigHits(dir, configs, name, files) <==>
              exists k :: 0 <= k < |files| && Mentions(configs, files[k], name) && ConfigPath(dir, files[k]) == p
    decreases |files|
  {
    if files != [] {
      var init := files[..|files| - 1];
      ConfigHitsExactly(dir, configs, name, init);
      forall p ensures p in ConfigHits(dir, configs, name, files) <==>
          exists k :: 0 <= k < |files| && Mentions(configs, files[k], name) && ConfigPath(dir, files[k]) == p
      {
        if p in ConfigHits(dir, configs, name, init) {
          var k :| 0 <= k < |init| && Mentions(configs, init[k], name) && ConfigPath(dir, init[k]) == p;
          assert files[k] == init[k];
        }
        if exists k :: 0 <= k < |files| && Mentions(configs, files[k], name) && ConfigPath(dir, files[k]) == p {
          var k :| 0 <= k < |files| && Mentions(configs, files[k], name) && ConfigPath(dir, files[k]) == p;
          if k < |init| {
            assert init[k] == files[k];
          }
        }
      }
      if exists k :: 0 <= k < |files| && Mentions(configs, files[k], name) {
        var k :| 0 <= k < |files| && Mentions(configs, files[k], name);
        assert ConfigPath(dir, files[k]) in ConfigHits(dir, configs, name, files);
      }
    }
  }

  /** An allowlisted name is used for its listed reason, and nothing is scanned. */
  lemma AllowlistedSkipsScan(name: string, dir: Path, files: WorkspaceFiles, before: Usage)
    requires name in ImplicitUsage
    ensures Checked(name, dir, files, before) == before.(used := true, reason := ImplicitUsage[name])
  {
  }

  /** Any other type package is used for its base package, and nothing is scanned. */
  lemma TypesPackageSkipsScan(name: string, dir: Path, files: WorkspaceFiles, before: Usage)
    requires name !in ImplicitUsage && StartsWith(name, "@types/")
    ensures Checked(name, dir, files, before).used
    ensures Checked(name, dir, files, before).locations == before.locations
    ensures Checked(name, dir, files, before).reason == "TypeScript types for " + Replace(name, "@types/", "")
  {
  }

  /**
   * Otherwise the dependency is used exactly when it already was, or a
   * configuration file mentions it, or a source file imports it; the reason is
   * untouched; the locations are the old ones, then the configuration files in
   * list order, then the new importing files without repeats.
   */
  lemma UsedIffReferenced(name: string, dir: Path, files: WorkspaceFiles, before: Usage)
    requires name !in ImplicitUsage && !StartsWith(name, "@types/")
    ensures Checked(name, dir, files, before).used <==>
              || before.used
              || (exists k :: 0 <= k < |ConfigFiles| && Mentions(files.configs, ConfigFiles[k], name))
              || SourceUses(files.sources, name)
    ensures Checked(name, dir, files, before).reason == before.reason
    ensures var hits := ConfigHits(dir, files.configs, name, ConfigFiles);
            var after := Checked(name, dir, files, before).locations;
            && |before.locations + hits| <= |after|
            && after[..|before.locations + hits|] == before.locations + hits
            && NoRepeats(after[|before.locations + hits|..])
  {
    ConfigHitsExactly(dir, files.configs, name, ConfigFiles);
    SourceHitsExactly(before.locations + ConfigHits(dir, files.configs, name, ConfigFiles), files.sources, name);
  }

  /** `re.search` finds the form `import x from 'name'`. */
  lemma ImportFromFound(name: string)
    ensures ImportsPackage("import x from '" + name + "'", name)
  {
    var c := "import x from '" + name + "'";
    assert c[0..6] == "import";
    assert c[9..13] == "from";
    assert c[15..15 + |name|] == name;
    assert SpaceRun(c, 13, 14);
    assert QuotedAt(c, name, 14);
    assert FromAt(c, name, 9);
    assert LineRun(c, 7, 9);
    assert FromAfter(c, name, 7);
    assert SpaceRun(c, 6, 7);
    assert ImportFromAt(c, name, 0);
    assert MatchesAt(ImportFrom, c, name, 0);
    assert Search(ImportFrom, c, name);
  }

  /** `re.search` finds the form `require('name')`. */
  lemma RequireFound(name: string)
    ensures ImportsPackage("require('" + name + "')", name)
  {
    var c := "require('" + name + "')";
    assert c[0..8] == "require(";
    assert c[9..9 + |name|] == name;
    assert RequireAt(c, name, 0);
    assert MatchesAt(Require, c, name, 0);
    assert Search(Require, c, name);
  }

  /** A quoted match ends with a quote right after the name, so `'name/sub'` is not `'name'`. */
  lemma QuotedNameIsWhole(c: string, name: string, m: int)
    requires QuotedAt(c, name, m) && m + |name| + 1 < |c|
    ensures c[m + |name| + 1] != '/'
  {
  }

  /** One workspace: its dependencies listed, then each one checked. */
  predicate Audited(ws: WorkspaceInfo, dir: Path, rootName: string, src: WorkspaceSource)
    reads set d | d in ws.All()
  {
    && ws.name == WorkspaceName(dir, rootName, src.packageJson)
    && ws.path == dir
    && (src.pnpmList.None? ==> ws.All() == [])
    && (src.pnpmList.Some? ==>
         && Declares(ws.dependencies, Scan(Split(src.pnpmList.value, "\n")).prod, src.packageJson.dependencies, false)
         && Declares(ws.devDependencies, Scan(Split(src.pnpmList.value, "\n")).dev, src.packageJson.devDependencies, true))
    && forall d :: d in ws.All() ==> d.CurrentUsage() == Checked(d.name, dir, src.files, Unchecked)
  }

  /** The body of audit_workspaces for one package.json. */
  /** Each record of `deps`, in turn, through check_dependency_usage. */
  method CheckAll(deps: seq<DependencyInfo>, dir: Path, files: WorkspaceFiles)
    requires Distinct(deps)
    modifies set d | d in deps
    ensures forall k :: 0 <= k < |deps| ==>
              deps[k].CurrentUsage() == Checked(deps[k].name, dir, files, old(deps[k].CurrentUsage()))
  {
    for i := 0 to |deps|
      invariant forall k :: 0 <= k < i ==>
                  deps[k].CurrentUsage() == Checked(deps[k].name, dir, files, old(deps[k].CurrentUsage()))
      invariant forall k :: i <= k < |deps| ==> deps[k].CurrentUsage() == old(deps[k].CurrentUsage())
    {
      CheckDependencyUsage(deps[i], dir, files);
    }
  }

  /** The body of audit_workspaces for one package.json. */
  method AuditWorkspace(dir: Path, rootName: string, src: WorkspaceSource) returns (ws: WorkspaceInfo)
    ensures Audited(ws, dir, rootName, src)
    ensures forall d :: d in ws.All() ==> fresh(d)
  {
    ws := GetWorkspaceDependencies(dir, rootName, src.packageJson, src.pnpmList);
    CheckAll(ws.All(), dir, src.files);
  }

  // ---------------------------------------------------------------------------
  // Finding the workspaces

  /** A directory: its name, its file names and its subdirectories. */
  datatype Dir = Dir(name: string, files: seq<string>, children: seq<Dir>)

  /** The top-down walk from `d`, found at path `at`, pruning node_modules: the package.json paths, in walk order. */
  function Walk(d: Dir, at: Path): seq<Path>
    decreases d, 1
  {
    (if "package.json" in d.files then [at + ["package.json"]] else []) + WalkFrom(d, 0, at)
  }

  function WalkFrom(d: Dir, i: nat, at: Path): seq<Path>
    requires i <= |d.children|
    decreases d, 0, |d.children| - i
  {
    if i == |d.children| then []
    else
      var c := d.children[i];
      (if c.name == "node_modules" then [] else Walk(c, at + [c.name])) + WalkFrom(d, i + 1, at)
  }

  /** The directory reached by following child positions `route`, never entering node_modules, and the names passed. */
  function Follow(d: Dir, route: seq<nat>): Option<(Dir, Path)>
    decreases route
  {
    if route == [] then Some((d, []))
    else if route[0] < |d.children| && d.children[route[0]].name != "node_modules" then
      var c := d.children[route[0]];
      match Follow(c, route[1..])
      case None => None
      case Some(found) => Some((found.0, [c.name] + found.1))
    else None
  }

  /** `route` leads to a directory holding package.json, whose path below `at` is `p`. */
  predicate FindsPackage(d: Dir, route: seq<nat>, at: Path, p: Path) {
    && Follow(d, route).Some?
    && "package.json" in Follow(d, route).value.0.files
    && p == at + Follow(d, route).value.1 + ["package.json"]
  }

  lemma {:induction false} WalkFromSound(d: Dir, i: nat, at: Path, p: Path)
    requires i <= |d.children| && p in WalkFrom(d, i, at)
    ensures exists k :: i <= k < |d.children| && d.children[k].name != "node_modules"
                        && p in Walk(d.children[k], at + [d.children[k].name])
    decreases |d.children| - i
  {
    var c := d.children[i];
    if !(c.name != "node_modules" && p in Walk(c, at + [c.name])) {
      WalkFromSound(d, i + 1, at, p);
    }
  }

  lemma {:induction false} WalkSound(d: Dir, at: Path, p: Path)
    requires p in Walk(d, at)
    ensures exists route :: FindsPackage(d, route, at, p)
    decreases d
  {
    if "package.json" in d.files && p == at + ["package.json"] {
      assert at + [] + ["package.json"] == p;
      assert FindsPackage(d, [], at, p);
    } else {
      WalkFromSound(d, 0, at, p);
      var k :| 0 <= k < |d.children| && d.children[k].name != "node_modules"
               && p in Walk(d.children[k], at + [d.children[k].name]);
      var c := d.children[k];
      WalkSound(c, at + [c.name], p);
      var route :| FindsPackage(c, route, at + [c.name], p);
      FindsPackageCons(d, k, route, at, p);
    }
  }

  /** A route found below a child that is not node_modules extends to one from the parent. */
  lemma FindsPackageCons(d: Dir, k: nat, route: seq<nat>, at: Path, p: Path)
    requires k < |d.children| && d.children[k].name != "node_modules"
    requires FindsPackage(d.children[k], route, at + [d.children[k].name], p)
    ensures FindsPackage(d, [k] + route, at, p)
  {
    var c := d.children[k];
    var full := [k] + route;
    assert full[1..] == route;
    var found := Follow(c, route).value;
    assert Follow(d, full) == Some((found.0, [c.name] + found.1));
    assert at + [c.name] + found.1 + ["package.json"] == at + ([c.name] + found.1) + ["package.json"];
  }

  lemma {:induction false} WalkFromContains(d: Dir, i: nat, k: nat, at: Path, p: Path)
    requires i <= k < |d.children| && d.children[k].name != "node_modules"
    requires p in Walk(d.children[k], at + [d.children[k].name])
    ensures p in WalkFrom(d, i, at)
    decreases k - i
  {
    var c := d.children[i];
    var here := if c.name == "node_modules" then [] else Walk(c, at + [c.name]);
    assert WalkFrom(d, i, at) == here + WalkFrom(d, i + 1, at);
    if i < k {
      WalkFromContains(d, i + 1, k, at, p);
    } else {
      assert p in here;
    }
  }

  lemma {:induction false} WalkComplete(d: Dir, route: seq<nat>, at: Path, p: Path)
    requires FindsPackage(d, route, at, p)
    ensures p in Walk(d, at)
    decreases route
  {
    if route == [] {
      assert at + [] + ["package.json"] == at + ["package.json"];
    } else {
      var k := route[0];
      var c := d.children[k];
      var found := Follow(c, route[1..]).value;
      assert at + ([c.name] + found.1) + ["package.json"] == (at + [c.name]) + found.1 + ["package.json"];
      WalkComplete(c, route[1..], at + [c.name], p);
      WalkFromContains(d, 0, k, at, p);
    }
  }

  /** find_package_json_files: every package.json outside node_modules, sorted by path. */
  function FindPackageJsonFiles(root: Dir): (r: seq<Path>)
    ensures Sorted(r)
    ensures forall p :: p in r <==> exists route :: FindsPackage(root, route, [], p)
    ensures forall k :: 0 <= k < |r| ==> |r[k]| > 0 && r[k][|r[k]| - 1] == "package.json"
  {
    var found := Walk(root, []);
    WalkExactly(root);
    SortSameMembers(found);
    Sort(found)
  }

  /** The walk from the root yields exactly the package.json paths some route reaches, each named package.json. */
  lemma WalkExactly(root: Dir)
    ensures forall p :: p in Walk(root, []) <==> exists route :: FindsPackage(root, route, [], p)
    ensures forall p :: p in Walk(root, []) ==> |p| > 0 && p[|p| - 1] == "package.json"
  {
    forall p ensures p in Walk(root, []) <==> exists route :: FindsPackage(root, route, [], p) {
      if p in Walk(root, []) {
        WalkSound(root, [], p);
      }
      if exists route :: FindsPackage(root, route, [], p) {
        var route :| FindsPackage(root, route, [], p);
        WalkComplete(root, route, [], p);
      }
    }
    forall p | p in Walk(root, []) ensures |p| > 0 && p[|p| - 1] == "package.json" {
      WalkNamed(root, [], p);
    }
  }

  /** Sorting keeps exactly the same paths. */
  lemma SortSameMembers(found: seq<Path>)
    ensures forall p :: p in Sort(found) <==> p in found
  {
    forall p ensures p in Sort(found) <==> p in found {
      assert p in Sort(found) <==> p in multiset(Sort(found));
      assert p in found <==> p in multiset(found);
    }
  }

  /** Every path the walk yields ends with the file name package.json. */
  lemma {:induction false} WalkNamed(d: Dir, at: Path, p: Path)
    requires p in Walk(d, at)
    ensures |p| > 0 && p[|p| - 1] == "package.json"
    decreases d
  {
    if "package.json" in d.files && p == at + ["package.json"] {
    } else {
      WalkFromSound(d, 0, at, p);
      var k :| 0 <= k < |d.children| && d.children[k].name != "node_modules"
               && p in Walk(d.children[k], at + [d.children[k].name]);
      WalkNamed(d.children[k], at + [d.children[k].name], p);
    }
  }

  /** audit_workspaces: each workspace found, in sorted order, listed and checked. */
  method AuditWorkspaces(root: Dir, rootName: string, sourceOf: Path -> WorkspaceSource)
    returns (workspaces: seq<WorkspaceInfo>, dirs: seq<Path>)
    ensures |dirs| == |workspaces| == |FindPackageJsonFiles(root)|
    ensures forall k :: 0 <= k < |dirs| ==>
              var file := FindPackageJsonFiles(root)[k];
              |file| > 0 && dirs[k] == file[..|file| - 1]
    ensures forall k :: 0 <= k < |workspaces| ==> Audited(workspaces[k], dirs[k], rootName, sourceOf(dirs[k]))
  {
    var packageFiles := FindPackageJsonFiles(root);
    workspaces, dirs := AuditFound(packageFiles, rootName, sourceOf);
  }

  /** The loop of audit_workspaces over the package.json paths found: each one's directory is audited. */
  method AuditFound(packageFiles: seq<Path>, rootName: string, sourceOf: Path -> WorkspaceSource)
    returns (workspaces: seq<WorkspaceInfo>, dirs: seq<Path>)
    requires forall k :: 0 <= k < |packageFiles| ==> |packageFiles[k]| > 0
    ensures |dirs| == |workspaces| == |packageFiles|
    ensures forall k :: 0 <= k < |dirs| ==> dirs[k] == packageFiles[k][..|packageFiles[k]| - 1]
    ensures forall k :: 0 <= k < |workspaces| ==> Audited(workspaces[k], dirs[k], rootName, sourceOf(dirs[k]))
  {
    workspaces, dirs := [], [];
    for i := 0 to |packageFiles|
      invariant |dirs| == |workspaces| == i
      invariant forall k :: 0 <= k < i ==> dirs[k] == packageFiles[k][..|packageFiles[k]| - 1]
      invariant forall k :: 0 <= k < i ==> Audited(workspaces[k], dirs[k], rootName, sourceOf(dirs[k]))
    {
      var file := packageFiles[i];
      var dir := file[..|file| - 1];
      var ws := AuditWorkspace(dir, rootName, sourceOf(dir));
      workspaces, dirs := workspaces + [ws], dirs + [dir];
    }
  }

  // ---------------------------------------------------------------------------
  // The report's figures and the exit status

  /** Every dependency tagged with its workspace's name: workspace by workspace, production before development. */
  function Entries(workspaces: seq<WorkspaceInfo>): seq<(string, DependencyInfo)> {
    if workspaces == [] then []
    else Entries(workspaces[..|workspaces| - 1]) + Tagged(workspaces[|workspaces| - 1])
  }

  function Tagged(ws: WorkspaceInfo): (r: seq<(string, DependencyInfo)>)
    ensures |r| == |ws.All()|
    ensures forall k :: 0 <= k < |r| ==> r[k] == (ws.name, ws.All()[k])
  {
    seq(|ws.All()|, k requires 0 <= k < |ws.All()| => (ws.name, ws.All()[k]))
  }

  function TotalProd(workspaces: seq<WorkspaceInfo>): nat {
    if workspaces == [] then 0
    else TotalProd(workspaces[..|workspaces| - 1]) + |workspaces[|workspaces| - 1].dependencies|
  }

  function TotalDev(workspaces: seq<WorkspaceInfo>): nat {
    if workspaces == [] then 0
    else TotalDev(workspaces[..|workspaces| - 1]) + |workspaces[|workspaces| - 1].devDependencies|
  }

  /** The total is the number of dependencies the report lists. */
  lemma {:induction false} EntriesCount(workspaces: seq<WorkspaceInfo>)
    ensures |Entries(workspaces)| == TotalProd(workspaces) + TotalDev(workspaces)
    decreases |workspaces|
  {
    if workspaces != [] {
      EntriesCount(workspaces[..|workspaces| - 1]);
    }
  }

  /** The entries whose dependency is unused, in order. */
  function Unused(entries: seq<(string, DependencyInfo)>): seq<(string, DependencyInfo)>
    reads set k | 0 <= k < |entries| :: entries[k].1
  {
    if entries == [] then []
    else
      var last := entries[|entries| - 1];
      Unused(entries[..|entries| - 1]) + (if !last.1.used then [last] else [])
  }

  /** An entry is listed as unused exactly when it is an entry whose dependency is not used. */
  lemma {:induction false} UnusedExactly(entries: seq<(string, DependencyInfo)>)
    ensures forall e :: e in Unused(entries) <==> e in entries && !e.1.used
    decreases |entries|
  {
    if entries != [] {
      var init := entries[..|entries| - 1];
      UnusedExactly(init);
      assert entries == init + [entries[|entries| - 1]];
    }
  }

  /** The project is clean exactly when every dependency is used. */
  lemma CleanIffAllUsed(entries: seq<(string, DependencyInfo)>)
    ensures Unused(entries) == [] <==> forall k :: 0 <= k < |entries| ==> entries[k].1.used
  {
    UnusedExactly(entries);
    if Unused(entries) != [] {
      var e := Unused(entries)[0];
      assert e in Unused(entries);
    }
    if exists k :: 0 <= k < |entries| && !entries[k].1.used {
      var k :| 0 <= k < |entries| && !entries[k].1.used;
      assert entries[k] in entries;
    }
  }

  /** (workspace name, dependency name) for each entry. */
  function NamePairs(entries: seq<(string, DependencyInfo)>): (r: seq<(string, string)>)
    ensures |r| == |entries|
    ensures forall k :: 0 <= k < |r| ==> r[k] == (entries[k].0, entries[k].1.name)
  {
    seq(|entries|, k requires 0 <= k < |entries| => (entries[k].0, entries[k].1.name))
  }

  function KeyIndex(groups: seq<(string, seq<string>)>, key: string): (r: Option<nat>)
    ensures r.Some? ==> r.value < |groups| && groups[r.value].0 == key
    ensures r.None? ==> forall i :: 0 <= i < |groups| ==> groups[i].0 != key
  {
    if groups == [] then None
    else if groups[0].0 == key then Some(0)
    else match KeyIndex(groups[1..], key)
      case None => None
      case Some(i) => Some(i + 1)
  }

  /** `groups.setdefault(key, []).append(value)` on an insertion-ordered dict. */
  function AddTo(groups: seq<(string, seq<string>)>, key: string, value: string): seq<(string, seq<string>)> {
    match KeyIndex(groups, key)
    case Some(i) => groups[i := (key, groups[i].1 + [value])]
    case None => groups + [(key, [value])]
  }

  /** The removal commands' grouping: one entry per workspace name, in order of first appearance. */
  function Grouped(pairs: seq<(string, string)>): seq<(string, seq<string>)> {
    if pairs == [] then []
    else
      var last := pairs[|pairs| - 1];
      AddTo(Grouped(pairs[..|pairs| - 1]), last.0, last.1)
  }

  /** The names paired with `key`, in order. */
  function NamesIn(pairs: seq<(string, string)>, key: string): seq<string> {
    if pairs == [] then []
    else
      var last := pairs[|pairs| - 1];
      NamesIn(pairs[..|pairs| - 1], key) + (if last.0 == key then [last.1] else [])
  }

  predicate DistinctKeys(groups: seq<(string, seq<string>)>) {
    forall a, b :: 0 <= a < b < |groups| ==> groups[a].0 != groups[b].0
  }

  lemma {:induction false} NamesInAbsent(pairs: seq<(string, string)>, key: string)
    requires !Mentioned(pairs, key)
    ensures NamesIn(pairs, key) == []
    decreases |pairs|
  {
    if pairs != [] {
      var init := pairs[..|pairs| - 1];
      assert forall k :: 0 <= k < |init| ==> init[k] == pairs[k];
      NamesInAbsent(init, key);
    }
  }

  predicate HasKey(groups: seq<(string, seq<string>)>, key: string) {
    exists i :: 0 <= i < |groups| && groups[i].0 == key
  }

  predicate Mentioned(pairs: seq<(string, string)>, key: string) {
    exists k :: 0 <= k < |pairs| && pairs[k].0 == key
  }

  /** Each workspace name appears once, holding exactly its unused names in order, and no other name appears. */
  lemma {:induction false} GroupedExactly(pairs: seq<(string, string)>)
    ensures DistinctKeys(Grouped(pairs))
    ensures forall i :: 0 <= i < |Grouped(pairs)| ==> Grouped(pairs)[i].1 == NamesIn(pairs, Grouped(pairs)[i].0)
    ensures forall key :: HasKey(Grouped(pairs), key) <==> Mentioned(pairs, key)
    decreases |pairs|
  {
    if pairs != [] {
      var init := pairs[..|pairs| - 1];
      var last := pairs[|pairs| - 1];
      GroupedExactly(init);
      GroupStep(init, last);
      assert init + [last] == pairs;
    }
  }

  /** Adding one pair to a well-formed grouping keeps it well-formed. */
  lemma GroupStep(init: seq<(string, string)>, last: (string, string))
    requires DistinctKeys(Grouped(init))
    requires forall i :: 0 <= i < |Grouped(init)| ==> Grouped(init)[i].1 == NamesIn(init, Grouped(init)[i].0)
    requires forall key :: HasKey(Grouped(init), key) <==> Mentioned(init, key)
    ensures var pairs := init + [last];
            && DistinctKeys(Grouped(pairs))
            && (forall i :: 0 <= i < |Grouped(pairs)| ==> Grouped(pairs)[i].1 == NamesIn(pairs, Grouped(pairs)[i].0))
            && (forall key :: HasKey(Grouped(pairs), key) <==> Mentioned(pairs, key))
  {
    var pairs := init + [last];
    assert pairs[..|pairs| - 1] == init;
    var g := Grouped(init);
    var g' := AddTo(g, last.0, last.1);
    assert Grouped(pairs) == g';
    MentionedSnoc(init, last);
    AddToKeys(g, last.0, last.1);
    forall i | 0 <= i < |g'| ensures g'[i].1 == NamesIn(pairs, g'[i].0) {
      var key := g'[i].0;
      assert NamesIn(pairs, key) == NamesIn(init, key) + (if last.0 == key then [last.1] else []);
      match KeyIndex(g, last.0)
      case Some(j) =>
        if i != j {
          assert g'[i] == g[i] && g[j].0 == last.0 != key;
        }
      case None =>
        if i == |g| {
          NamesInAbsent(init, last.0);
        } else {
          assert g'[i] == g[i] && key != last.0;
        }
    }
  }

  /** The pairs with one more mention exactly the keys mentioned before and the new pair's key. */
  lemma MentionedSnoc(init: seq<(string, string)>, last: (string, string))
    ensures forall key :: Mentioned(init + [last], key) <==> Mentioned(init, key) || key == last.0
  {
    var pairs := init + [last];
    forall key ensures Mentioned(pairs, key) <==> Mentioned(init, key) || key == last.0 {
      if Mentioned(pairs, key) {
        var k :| 0 <= k < |pairs| && pairs[k].0 == key;
        if k < |init| {
          assert init[k].0 == key;
        }
      }
      if Mentioned(init, key) {
        var k :| 0 <= k < |init| && init[k].0 == key;
        assert pairs[k].0 == key;
      }
      assert pairs[|init|].0 == last.0;
    }
  }

  /** Adding to a grouping keeps its keys and adds the new one, each still once, and changes only the key's names. */
  lemma AddToKeys(g: seq<(string, seq<string>)>, key: string, value: string)
    ensures forall k :: HasKey(AddTo(g, key, value), k) <==> HasKey(g, k) || k == key
    ensures KeyIndex(g, key).Some? ==> |AddTo(g, key, value)| == |g|
    ensures KeyIndex(g, key).Some? ==>
              forall i :: 0 <= i < |g| ==> AddTo(g, key, value)[i] == if i == KeyIndex(g, key).value then (key, g[i].1 + [value]) else g[i]
    ensures KeyIndex(g, key).None? ==> AddTo(g, key, value) == g + [(key, [value])]
    ensures DistinctKeys(g) ==> DistinctKeys(AddTo(g, key, value))
  {
    var g' := AddTo(g, key, value);
    forall k ensures HasKey(g', k) <==> HasKey(g, k) || k == key {
      if HasKey(g', k) {
        var i :| 0 <= i < |g'| && g'[i].0 == k;
        if i < |g| && k != key {
          assert g[i].0 == k;
        }
      }
      if HasKey(g, k) {
        var i :| 0 <= i < |g| && g[i].0 == k;
        assert g'[i].0 == k;
      }
      match KeyIndex(g, key)
      case Some(j) => assert g'[j].0 == key;
      case None => assert g'[|g|].0 == key;
    }
  }

  /** The report's figures. */
  datatype Report = Report(
    totalProd: nat,
    totalDev: nat,
    unused: seq<(string, DependencyInfo)>,
    removals: seq<(string, seq<string>)>)

  /**
   * generate_report: the totals, the unused dependencies in workspace order,
   * and the removal commands grouped by workspace. The efficiency figure
   * divides by the total, so a project with no dependencies at all raises
   * instead of reporting: None.
   */
  method GenerateReport(workspaces: seq<WorkspaceInfo>) returns (r: Option<Report>)
    ensures r.None? <==> TotalProd(workspaces) + TotalDev(workspaces) == 0
    ensures r.Some? ==>
              && r.value.totalProd == TotalProd(workspaces)
              && r.value.totalDev == TotalDev(workspaces)
              && r.value.unused == Unused(Entries(workspaces))
              && r.value.removals == Grouped(NamePairs(r.value.unused))
  {
    var totalProd := TotalProd(workspaces);
    var totalDev := TotalDev(workspaces);
    var total := totalProd + totalDev;
    var unused := CollectUnused(workspaces);
    var removals: seq<(string, seq<string>)> := [];
    if unused != [] {
      var pairs := NamePairs(unused);
      for k := 0 to |unused|
        invariant removals == Grouped(pairs[..k])
      {
        removals := AddTo(removals, unused[k].0, unused[k].1.name);
        assert pairs[..k + 1][..k] == pairs[..k];
      }
      assert pairs[..|pairs|] == pairs;
    }
    if total == 0 {
      return None;
    }
    r := Some(Report(totalProd, totalDev, unused, removals));
  }

  /** Appending one entry appends it to the unused list exactly when its dependency is unused. */
  lemma UnusedSnoc(entries: seq<(string, DependencyInfo)>, e: (string, DependencyInfo))
    ensures Unused(entries + [e]) == Unused(entries) + (if !e.1.used then [e] else [])
  {
    assert (entries + [e])[..|entries|] == entries;
  }

  /** One more entry of a workspace: kept exactly when it is unused. */
  lemma UnusedPrefixStep(before: seq<(string, DependencyInfo)>, tagged: seq<(string, DependencyInfo)>, j: nat)
    requires j < |tagged|
    ensures Unused(before + tagged[..j + 1]) ==
              Unused(before + tagged[..j]) + (if !tagged[j].1.used then [tagged[j]] else [])
  {
    assert before + tagged[..j + 1] == (before + tagged[..j]) + [tagged[j]];
    UnusedSnoc(before + tagged[..j], tagged[j]);
  }

  /** The report's loop over every workspace's dependencies, keeping the unused ones in order. */
  method CollectUnused(workspaces: seq<WorkspaceInfo>) returns (unused: seq<(string, DependencyInfo)>)
    ensures unused == Unused(Entries(workspaces))
  {
    unused := [];
    for i := 0 to |workspaces|
      invariant unused == Unused(Entries(workspaces[..i]))
    {
      assert Entries(workspaces[..i + 1]) == Entries(workspaces[..i]) + Tagged(workspaces[i]) by {
        assert workspaces[..i + 1][..i] == workspaces[..i];
      }
      unused := CollectWorkspace(Entries(workspaces[..i]), Tagged(workspaces[i]), unused);
    }
    assert workspaces[..|workspaces|] == workspaces;
  }

  /** The inner loop over one workspace's dependencies, after the entries `before` were seen. */
  method CollectWorkspace(before: seq<(string, DependencyInfo)>, tagged: seq<(string, DependencyInfo)>,
                          unusedBefore: seq<(string, DependencyInfo)>)
    returns (unused: seq<(string, DependencyInfo)>)
    requires unusedBefore == Unused(before)
    ensures unused == Unused(before + tagged)
  {
    unused := unusedBefore;
    assert before + tagged[..0] == before;
    for j := 0 to |tagged|
      invariant unused == Unused(before + tagged[..j])
    {
      var entry := tagged[j];
      UnusedPrefixStep(before, tagged, j);
      if !entry.1.used {
        unused := unused + [entry];
      }
    }
    assert tagged[..|tagged|] == tagged;
  }

  /** main's exit status: 1 when the report could not be produced (an uncaught exception) or lists an unused dependency. */
  function ExitCode(r: Option<Report>): int {
    if r.None? || r.value.unused != [] then 1 else 0
  }

  /** The whole audit: find, list and check every workspace, then report. */
  method RunAudit(root: Dir, rootName: string, sourceOf: Path -> WorkspaceSource)
    returns (workspaces: seq<WorkspaceInfo>, exitCode: int)
    ensures exitCode == 0 || exitCode == 1
    ensures exitCode == 0 <==>
              |Entries(workspaces)| > 0 && forall k :: 0 <= k < |Entries(workspaces)| ==> Entries(workspaces)[k].1.used
  {
    var dirs;
    workspaces, dirs := AuditWorkspaces(root, rootName, sourceOf);
    var report := GenerateReport(workspaces);
    exitCode := ExitCode(report);
    EntriesCount(workspaces);
    CleanIffAllUsed(Entries(workspaces));
  }
}
