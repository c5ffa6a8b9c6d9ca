/**
 * The log-level switch: `update_env_file` sets `KEY=value` in a .env file,
 * rewriting every line that assigns the key or appending one assignment when
 * none does; the backend and frontend entry points pick the file and the key.
 * The production backend is changed over SSH, which is not part of this model.
 */
module LogLevel {
  import opened Wrappers
  import opened Strings

  /** The levels the command line accepts. */
  const ValidLevels: seq<string> := ["trace", "debug", "info", "warn", "error"]

  /** What `^KEY=` must find at the start of a line. */
  function KeyPrefix(key: string): string {
    key + "="
  }

  /** The replacement line `KEY=value`. */
  function Assignment(key: string, value: string): string {
    key + "=" + value
  }

  /** One line after the substitution: a line assigning the key becomes the new assignment. */
  function SetLine(line: string, key: string, value: string): string {
    if StartsWith(line, KeyPrefix(key)) then Assignment(key, value) else line
  }

  /** The first line of `s` holds no newline, and a newline follows it. */
  lemma LineBreak(s: string, i: nat)
    requires IndexOf(s, "\n") == Some(i)
    ensures '\n' !in s[..i]
    ensures s == s[..i] + "\n" + s[i + 1..]
  {
    forall j | 0 <= j < i ensures s[j] != '\n' {
      assert !OccursAt(s, "\n", j);
      assert s[j..j + 1] == [s[j]];
    }
    assert OccursAt(s, "\n", i);
    assert s[i..i + 1] == "\n";
    assert s == s[..i] + s[i..i + 1] + s[i + 1..];
  }

  /** A text with no newline to find holds no newline. */
  lemma NoBreak(s: string)
    requires IndexOf(s, "\n").None?
    ensures '\n' !in s
  {
    forall j | 0 <= j < |s| ensures s[j] != '\n' {
      assert !OccursAt(s, "\n", j);
      assert s[j..j + 1] == [s[j]];
    }
  }

  /**
   * `re.search(^KEY=.*$, s, re.MULTILINE)`, line by line: `^` matches at the
   * start and after each newline, and `.*$` then reaches the line's end.
   */
  predicate HasKeyLine(s: string, key: string)
    decreases |s|
  {
    match IndexOf(s, "\n")
    case None => StartsWith(s, KeyPrefix(key))
    case Some(i) => StartsWith(s[..i], KeyPrefix(key)) || HasKeyLine(s[i + 1..], key)
  }

  /** `re.sub(^KEY=.*$, KEY=value, s, flags=re.MULTILINE)`, line by line. */
  function ReplaceLines(s: string, key: string, value: string): string
    decreases |s|
  {
    match IndexOf(s, "\n")
    case None => SetLine(s, key, value)
    case Some(i) => SetLine(s[..i], key, value) + "\n" + ReplaceLines(s[i + 1..], key, value)
  }

  /**
   * The new content of the file: the substitution when some line assigns the
   * key, otherwise the content without trailing whitespace followed by the
   * assignment on a line of its own. The key holds no newline, and neither
   * holds a backslash, which `re.sub` would read as an escape in the
   * replacement; the callers pass a fixed key and a level from the list.
   */
  function UpdateEnvContent(content: string, key: string, value: string): string
    requires '\n' !in key && '\\' !in key && '\\' !in value
  {
    if HasKeyLine(content, key) then ReplaceLines(content, key, value)
    else RStrip(content) + "\n" + Assignment(key, value) + "\n"
  }

  /** The lines of a text. */
  function Lines(s: string): seq<string> {
    Split(s, "\n")
  }

  /** Some line starts with the key followed by '='. */
  predicate SomeLineAssigns(lines: seq<string>, key: string) {
    exists j :: 0 <= j < |lines| && StartsWith(lines[j], KeyPrefix(key))
  }

  /** The line-by-line search agrees with asking whether some line of the text assigns the key. */
  lemma {:induction false} HasKeyLineIff(s: string, key: string)
    ensures HasKeyLine(s, key) <==> SomeLineAssigns(Lines(s), key)
    decreases |s|
  {
    match IndexOf(s, "\n")
    case None =>
      assert Lines(s) == [s];
      assert Lines(s)[0] == s;
      assert HasKeyLine(s, key) == StartsWith(s, KeyPrefix(key));
    case Some(i) =>
      var rest := s[i + 1..];
      HasKeyLineIff(rest, key);
      SplitUnfold(s, "\n", i);
      assert Lines(s) == [s[..i]] + Lines(rest);
      assert Lines(s)[0] == s[..i];
      if SomeLineAssigns(Lines(rest), key) {
        var j :| 0 <= j < |Lines(rest)| && StartsWith(Lines(rest)[j], KeyPrefix(key));
        assert Lines(s)[j + 1] == Lines(rest)[j];
      }
      if SomeLineAssigns(Lines(s), key) {
        var j :| 0 <= j < |Lines(s)| && StartsWith(Lines(s)[j], KeyPrefix(key));
        if j > 0 {
          assert Lines(rest)[j - 1] == Lines(s)[j];
        }
      }
  }

  /** The new assignment assigns the key and, like the key and the value, holds no newline. */
  lemma AssignmentAssigns(key: string, value: string)
    ensures StartsWith(Assignment(key, value), KeyPrefix(key))
    ensures '\n' !in key && '\n' !in value ==> '\n' !in Assignment(key, value)
  {
    assert Assignment(key, value)[..|KeyPrefix(key)|] == KeyPrefix(key);
  }

  /** Rewriting a line twice is rewriting it once; a rewritten line holds no newline when the old one held none. */
  lemma SetLineTwice(line: string, key: string, value: string)
    requires '\n' !in key && '\n' !in value
    ensures SetLine(SetLine(line, key, value), key, value) == SetLine(line, key, value)
    ensures '\n' !in line ==> '\n' !in SetLine(line, key, value)
    ensures StartsWith(line, KeyPrefix(key)) ==> StartsWith(SetLine(line, key, value), KeyPrefix(key))
  {
    AssignmentAssigns(key, value);
  }

  /** A text with no newline is one line. */
  lemma NoNewlineOneLine(line: string)
    requires '\n' !in line
    ensures IndexOf(line, "\n").None?
    ensures Lines(line) == [line]
  {
    NoSepChar(line, "\n");
  }

  /** A newline-free line, a newline, then more text: the line comes first among the lines. */
  lemma SplitAfterLine(line: string, rest: string)
    requires '\n' !in line
    ensures IndexOf(line + "\n" + rest, "\n") == Some(|line|)
    ensures (line + "\n" + rest)[..|line|] == line && (line + "\n" + rest)[|line| + 1..] == rest
    ensures Lines(line + "\n" + rest) == [line] + Lines(rest)
  {
    var s := line + "\n" + rest;
    assert OccursAt(s, "\n", |line|);
    forall j | 0 <= j < |line| ensures !OccursAt(s, "\n", j) {
      assert s[j] == line[j];
      assert s[j..j + 1] == [s[j]];
    }
    assert IndexOf(s, "\n") == Some(|line|);
    assert s[..|line|] == line;
    assert s[|line| + 1..] == rest;
  }

  /** One step of the substitution: the first line rewritten, a newline, then the rest substituted. */
  lemma ReplaceStep(s: string, key: string, value: string, i: nat)
    requires '\n' !in key && '\n' !in value
    requires IndexOf(s, "\n") == Some(i)
    ensures '\n' !in SetLine(s[..i], key, value)
    ensures ReplaceLines(s, key, value) == SetLine(s[..i], key, value) + "\n" + ReplaceLines(s[i + 1..], key, value)
    ensures IndexOf(ReplaceLines(s, key, value), "\n") == Some(|SetLine(s[..i], key, value)|)
    ensures ReplaceLines(s, key, value)[..|SetLine(s[..i], key, value)|] == SetLine(s[..i], key, value)
    ensures ReplaceLines(s, key, value)[|SetLine(s[..i], key, value)| + 1..] == ReplaceLines(s[i + 1..], key, value)
    ensures Lines(ReplaceLines(s, key, value)) == [SetLine(s[..i], key, value)] + Lines(ReplaceLines(s[i + 1..], key, value))
  {
    LineBreak(s, i);
    SetLineTwice(s[..i], key, value);
    SplitAfterLine(SetLine(s[..i], key, value), ReplaceLines(s[i + 1..], key, value));
  }

  /** The last line of the substitution: one rewritten line. */
  lemma ReplaceLast(s: string, key: string, value: string)
    requires '\n' !in key && '\n' !in value
    requires IndexOf(s, "\n").None?
    ensures ReplaceLines(s, key, value) == SetLine(s, key, value)
    ensures IndexOf(ReplaceLines(s, key, value), "\n").None?
    ensures Lines(s) == [s] && Lines(ReplaceLines(s, key, value)) == [SetLine(s, key, value)]
  {
    NoBreak(s);
    SetLineTwice(s, key, value);
    NoNewlineOneLine(SetLine(s, key, value));
  }

  /**
   * The substitution touches lines and nothing else: the text keeps its
   * number of lines, every line assigning the key becomes `KEY=value`, and
   * every other line is unchanged.
   */
  lemma {:induction false} ReplaceLinesByLine(s: string, key: string, value: string)
    requires '\n' !in key && '\n' !in value
    ensures |Lines(ReplaceLines(s, key, value))| == |Lines(s)|
    ensures forall j :: 0 <= j < |Lines(s)| ==> Lines(ReplaceLines(s, key, value))[j] == SetLine(Lines(s)[j], key, value)
    decreases |s|
  {
    match IndexOf(s, "\n")
    case None =>
      ReplaceLast(s, key, value);
    case Some(i) =>
      var rest := s[i + 1..];
      ReplaceLinesByLine(rest, key, value);
      ReplaceStep(s, key, value, i);
      SplitUnfold(s, "\n", i);
      assert Lines(s) == [s[..i]] + Lines(rest);
      var after := Lines(ReplaceLines(s, key, value));
      forall j | 0 <= j < |Lines(s)| ensures after[j] == SetLine(Lines(s)[j], key, value) {
        if j > 0 {
          assert after[j] == Lines(ReplaceLines(rest, key, value))[j - 1];
          assert Lines(s)[j] == Lines(rest)[j - 1];
        }
      }
  }

  /** After the substitution every assigning line is the new assignment, so a second one changes nothing. */
  lemma {:induction false} ReplaceLinesIdempotent(s: string, key: string, value: string)
    requires '\n' !in key && '\n' !in value
    ensures ReplaceLines(ReplaceLines(s, key, value), key, value) == ReplaceLines(s, key, value)
    ensures HasKeyLine(s, key) ==> HasKeyLine(ReplaceLines(s, key, value), key)
    decreases |s|
  {
    SetLineTwice(s, key, value);
    match IndexOf(s, "\n")
    case None =>
      ReplaceLast(s, key, value);
    case Some(i) =>
      var rest := s[i + 1..];
      ReplaceLinesIdempotent(rest, key, value);
      ReplaceStep(s, key, value, i);
      SetLineTwice(s[..i], key, value);
  }

  /** A newline-free prefix of a text lies inside the text's first line, so it does not assign the key either. */
  lemma FirstLineOfPrefix(p: string, c: string, key: string)
    requires '\n' !in p
    requires |p| <= |c| && c[..|p|] == p
    requires !HasKeyLine(c, key)
    ensures !StartsWith(p, KeyPrefix(key))
  {
    var k := KeyPrefix(key);
    assert forall j :: 0 <= j < |p| ==> c[j] == p[j];
    match IndexOf(c, "\n")
    case None =>
      if |k| <= |p| {
        assert c[..|k|] == p[..|k|];
      }
    case Some(i) =>
      LineBreak(c, i);
      assert c[i] == '\n';
      assert i >= |p|;
      if |k| <= |p| {
        assert c[..i][..|k|] == p[..|k|];
      }
  }

  /** A prefix that ends its first line where the text does, and no line of the text assigns the key. */
  predicate PrefixOfQuiet(p: string, c: string, key: string) {
    |p| <= |c| && c[..|p|] == p && !HasKeyLine(c, key)
  }

  /** The prefix's first line is the text's first line, which does not assign the key; what follows is a shorter case. */
  lemma PrefixStep(p: string, c: string, rest: string, key: string, value: string, i: nat)
    requires '\n' !in key && '\n' !in value
    requires PrefixOfQuiet(p, c, key)
    requires IndexOf(p, "\n") == Some(i)
    ensures PrefixOfQuiet(p[i + 1..], c[i + 1..], key)
    ensures HasKeyLine(p + "\n" + rest, key) == HasKeyLine(p[i + 1..] + "\n" + rest, key)
    ensures ReplaceLines(p + "\n" + rest, key, value) == p[..i] + "\n" + ReplaceLines(p[i + 1..] + "\n" + rest, key, value)
    ensures p == p[..i] + "\n" + p[i + 1..]
  {
    LineBreak(p, i);
    var line := p[..i];
    var p' := p[i + 1..];
    var c' := c[i + 1..];
    assert c[..i] == line;
    assert c[i] == p[i] == '\n';
    assert c == line + "\n" + c';
    SplitAfterLine(line, c');
    assert c'[..|p'|] == p';
    var t := p' + "\n" + rest;
    assert p + "\n" + rest == line + "\n" + t;
    SplitAfterLine(line, t);
    ReplaceStep(line + "\n" + t, key, value, i);
  }

  /** A prefix with no line break is the text's first line, which does not assign the key. */
  lemma PrefixLastLine(p: string, c: string, rest: string, key: string, value: string)
    requires '\n' !in key && '\n' !in value
    requires PrefixOfQuiet(p, c, key)
    requires IndexOf(p, "\n").None?
    ensures HasKeyLine(p + "\n" + rest, key) == HasKeyLine(rest, key)
    ensures ReplaceLines(p + "\n" + rest, key, value) == p + "\n" + ReplaceLines(rest, key, value)
  {
    NoBreak(p);
    SplitAfterLine(p, rest);
    FirstLineOfPrefix(p, c, key);
    ReplaceStep(p + "\n" + rest, key, value, |p|);
  }

  /**
   * The lines of a prefix of a text where no line assigns the key do not
   * assign it either, and the substitution leaves them alone.
   */
  lemma {:induction false} PrefixHasNoKeyLine(p: string, c: string, rest: string, key: string, value: string)
    requires '\n' !in key && '\n' !in value
    requires PrefixOfQuiet(p, c, key)
    ensures HasKeyLine(p + "\n" + rest, key) == HasKeyLine(rest, key)
    ensures ReplaceLines(p + "\n" + rest, key, value) == p + "\n" + ReplaceLines(rest, key, value)
    decreases |p|
  {
    var lineEnd := IndexOf(p, "\n");
    if lineEnd.None? {
      PrefixLastLine(p, c, rest, key, value);
    } else {
      var i := lineEnd.value;
      var line, p', c' := p[..i], p[i + 1..], c[i + 1..];
      PrefixStep(p, c, rest, key, value, i);
      PrefixHasNoKeyLine(p', c', rest, key, value);
      PrefixJoin(line, p', ReplaceLines(rest, key, value));
    }
  }

  /** Regrouping the lines around a line break. */
  lemma PrefixJoin(line: string, p': string, r: string)
    ensures line + "\n" + (p' + "\n" + r) == (line + "\n" + p') + "\n" + r
  {
  }

  /** The appended assignment line is found and left as it is by the substitution. */
  lemma AppendedLine(key: string, value: string)
    requires '\n' !in key && '\n' !in value
    ensures HasKeyLine(Assignment(key, value) + "\n", key)
    ensures ReplaceLines(Assignment(key, value) + "\n", key, value) == Assignment(key, value) + "\n"
  {
    var a := Assignment(key, value);
    AssignmentAssigns(key, value);
    assert a + "\n" == a + "\n" + "";
    SplitAfterLine(a, "");
    assert IndexOf("", "\n").None?;
    assert ReplaceLines("", key, value) == "";
  }

  /** Setting the same key to the same value twice is the same as setting it once. */
  lemma UpdateIdempotent(content: string, key: string, value: string)
    requires '\n' !in key && '\\' !in key && '\\' !in value && '\n' !in value
    ensures HasKeyLine(UpdateEnvContent(content, key, value), key)
    ensures UpdateEnvContent(UpdateEnvContent(content, key, value), key, value) == UpdateEnvContent(content, key, value)
  {
    if HasKeyLine(content, key) {
      ReplaceLinesIdempotent(content, key, value);
    } else {
      var tail := Assignment(key, value) + "\n";
      assert UpdateEnvContent(content, key, value) == RStrip(content) + "\n" + tail;
      PrefixHasNoKeyLine(RStrip(content), content, tail, key, value);
      AppendedLine(key, value);
    }
  }

  /** After the update some line assigns the key, and every line that does is `KEY=value`. */
  lemma UpdateSetsKey(content: string, key: string, value: string)
    requires '\n' !in key && '\\' !in key && '\\' !in value && '\n' !in value
    ensures SomeLineAssigns(Lines(UpdateEnvContent(content, key, value)), key)
    ensures forall j :: 0 <= j < |Lines(UpdateEnvContent(content, key, value))| &&
                        StartsWith(Lines(UpdateEnvContent(content, key, value))[j], KeyPrefix(key)) ==>
                        Lines(UpdateEnvContent(content, key, value))[j] == Assignment(key, value)
  {
    var once := UpdateEnvContent(content, key, value);
    UpdateIdempotent(content, key, value);
    HasKeyLineIff(once, key);
    assert ReplaceLines(once, key, value) == once;
    ReplaceLinesByLine(once, key, value);
    forall j | 0 <= j < |Lines(once)| && StartsWith(Lines(once)[j], KeyPrefix(key))
      ensures Lines(once)[j] == Assignment(key, value)
    {
      assert Lines(once)[j] == SetLine(Lines(once)[j], key, value);
    }
  }

  /** Without an assigning line, the old content, less its trailing whitespace, is kept in front. */
  lemma UpdateAppends(content: string, key: string, value: string)
    requires '\n' !in key && '\\' !in key && '\\' !in value
    requires !SomeLineAssigns(Lines(content), key)
    ensures StartsWith(UpdateEnvContent(content, key, value), RStrip(content))
    ensures EndsWith(UpdateEnvContent(content, key, value), "\n" + Assignment(key, value) + "\n")
  {
    HasKeyLineIff(content, key);
    var front, back := RStrip(content), "\n" + Assignment(key, value) + "\n";
    assert UpdateEnvContent(content, key, value) == front + back;
    Concatenated(front, back);
  }

  /** `^LOG_LEVEL=` is anchored: a VITE_LOG_LEVEL or LOG_LEVEL_X line is kept when LOG_LEVEL is set. */
  lemma AnchoredKey(rest: string)
    ensures SetLine("VITE_LOG_LEVEL=" + rest, "LOG_LEVEL", "debug") == "VITE_LOG_LEVEL=" + rest
    ensures SetLine("LOG_LEVEL_X=" + rest, "LOG_LEVEL", "debug") == "LOG_LEVEL_X=" + rest
  {
    assert ("VITE_LOG_LEVEL=" + rest)[0] == 'V';
    assert ("LOG_LEVEL_X=" + rest)[9] == '_';
  }

  datatype Environment = Production | Local
  datatype Component = Backend | Frontend

  /** The .env files of the working tree, by path. */
  class EnvFiles {
    var contents: map<string, string>

    constructor(contents: map<string, string>)
      ensures this.contents == contents
    {
      this.contents := contents;
    }

    /** update_env_file: a missing file gives false and nothing is written. */
    method UpdateEnvFile(path: string, key: string, value: string) returns (updated: bool)
      requires '\n' !in key && '\\' !in key && '\\' !in value
      modifies this
      ensures updated <==> path in old(contents)
      ensures updated ==> contents == old(contents)[path := UpdateEnvContent(old(contents)[path], key, value)]
      ensures !updated ==> contents == old(contents)
    {
      if path !in contents {
        return false;
      }
      var content := contents[path];
      var newContent;
      if HasKeyLine(content, key) {
        newContent := ReplaceLines(content, key, value);
      } else {
        newContent := RStrip(content) + "\n" + Assignment(key, value) + "\n";
      }
      contents := contents[path := newContent];
      return true;
    }

    /** The local backend: apps/simulation-api/.env, or .env.development when that is missing. */
    method SetBackendLogLevelLocal(logLevel: string)
      requires '\\' !in logLevel
      modifies this
      ensures var path := if "apps/simulation-api/.env" in old(contents) then "apps/simulation-api/.env"
                          else "apps/simulation-api/.env.development";
              if path in old(contents) then contents == old(contents)[path := UpdateEnvContent(old(contents)[path], "LOG_LEVEL", logLevel)]
              else contents == old(contents)
    {
      var envFile := "apps/simulation-api/.env";
      if envFile !in contents {
        envFile := "apps/simulation-api/.env.development";
      }
      var _ := UpdateEnvFile(envFile, "LOG_LEVEL", logLevel);
    }

    /** The frontend: apps/web/.env.production or .env.development, key VITE_LOG_LEVEL. */
    method SetFrontendLogLevel(environment: Environment, logLevel: string)
      requires '\\' !in logLevel
      modifies this
      ensures var path := if environment == Production then "apps/web/.env.production" else "apps/web/.env.development";
              if path in old(contents) then contents == old(contents)[path := UpdateEnvContent(old(contents)[path], "VITE_LOG_LEVEL", logLevel)]
              else contents == old(contents)
    {
      var envFile := if environment == Production then "apps/web/.env.production" else "apps/web/.env.development";
      var _ := UpdateEnvFile(envFile, "VITE_LOG_LEVEL", logLevel);
    }

    /**
     * main after argument parsing: a level outside the list is refused with
     * exit status 2; otherwise the component's file is updated (the
     * production backend is changed remotely, so no local file changes) and
     * the status is 0, even when the file was missing.
     */
    method Configure(environment: Environment, component: Component, level: string) returns (exitCode: int)
      modifies this
      ensures exitCode == 0 <==> level in ValidLevels
      ensures exitCode != 0 ==> exitCode == 2 && contents == old(contents)
      ensures component == Backend && environment == Production ==> contents == old(contents)
      ensures level in ValidLevels && component == Backend && environment == Local ==>
                var path := if "apps/simulation-api/.env" in old(contents) then "apps/simulation-api/.env"
                            else "apps/simulation-api/.env.development";
                if path in old(contents) then contents == old(contents)[path := UpdateEnvContent(old(contents)[path], "LOG_LEVEL", level)]
                else contents == old(contents)
      ensures level in ValidLevels && component == Frontend ==>
                var path := if environment == Production then "apps/web/.env.production" else "apps/web/.env.development";
                if path in old(contents) then contents == old(contents)[path := UpdateEnvContent(old(contents)[path], "VITE_LOG_LEVEL", level)]
                else contents == old(contents)
      ensures forall path :: path in old(contents) <==> path in contents
    {
      if level !in ValidLevels {
        return 2;
      }
      assert '\\' !in level;
      if component == Backend {
        if environment == Local {
          SetBackendLogLevelLocal(level);
        }
      } else {
        SetFrontendLogLevel(environment, level);
      }
      return 0;
    }
  }
}
