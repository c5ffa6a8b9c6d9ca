/**
 * The local CI runner: which of the four CI steps run, in what order, when a
 * failure stops the run, and how the `--steps` argument is read. Each step
 * (type check and tests, the C++ build and tests, the production build, the
 * deploy check) runs external tools; here a step is its number, and whether
 * it passes is a given function of that number.
 */
module CiLocal {
  import opened Wrappers
  import opened Strings

  /** The step table: 1 Test Frontend, 2 Test Backend, 3 Build, 4 Deploy Check. */
  predicate IsStep(n: int) {
    1 <= n <= 4
  }

  function StepName(n: int): (name: string)
    requires IsStep(n)
  {
    ["Test Frontend", "Test Backend", "Build", "Deploy Check"][n - 1]
  }

  /** The steps run when no list is given. */
  const DefaultSteps: seq<int> := [1, 2, 3, 4]

  /** `list.remove(x)`: the first occurrence of `x` goes, the rest keep their order. */
  function RemoveFirst(s: seq<int>, x: int): seq<int> {
    if s == [] then []
    else if s[0] == x then s[1..]
    else [s[0]] + RemoveFirst(s[1..], x)
  }

  /** Removing an element that is not there changes nothing. */
  lemma {:induction false} RemoveFirstAbsent(s: seq<int>, x: int)
    requires x !in s
    ensures RemoveFirst(s, x) == s
    decreases |s|
  {
    if s != [] {
      assert s[0] != x && x !in s[1..];
      RemoveFirstAbsent(s[1..], x);
      assert [s[0]] + s[1..] == s;
    }
  }

  /** What `RemoveFirst` removes is exactly the element at the first index holding `x`. */
  lemma {:induction false} RemoveFirstAt(s: seq<int>, x: int, i: nat)
    requires i < |s| && s[i] == x
    requires forall k :: 0 <= k < i ==> s[k] != x
    ensures RemoveFirst(s, x) == s[..i] + s[i + 1..]
    decreases i
  {
    if i == 0 {
      assert RemoveFirst(s, x) == s[1..];
      assert s[..0] + s[1..] == s[1..];
    } else {
      var t := s[1..];
      assert RemoveFirst(s, x) == [s[0]] + RemoveFirst(t, x);
      assert forall k :: 0 <= k < i - 1 ==> t[k] == s[k + 1];
      RemoveFirstAt(t, x, i - 1);
      var front, back := t[..i - 1], t[i..];
      assert s[..i] == [s[0]] + front;
      assert s[i + 1..] == back;
      assert [s[0]] + (front + back) == ([s[0]] + front) + back;
    }
  }

  /** Removing drops one occurrence of `x` and keeps every other element. */
  lemma RemoveFirstCount(s: seq<int>, x: int, i: nat)
    requires i < |s| && s[i] == x
    requires forall k :: 0 <= k < i ==> s[k] != x
    ensures |RemoveFirst(s, x)| == |s| - 1
    ensures multiset(RemoveFirst(s, x)) == multiset(s) - multiset{x}
  {
    RemoveFirstAt(s, x, i);
    var front, back := s[..i], s[i + 1..];
    assert s == front + [x] + back;
    assert multiset(s) == multiset(front) + multiset{x} + multiset(back);
    assert multiset(RemoveFirst(s, x)) == multiset(front) + multiset(back);
  }

  /** The caller's step list, which `run_all_steps` changes in place. */
  class StepList {
    var items: seq<int>

    constructor(items: seq<int>)
      ensures this.items == items
    {
      this.items := items;
    }

    /** `list.remove(x)` when `x` is in the list. */
    method Remove(x: int)
      requires x in items
      modifies this
      ensures items == RemoveFirst(old(items), x)
    {
      var i := 0;
      while items[i] != x
        invariant 0 <= i < |items|
        invariant forall k :: 0 <= k < i ==> items[k] != x
        invariant x in items[i..]
        decreases |items| - i
      {
        assert items[i..] == [items[i]] + items[i + 1..];
        i := i + 1;
      }
      RemoveFirstAt(items, x, i);
      items := items[..i] + items[i + 1..];
    }
  }

  /** The steps `run_all_steps` goes through: the given list or all four, without the first 2 when the backend is skipped. */
  function Selected(steps: Option<seq<int>>, skipBackend: bool): seq<int> {
    var s := steps.GetOr(DefaultSteps);
    if skipBackend then RemoveFirst(s, 2) else s
  }

  /** The entries of a list that name a step, in order; the others are reported and passed over. */
  function Runnable(plan: seq<int>): (r: seq<int>)
    ensures forall i :: 0 <= i < |r| ==> IsStep(r[i])
  {
    if plan == [] then []
    else (if IsStep(plan[0]) then [plan[0]] else []) + Runnable(plan[1..])
  }

  /** A list of step numbers only is its own runnable part. */
  lemma {:induction false} RunnableOfSteps(plan: seq<int>)
    requires forall i :: 0 <= i < |plan| ==> IsStep(plan[i])
    ensures Runnable(plan) == plan
    decreases |plan|
  {
    if plan != [] {
      RunnableOfSteps(plan[1..]);
      assert plan == [plan[0]] + plan[1..];
    }
  }

  lemma {:induction false} RunnableSnoc(plan: seq<int>, i: nat)
    requires i < |plan|
    ensures Runnable(plan[..i + 1]) == Runnable(plan[..i]) + (if IsStep(plan[i]) then [plan[i]] else [])
    decreases i
  {
    if i > 0 {
      assert plan[..i + 1][1..] == plan[1..][..i];
      assert plan[..i][1..] == plan[1..][..i - 1];
      RunnableSnoc(plan[1..], i - 1);
    }
  }

  /** The result of a run, and the steps it executed in order. */
  datatype Outcome = Outcome(passed: bool, ran: seq<int>)

  /** `r` lists the first steps of `s`. */
  predicate IsPrefix(r: seq<int>, s: seq<int>) {
    |r| <= |s| && s[..|r|] == r
  }

  /** The loop of `run_all_steps`: steps run in list order and the first failure ends the run. */
  function RunSteps(plan: seq<int>, succeeds: int -> bool): Outcome {
    if plan == [] then Outcome(true, [])
    else if !IsStep(plan[0]) then RunSteps(plan[1..], succeeds)
    else if !succeeds(plan[0]) then Outcome(false, [plan[0]])
    else
      var rest := RunSteps(plan[1..], succeeds);
      Outcome(rest.passed, [plan[0]] + rest.ran)
  }

  /** Every step before the last of `ran` passed. */
  predicate PassedBeforeLast(ran: seq<int>, succeeds: int -> bool) {
    forall i :: 0 <= i < |ran| - 1 ==> succeeds(ran[i])
  }

  /** Every step of `ran` passed. */
  predicate AllPassed(ran: seq<int>, succeeds: int -> bool) {
    forall i :: 0 <= i < |ran| ==> succeeds(ran[i])
  }

  /**
   * What a run does: the executed steps are the first runnable entries of the
   * list, every one before the last passed, and the run passes exactly when
   * every executed step did, in which case they are all the runnable entries;
   * a failed run ends with the step that failed.
   */
  lemma {:induction false} RunStepsMeaning(plan: seq<int>, succeeds: int -> bool)
    ensures IsPrefix(RunSteps(plan, succeeds).ran, Runnable(plan))
    ensures PassedBeforeLast(RunSteps(plan, succeeds).ran, succeeds)
    ensures RunSteps(plan, succeeds).passed <==> AllPassed(RunSteps(plan, succeeds).ran, succeeds)
    ensures RunSteps(plan, succeeds).passed ==> RunSteps(plan, succeeds).ran == Runnable(plan)
    ensures !RunSteps(plan, succeeds).passed ==>
              var ran := RunSteps(plan, succeeds).ran; ran != [] && !succeeds(ran[|ran| - 1])
    decreases |plan|
  {
    if plan != [] {
      RunStepsMeaning(plan[1..], succeeds);
      assert Explained(plan[1..], succeeds);
      if !IsStep(plan[0]) {
        SkipExplained(plan, succeeds);
      } else if !succeeds(plan[0]) {
        FailExplained(plan, succeeds);
      } else {
        PassExplained(plan, succeeds);
      }
    }
  }

  /** The five facts RunStepsMeaning states about one plan. */
  predicate Explained(plan: seq<int>, succeeds: int -> bool) {
    var o := RunSteps(plan, succeeds);
    && IsPrefix(o.ran, Runnable(plan))
    && PassedBeforeLast(o.ran, succeeds)
    && (o.passed <==> AllPassed(o.ran, succeeds))
    && (o.passed ==> o.ran == Runnable(plan))
    && (!o.passed ==> o.ran != [] && !succeeds(o.ran[|o.ran| - 1]))
  }

  /** An entry that is not a step is skipped. */
  lemma SkipExplained(plan: seq<int>, succeeds: int -> bool)
    requires plan != [] && !IsStep(plan[0]) && Explained(plan[1..], succeeds)
    ensures Explained(plan, succeeds)
  {
    assert RunSteps(plan, succeeds) == RunSteps(plan[1..], succeeds);
    assert Runnable(plan) == Runnable(plan[1..]);
  }

  /** A step that fails ends the run with itself. */
  lemma FailExplained(plan: seq<int>, succeeds: int -> bool)
    requires plan != [] && IsStep(plan[0]) && !succeeds(plan[0])
    ensures Explained(plan, succeeds)
  {
    assert RunSteps(plan, succeeds) == Outcome(false, [plan[0]]);
    assert [plan[0]][0] == plan[0];
    assert Runnable(plan) == [plan[0]] + Runnable(plan[1..]);
  }

  /** A step that passes goes in front of the rest of the run. */
  lemma PassExplained(plan: seq<int>, succeeds: int -> bool)
    requires plan != [] && IsStep(plan[0]) && succeeds(plan[0]) && Explained(plan[1..], succeeds)
    ensures Explained(plan, succeeds)
  {
    var rest := RunSteps(plan[1..], succeeds).ran;
    assert RunSteps(plan, succeeds).ran == [plan[0]] + rest;
    assert Runnable(plan) == [plan[0]] + Runnable(plan[1..]);
    PassedCons(plan[0], rest, Runnable(plan[1..]), succeeds);
  }

  /** A passing step in front keeps what is said about the steps after it. */
  lemma PassedCons(x: int, rest: seq<int>, runnable: seq<int>, succeeds: int -> bool)
    requires succeeds(x)
    ensures AllPassed([x] + rest, succeeds) == AllPassed(rest, succeeds)
    ensures PassedBeforeLast(rest, succeeds) ==> PassedBeforeLast([x] + rest, succeeds)
    ensures IsPrefix(rest, runnable) ==> IsPrefix([x] + rest, [x] + runnable)
    ensures rest != [] ==> ([x] + rest)[|rest|] == rest[|rest| - 1]
  {
    var ran := [x] + rest;
    assert forall i :: 0 < i < |ran| ==> ran[i] == rest[i - 1];
    if AllPassed(ran, succeeds) {
      forall i | 0 <= i < |rest| ensures succeeds(rest[i]) {
        assert rest[i] == ran[i + 1];
      }
    }
    if IsPrefix(rest, runnable) {
      assert ([x] + runnable)[..|ran|] == [x] + runnable[..|rest|];
    }
  }

  /** Once the runnable entries of a prefix have all passed, the run is those entries followed by the run of the rest. */
  lemma {:induction false} RunSplit(plan: seq<int>, succeeds: int -> bool, i: nat)
    requires i <= |plan|
    requires AllPassed(Runnable(plan[..i]), succeeds)
    ensures RunSteps(plan, succeeds) ==
            Outcome(RunSteps(plan[i..], succeeds).passed, Runnable(plan[..i]) + RunSteps(plan[i..], succeeds).ran)
    decreases i
  {
    if i > 0 {
      var rest := plan[1..];
      var before := Runnable(plan[..i]);
      var tail := Runnable(rest[..i - 1]);
      assert plan[..i][1..] == rest[..i - 1];
      assert rest[i - 1..] == plan[i..];
      var after := RunSteps(plan[i..], succeeds);
      if IsStep(plan[0]) {
        assert before == [plan[0]] + tail;
        assert succeeds(before[0]);
        assert AllPassed(tail, succeeds) by {
          assert forall k :: 0 <= k < |tail| ==> tail[k] == before[k + 1];
        }
        RunSplit(rest, succeeds, i - 1);
        assert [plan[0]] + (tail + after.ran) == ([plan[0]] + tail) + after.ran;
      } else {
        assert before == tail;
        RunSplit(rest, succeeds, i - 1);
      }
    }
  }

  /** The runner: the steps executed so far, and the outcome each step number gives. */
  class CIRunner {
    var log: seq<int>
    const succeeds: int -> bool

    constructor(succeeds: int -> bool)
      ensures this.succeeds == succeeds && log == []
    {
      this.succeeds := succeeds;
      log := [];
    }

    /** One step function: it runs, is recorded, and reports whether it passed. */
    method RunStep(n: int) returns (success: bool)
      requires IsStep(n)
      modifies this
      ensures log == old(log) + [n]
      ensures success == succeeds(n)
    {
      log := log + [n];
      success := succeeds(n);
    }

    /**
     * run_all_steps: the step list defaults to [1, 2, 3, 4]; with the backend
     * skipped the first 2 is removed from it, from the caller's own list when
     * one was given; then the steps run as `RunSteps` says.
     */
    method RunAllSteps(steps: StepList?, skipBackend: bool) returns (success: bool)
      modifies this, steps
      ensures steps != null ==> steps.items == Selected(Some(old(steps.items)), skipBackend)
      ensures var o := RunSteps(Selected(if steps == null then None else Some(old(steps.items)), skipBackend), succeeds);
              success == o.passed && log == old(log) + o.ran
    {
      var stepsToRun: seq<int>;
      if steps == null {
        stepsToRun := DefaultSteps;
      } else {
        stepsToRun := steps.items;
      }
      if skipBackend && 2 in stepsToRun {
        if steps != null {
          steps.Remove(2);
          stepsToRun := steps.items;
        } else {
          stepsToRun := RemoveFirst(stepsToRun, 2);
        }
      } else if skipBackend {
        RemoveFirstAbsent(stepsToRun, 2);
      }
      assert stepsToRun == Selected(if steps == null then None else Some(old(steps.items)), skipBackend);
      success := RunPlan(stepsToRun);
    }

    /** The loop of run_all_steps over the selected steps. */
    method RunPlan(plan: seq<int>) returns (success: bool)
      modifies this
      ensures success == RunSteps(plan, succeeds).passed
      ensures log == old(log) + RunSteps(plan, succeeds).ran
    {
      for i := 0 to |plan|
        invariant log == old(log) + Runnable(plan[..i])
        invariant AllPassed(Runnable(plan[..i]), succeeds)
      {
        var stepNum := plan[i];
        RunnableSnoc(plan, i);
        if !IsStep(stepNum) {
          continue;
        }
        var ok := RunStep(stepNum);
        if !ok {
          RunSplit(plan, succeeds, i);
          assert plan[i..] == [stepNum] + plan[i + 1..];
          return false;
        }
      }
      RunSplit(plan, succeeds, |plan|);
      assert plan[..|plan|] == plan;
      return true;
    }

    /**
     * main after argument parsing: no workspace root, a malformed list or a
     * step outside 1..4 exits with 1 before any step runs; otherwise the
     * steps run and the status is 0 exactly when every one passed.
     */
    method RunCli(stepsArg: Option<string>, skipBackend: bool, workspaceFound: bool) returns (exitCode: int)
      modifies this
      ensures !workspaceFound || ParseSteps(stepsArg).Rejected? ==> exitCode == 1 && log == old(log)
      ensures workspaceFound && ParseSteps(stepsArg).Accepted? ==>
                var o := RunSteps(Selected(ParseSteps(stepsArg).steps, skipBackend), succeeds);
                log == old(log) + o.ran && (exitCode == 0 <==> o.passed) && exitCode in {0, 1}
    {
      if !workspaceFound {
        return 1;
      }
      var parsed := ParseSteps(stepsArg);
      if parsed.Rejected? {
        return 1;
      }
      var steps: StepList? := null;
      if parsed.steps.Some? {
        steps := new StepList(parsed.steps.value);
      }
      var success := RunAllSteps(steps, skipBackend);
      exitCode := if success then 0 else 1;
    }
  }

  /** How `--steps` is read: every step, a list of steps, or an exit with status 1. */
  datatype StepsArg = Accepted(steps: Option<seq<int>>) | Rejected(reason: string)

  /** `[int(s.strip()) for s in text.split(',')]`, or `None` when one piece is not an integer. */
  function ParseInts(parts: seq<string>): (r: Option<seq<int>>)
    ensures r.Some? ==> |r.value| == |parts|
    ensures r.Some? ==> forall i :: 0 <= i < |parts| ==> ParseInt(Strip(parts[i])) == Some(r.value[i])
    ensures r.None? ==> exists i :: 0 <= i < |parts| && ParseInt(Strip(parts[i])).None?
  {
    if parts == [] then Some([])
    else
      match ParseInt(Strip(parts[0]))
      case None => None
      case Some(n) =>
        match ParseInts(parts[1..])
        case None => None
        case Some(ns) => Some([n] + ns)
  }

  /**
   * The `--steps` value: absent or empty means every step; a piece that is not
   * an integer or a number outside 1..4 is refused.
   */
  function ParseSteps(arg: Option<string>): (r: StepsArg)
    ensures r.Accepted? && r.steps.Some? ==>
              arg.Some? && arg.value != [] && |r.steps.value| == |Split(arg.value, ",")| &&
              forall i :: 0 <= i < |r.steps.value| ==> IsStep(r.steps.value[i])
    ensures r.Accepted? && r.steps.None? <==> arg.None? || arg.value == []
  {
    if arg.None? || arg.value == [] then Accepted(None)
    else
      match ParseInts(Split(arg.value, ","))
      case None => Rejected("Invalid steps format")
      case Some(steps) =>
        if exists i :: 0 <= i < |steps| && !IsStep(steps[i]) then Rejected("Step numbers must be between 1 and 4")
        else Accepted(Some(steps))
  }

  /** The text `str` gives for each number. */
  function Texts(ns: seq<nat>): (r: seq<string>)
    ensures |r| == |ns| && forall i :: 0 <= i < |ns| ==> r[i] == Decimal(ns[i])
  {
    seq(|ns|, i requires 0 <= i < |ns| => Decimal(ns[i]))
  }

  /** Steps printed by `str` and joined with commas are read back as the same list. */
  lemma StepsRoundTrip(steps: seq<nat>)
    requires steps != [] && forall i :: 0 <= i < |steps| ==> IsStep(steps[i])
    ensures ParseSteps(Some(Join(Texts(steps), ","))) == Accepted(Some(steps))
  {
    var parts := Texts(steps);
    forall k | 0 <= k < |parts| ensures ',' !in parts[k] && Strip(parts[k]) == parts[k] {
      var d := parts[k];
      assert '0' <= d[0] <= '9' && '0' <= d[|d| - 1] <= '9';
      StripUnchanged(d);
    }
    SplitJoin(parts, ",");
    JoinFirst(parts, ",");
    forall k | 0 <= k < |parts| ensures ParseInt(Strip(parts[k])) == Some(steps[k] as int) {
      ParseIntDecimal(steps[k]);
    }
    var r := ParseInts(parts);
    assert r.Some?;
    assert r.value == steps;
  }
}
