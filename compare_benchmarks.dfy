/**
 * Benchmark regression detection: baseline times read from the markdown
 * tables of the baseline document, current times from Google Benchmark
 * results, each current benchmark matched with the first baseline whose name
 * it contains, and the matches split into regressions, improvements and
 * unchanged results by a percentage threshold. Python's `float()` on text is
 * a given partial function; floating point is modelled by real numbers.
 */
module Benchmarks {
  import opened Wrappers
  import opened Strings

  /** `float(text)`: the number the text denotes, or `None` where Python raises `ValueError`. */
  type FloatParser = string -> Option<real>

  /** The unit suffix "μs", written with the Greek letter mu. */
  const MicroSuffix: string := "\U{03BC}s"

  /** What `parse_time_string` gives: microseconds, `None` (no unit found), or the `ValueError` of `float`. */
  datatype TimeParse = Micros(us: real) | NoUnit | BadNumber

  function Scaled(value: Option<real>, factor: real): TimeParse {
    match value
    case None => BadNumber
    case Some(v) => Micros(v * factor)
  }

  /** The text `parse_time_string` looks at: without '~' and '<', stripped. */
  function Cleaned(timeStr: string): string {
    Strip(RemoveChar(RemoveChar(timeStr, '~'), '<'))
  }

  /** The unit a time is written in, as `parse_time_string` tests for it, in that order. */
  datatype Unit = Microseconds | Milliseconds | Seconds | Unitless

  function UnitOf(t: string): Unit {
    if Contains(t, MicroSuffix) || Contains(t, "us") then Microseconds
    else if Contains(t, "ms") then Milliseconds
    else if Contains(t, "sec") || Contains(t, "s") then Seconds
    else Unitless
  }

  /** The text before the unit, stripped: what `float` is given. */
  function NumberText(t: string, unit: Unit): string {
    match unit
    case Microseconds => Strip(Split(Split(t, MicroSuffix)[0], "us")[0])
    case Milliseconds => Strip(Split(t, "ms")[0])
    case _ => Strip(Split(Split(t, "sec")[0], "s")[0])
  }

  /** Microseconds per unit. */
  function Factor(unit: Unit): real {
    match unit
    case Microseconds => 1.0
    case Milliseconds => 1000.0
    case _ => 1000000.0
  }

  /**
   * parse_time_string: "μs" or "us" is microseconds, else "ms" milliseconds,
   * else "sec" or a bare "s" seconds; the number is what precedes the unit.
   */
  function TimeValue(timeStr: string, parseFloat: FloatParser): TimeParse {
    var t := Cleaned(timeStr);
    var unit := UnitOf(t);
    if unit == Unitless then NoUnit
    else Scaled(parseFloat(NumberText(t, unit)), Factor(unit))
  }

  /** A text lacking one letter of `sub` does not contain `sub`. */
  lemma LetterAbsent(s: string, sub: string, k: nat)
    requires k < |sub| && sub[k] !in s
    ensures !Contains(s, sub)
  {
    forall i | 0 <= i <= |s| ensures !OccursAt(s, sub, i) {
      if i + |sub| <= |s| {
        assert s[i + k] in s;
        assert s[i..i + |sub|][k] == s[i + k];
      }
    }
  }

  /** Every unit ends in 's': a time whose text has no 's' has no unit, and any 's' makes one. */
  lemma NoUnitIff(timeStr: string, parseFloat: FloatParser)
    ensures TimeValue(timeStr, parseFloat).NoUnit? <==> 's' !in Cleaned(timeStr)
  {
    UnitlessIff(Cleaned(timeStr));
  }

  /** A text has no unit exactly when it has no 's'. */
  lemma UnitlessIff(t: string)
    ensures UnitOf(t) == Unitless <==> 's' !in t
  {
    ContainsLetter(t, 's');
    if 's' !in t {
      LetterAbsent(t, MicroSuffix, 1);
      LetterAbsent(t, "us", 1);
      LetterAbsent(t, "ms", 1);
      LetterAbsent(t, "sec", 0);
    }
  }

  /** Removing a character that is not there changes nothing. */
  lemma RemoveAbsent(s: string, c: char)
    requires c !in s
    ensures RemoveChar(s, c) == s
  {
  }

  /** The first piece of a split is the text before the separator, when that text cannot start one. */
  lemma SplitHead(a: string, sep: string, b: string)
    requires sep != [] && sep[0] !in a
    ensures Split(a + sep + b, sep)[0] == a
  {
    var s := a + sep + b;
    assert OccursAt(s, sep, |a|);
    forall j | 0 <= j < |a| ensures !OccursAt(s, sep, j) {
      assert s[j] == a[j] != sep[0];
      if j + |sep| <= |s| {
        assert s[j..j + |sep|][0] == s[j];
      }
    }
    assert IndexOf(s, sep) == Some(|a|);
    assert s[..|a|] == a;
  }

  /** A split of a text without the separator's first character is that text alone. */
  lemma SplitAbsent(a: string, sep: string)
    requires sep != [] && sep[0] !in a
    ensures Split(a, sep)[0] == a
  {
    NoSepChar(a, sep);
    assert IndexOf(a, sep).None?;
  }

  /** Stripping drops a trailing space. */
  lemma StripBeforeSpace(s: string)
    requires s != [] && !IsSpace(s[0]) && !IsSpace(s[|s| - 1])
    ensures Strip(s + " ") == s
  {
    var t := s + " ";
    assert LStrip(t) == t;
    assert t[..|t| - 1] == s;
  }

  /** A number written with digits and a decimal point. */
  predicate IsNumeral(n: string) {
    n != [] && forall c :: c in n ==> IsDigit(c) || c == '.'
  }

  /** The text of a baseline time cell: a mark such as '~', a number, a space and a unit. */
  function Cell(mark: string, n: string, unit: string): string {
    mark + n + " " + unit
  }

  /** Cleaning a time cell leaves the number, the space and the unit. */
  lemma NumeralCleaned(mark: string, n: string, unit: string)
    requires mark == "" || mark == "~" || mark == "<"
    requires IsNumeral(n) && unit != [] && !IsSpace(unit[|unit| - 1])
    requires '~' !in unit && '<' !in unit
    ensures Cleaned(Cell(mark, n, unit)) == n + " " + unit
  {
    var t := n + " " + unit;
    assert RemoveChar(RemoveChar(Cell(mark, n, unit), '~'), '<') == t by {
      assert Cell(mark, n, unit) == mark + t;
      assert '~' !in n && '<' !in n;
      RemoveMarks(mark, t);
    }
    assert Strip(t) == t by {
      assert n[0] in n;
      assert t[0] == n[0] && t[|t| - 1] == unit[|unit| - 1];
      StripUnchanged(t);
    }
  }

  /** Removing '~' and then '<' takes off the one mark in front of a text holding neither. */
  lemma RemoveMarks(mark: string, t: string)
    requires mark == "" || mark == "~" || mark == "<"
    requires '~' !in t && '<' !in t
    ensures RemoveChar(RemoveChar(mark + t, '~'), '<') == t
  {
    RemoveAbsent(t, '~');
    RemoveAbsent(t, '<');
    var cell := mark + t;
    if mark == "" {
      assert cell == t;
    } else {
      assert cell[0] == mark[0] && cell[1..] == t;
      if mark == "~" {
        assert RemoveChar(cell, '~') == t;
      } else {
        assert RemoveChar(cell, '~') == [cell[0]] + t == cell;
      }
    }
  }

  /** A numeral is its own strip and holds none of the unit letters. */
  lemma NumeralLetters(n: string)
    requires IsNumeral(n)
    ensures !IsSpace(n[0]) && !IsSpace(n[|n| - 1])
    ensures '\U{03BC}' !in n + " " && 'u' !in n + " " && 'm' !in n + " " && 's' !in n + " " && 'e' !in n + " "
  {
    assert n[0] in n && n[|n| - 1] in n;
  }

  /** A numeral followed by " μs" is read as microseconds, and `float` is given the numeral. */
  lemma MicroText(n: string)
    requires IsNumeral(n)
    ensures UnitOf(n + " " + MicroSuffix) == Microseconds && NumberText(n + " " + MicroSuffix, Microseconds) == n
  {
    NumeralLetters(n);
    var a := n + " ";
    StripBeforeSpace(n);
    assert n + " " + MicroSuffix == a + MicroSuffix + "";
    assert a + MicroSuffix == n + " " + MicroSuffix;
    ContainsInfix(a, MicroSuffix, "");
    SplitHead(a, MicroSuffix, "");
    SplitAbsent(a, "us");
  }

  /** "~50 μs" is 50 microseconds, whatever mark precedes the number. */
  lemma MicroUnit(mark: string, n: string, parseFloat: FloatParser)
    requires mark == "" || mark == "~" || mark == "<"
    requires IsNumeral(n)
    ensures TimeValue(Cell(mark, n, MicroSuffix), parseFloat) == Scaled(parseFloat(n), 1.0)
  {
    NumeralCleaned(mark, n, MicroSuffix);
    MicroText(n);
  }

  /** A numeral followed by " ms" is read as milliseconds, and `float` is given the numeral. */
  lemma MilliText(n: string)
    requires IsNumeral(n)
    ensures UnitOf(n + " " + "ms") == Milliseconds && NumberText(n + " " + "ms", Milliseconds) == n
  {
    NumeralLetters(n);
    var a := n + " ";
    StripBeforeSpace(n);
    var t := a + "ms";
    assert t == n + " " + "ms";
    assert t == a + "ms" + "";
    assert '\U{03BC}' !in t && 'u' !in t;
    LetterAbsent(t, MicroSuffix, 0);
    LetterAbsent(t, "us", 0);
    ContainsInfix(a, "ms", "");
    SplitHead(a, "ms", "");
  }

  /** "~1.2 ms" is 1.2 thousand microseconds. */
  lemma MilliUnit(mark: string, n: string, parseFloat: FloatParser)
    requires mark == "" || mark == "~" || mark == "<"
    requires IsNumeral(n)
    ensures TimeValue(Cell(mark, n, "ms"), parseFloat) == Scaled(parseFloat(n), 1000.0)
  {
    NumeralCleaned(mark, n, "ms");
    MilliText(n);
  }

  /** A numeral followed by " sec" is read as seconds, and `float` is given the numeral. */
  lemma SecondsText(n: string)
    requires IsNumeral(n)
    ensures UnitOf(n + " " + "sec") == Seconds && NumberText(n + " " + "sec", Seconds) == n
  {
    NumeralLetters(n);
    var a := n + " ";
    StripBeforeSpace(n);
    var t := a + "sec";
    assert t == n + " " + "sec";
    assert t == a + "sec" + "";
    assert '\U{03BC}' !in t && 'u' !in t && 'm' !in t;
    LetterAbsent(t, MicroSuffix, 0);
    LetterAbsent(t, "us", 0);
    LetterAbsent(t, "ms", 0);
    ContainsInfix(a, "sec", "");
    SplitHead(a, "sec", "");
    SplitAbsent(a, "s");
  }

  /** "~1.75 sec" is 1.75 million microseconds. */
  lemma SecondUnit(mark: string, n: string, parseFloat: FloatParser)
    requires mark == "" || mark == "~" || mark == "<"
    requires IsNumeral(n)
    ensures TimeValue(Cell(mark, n, "sec"), parseFloat) == Scaled(parseFloat(n), 1000000.0)
  {
    NumeralCleaned(mark, n, "sec");
    SecondsText(n);
  }

  /* The baseline document */

  /** Every piece stripped. */
  function StripAll(parts: seq<string>): (r: seq<string>)
    ensures |r| == |parts| && forall i :: 0 <= i < |parts| ==> r[i] == Strip(parts[i])
  {
    seq(|parts|, i requires 0 <= i < |parts| => Strip(parts[i]))
  }

  /** The non-empty pieces, in order. */
  function NonEmpty(parts: seq<string>): (r: seq<string>)
    ensures forall i :: 0 <= i < |r| ==> r[i] != []
  {
    if parts == [] then []
    else (if parts[0] != [] then [parts[0]] else []) + NonEmpty(parts[1..])
  }

  /** The non-empty cells of a table row: `[p.strip() for p in line.split('|') if p.strip()]`. */
  function Cells(line: string): seq<string> {
    NonEmpty(StripAll(Split(line, "|")))
  }

  /** A table row that is neither a header nor a separator. */
  predicate IsTableRow(line: string) {
    StartsWith(line, "|") && !Contains(line, "Operation") && !Contains(line, "---")
  }

  /** A baseline: an operation name and its time in microseconds. */
  type Entry = (string, real)

  /**
   * What one line of the document contributes: the first two cells of a table
   * row, when the second reads as a time that is not zero; a `ValueError`, a
   * time without a unit and a zero time all contribute nothing.
   */
  function RowEntry(rawLine: string, parseFloat: FloatParser): (r: Option<Entry>)
    ensures r.Some? ==> r.value.1 != 0.0 && r.value.0 != []
  {
    var line := Strip(rawLine);
    if !IsTableRow(line) then None
    else
      var parts := Cells(line);
      if |parts| < 2 then None
      else
        match TimeValue(parts[1], parseFloat)
        case Micros(v) => if v != 0.0 then Some((parts[0], v)) else None
        case _ => None
  }

  /** A table row with a name cell and a time cell. */
  function Row(name: string, time: string): string {
    "| " + name + " | " + time + " |"
  }

  /** Stripping drops one space on each side. */
  lemma StripPadded(s: string)
    requires s != [] && !IsSpace(s[0]) && !IsSpace(s[|s| - 1])
    ensures Strip(" " + s + " ") == s
  {
    StripBeforeSpace(s);
    assert " " + s + " " == " " + (s + " ");
    assert (" " + (s + " "))[1..] == s + " ";
    assert LStrip(" " + s + " ") == LStrip(s + " ");
    assert (s + " ")[0] == s[0];
  }

  /** The pieces of a row split at '|'. */
  lemma RowPieces(name: string, time: string)
    requires '|' !in name && '|' !in time
    ensures Split(Row(name, time), "|") == ["", " " + name + " ", " " + time + " ", ""]
  {
    var parts := ["", " " + name + " ", " " + time + " ", ""];
    assert Join(parts, "|") == Row(name, time) by {
      assert Join(parts[2..], "|") == " " + time + " " + "|" + "";
      assert Join(parts[1..], "|") == " " + name + " " + "|" + Join(parts[2..], "|");
    }
    assert '|' !in " " + name + " " && '|' !in " " + time + " ";
    SplitJoin(parts, "|");
  }

  /** Between two empty pieces, two non-empty ones are what the filter keeps. */
  lemma MiddleCells(p: seq<string>)
    requires |p| == 4 && p[0] == [] && p[1] != [] && p[2] != [] && p[3] == []
    ensures NonEmpty(p) == [p[1], p[2]]
  {
    assert p[3..][1..] == [];
    assert NonEmpty(p[3..]) == [];
    assert p[2..][1..] == p[3..];
    assert NonEmpty(p[2..]) == [p[2]];
    assert p[1..][1..] == p[2..];
    assert NonEmpty(p[1..]) == [p[1], p[2]];
  }

  /** The cells of a row are its name and its time. */
  lemma RowCells(name: string, time: string)
    requires '|' !in name && '|' !in time
    requires name != [] && !IsSpace(name[0]) && !IsSpace(name[|name| - 1])
    requires time != [] && !IsSpace(time[0]) && !IsSpace(time[|time| - 1])
    ensures Strip(Row(name, time)) == Row(name, time)
    ensures StartsWith(Row(name, time), "|")
    ensures Cells(Row(name, time)) == [name, time]
  {
    var row := Row(name, time);
    assert row[0] == '|' && row[|row| - 1] == '|';
    assert row[..1] == [row[0]];
    StripUnchanged(row);
    PaddedCells(name, time);
  }

  /** Only the padded name and time survive the cell filter. */
  lemma PaddedCells(name: string, time: string)
    requires '|' !in name && '|' !in time
    requires name != [] && !IsSpace(name[0]) && !IsSpace(name[|name| - 1])
    requires time != [] && !IsSpace(time[0]) && !IsSpace(time[|time| - 1])
    ensures Cells(Row(name, time)) == [name, time]
  {
    RowPieces(name, time);
    PiecesStripped(name, time);
    MiddleCells(StripAll(["", " " + name + " ", " " + time + " ", ""]));
  }

  /** Stripping the four pieces of a row leaves the name and the time between two empty cells. */
  lemma PiecesStripped(name: string, time: string)
    requires name != [] && !IsSpace(name[0]) && !IsSpace(name[|name| - 1])
    requires time != [] && !IsSpace(time[0]) && !IsSpace(time[|time| - 1])
    ensures var cells := StripAll(["", " " + name + " ", " " + time + " ", ""]);
            |cells| == 4 && cells[0] == [] && cells[1] == name && cells[2] == time && cells[3] == []
  {
    var pieces := ["", " " + name + " ", " " + time + " ", ""];
    assert LStrip("") == "" && RStrip("") == "";
    StripPadded(name);
    StripPadded(time);
    assert pieces[0] == "" && pieces[1] == " " + name + " " && pieces[2] == " " + time + " " && pieces[3] == "";
  }

  /**
   * A row written as the baseline document writes it, "| Creation | ~50 μs |",
   * gives its name and its time in microseconds, unless the time is zero.
   */
  lemma RowEntryOfRow(name: string, mark: string, n: string, parseFloat: FloatParser)
    requires '|' !in name && name != [] && !IsSpace(name[0]) && !IsSpace(name[|name| - 1])
    requires mark == "" || mark == "~" || mark == "<"
    requires IsNumeral(n)
    requires !Contains(Row(name, Cell(mark, n, MicroSuffix)), "Operation")
    requires !Contains(Row(name, Cell(mark, n, MicroSuffix)), "---")
    ensures RowEntry(Row(name, Cell(mark, n, MicroSuffix)), parseFloat) ==
            match parseFloat(n)
            case Some(v) => if v != 0.0 then Some((name, v)) else None
            case None => None
  {
    var time := Cell(mark, n, MicroSuffix);
    assert time[0] in mark + n && time[|time| - 1] == 's';
    assert n[0] in n;
    assert '|' !in n;
    assert '|' !in time;
    RowCells(name, time);
    MicroUnit(mark, n, parseFloat);
  }

  /* The baselines, an insertion-ordered dict */

  type Dict = seq<Entry>

  function Keys(d: Dict): seq<string> {
    if d == [] then [] else [d[0].0] + Keys(d[1..])
  }

  predicate DistinctKeys(d: Dict) {
    forall i, j :: 0 <= i < j < |d| ==> d[i].0 != d[j].0
  }

  predicate NonZero(d: Dict) {
    forall i :: 0 <= i < |d| ==> d[i].1 != 0.0
  }

  /** `d.get(k)` */
  function Lookup(d: Dict, k: string): Option<real> {
    if d == [] then None
    else if d[0].0 == k then Some(d[0].1)
    else Lookup(d[1..], k)
  }

  /** `d[k] = v`: an existing key keeps its place and takes the new value; a new key goes last. */
  function Assign(d: Dict, k: string, v: real): Dict {
    if d == [] then [(k, v)]
    else if d[0].0 == k then [(k, v)] + d[1..]
    else [d[0]] + Assign(d[1..], k, v)
  }

  /** After `d[k] = v`, `k` maps to `v` and every other key to what it mapped to before. */
  lemma {:induction false} AssignLookup(d: Dict, k: string, v: real, key: string)
    ensures Lookup(Assign(d, k, v), key) == if key == k then Some(v) else Lookup(d, key)
    decreases |d|
  {
    if d != [] && d[0].0 != k {
      AssignLookup(d[1..], k, v, key);
      assert Assign(d, k, v)[1..] == Assign(d[1..], k, v);
    }
  }

  /** The keys keep their order; a new key is appended. */
  lemma {:induction false} AssignKeys(d: Dict, k: string, v: real)
    ensures Keys(Assign(d, k, v)) == if k in Keys(d) then Keys(d) else Keys(d) + [k]
    decreases |d|
  {
    if d != [] {
      assert Keys(d) == [d[0].0] + Keys(d[1..]);
      if d[0].0 == k {
        assert Assign(d, k, v)[1..] == d[1..];
      } else {
        AssignKeys(d[1..], k, v);
        assert Assign(d, k, v)[1..] == Assign(d[1..], k, v);
        assert k in Keys(d) <==> k in Keys(d[1..]);
      }
    }
  }

  /** Keys stay distinct and values non-zero when a non-zero value is assigned. */
  lemma {:induction false} AssignWellFormed(d: Dict, k: string, v: real)
    requires DistinctKeys(d) && NonZero(d) && v != 0.0
    ensures DistinctKeys(Assign(d, k, v)) && NonZero(Assign(d, k, v))
    ensures forall i :: 0 <= i < |Assign(d, k, v)| ==> Assign(d, k, v)[i].0 == k || Assign(d, k, v)[i].0 in Keys(d)
    decreases |d|
  {
    if d != [] {
      if d[0].0 != k {
        AssignWellFormed(d[1..], k, v);
        AssignPastHead(d, k, v);
      } else {
        AssignAtHead(d, k, v);
      }
    }
  }

  /** Assigning to the first key replaces its value only. */
  lemma AssignAtHead(d: Dict, k: string, v: real)
    requires d != [] && d[0].0 == k && DistinctKeys(d) && NonZero(d) && v != 0.0
    ensures DistinctKeys(Assign(d, k, v)) && NonZero(Assign(d, k, v))
    ensures forall i :: 0 <= i < |Assign(d, k, v)| ==> Assign(d, k, v)[i].0 == k || Assign(d, k, v)[i].0 in Keys(d)
  {
    var r := Assign(d, k, v);
    assert r == [(k, v)] + d[1..];
    KeysIn(d);
    forall i | 0 <= i < |r| ensures r[i].0 == d[i].0 && r[i].0 in Keys(d) {
      assert Keys(d)[i] == d[i].0;
    }
  }

  /** Assigning past a different first key keeps that entry in front of the assigned rest. */
  lemma AssignPastHead(d: Dict, k: string, v: real)
    requires d != [] && d[0].0 != k && DistinctKeys(d) && NonZero(d) && v != 0.0
    requires DistinctKeys(Assign(d[1..], k, v)) && NonZero(Assign(d[1..], k, v))
    requires forall i :: 0 <= i < |Assign(d[1..], k, v)| ==>
               Assign(d[1..], k, v)[i].0 == k || Assign(d[1..], k, v)[i].0 in Keys(d[1..])
    ensures DistinctKeys(Assign(d, k, v)) && NonZero(Assign(d, k, v))
    ensures forall i :: 0 <= i < |Assign(d, k, v)| ==> Assign(d, k, v)[i].0 == k || Assign(d, k, v)[i].0 in Keys(d)
  {
    var rest := Assign(d[1..], k, v);
    var r := Assign(d, k, v);
    assert r == [d[0]] + rest;
    assert Keys(d) == [d[0].0] + Keys(d[1..]);
    KeysIn(d[1..]);
    forall j | 0 < j < |r| ensures r[j].0 != d[0].0 {
      assert r[j] == rest[j - 1];
    }
  }

  /** The keys are the first components. */
  lemma {:induction false} KeysIn(d: Dict)
    ensures |Keys(d)| == |d| && forall i :: 0 <= i < |d| ==> Keys(d)[i] == d[i].0
    decreases |d|
  {
    if d != [] {
      KeysIn(d[1..]);
    }
  }

  /** One line's contribution. */
  function Record(d: Dict, e: Option<Entry>): Dict {
    match e
    case None => d
    case Some(entry) => Assign(d, entry.0, entry.1)
  }

  /**
   * parse_baseline_md: the lines' contributions, in order, into an empty
   * dict. Every baseline is stored once, and none is zero, so dividing by it
   * is safe.
   */
  function Baselines(lines: seq<string>, parseFloat: FloatParser): (r: Dict)
    ensures DistinctKeys(r) && NonZero(r)
  {
    if lines == [] then []
    else
      var init := Baselines(lines[..|lines| - 1], parseFloat);
      var e := RowEntry(lines[|lines| - 1], parseFloat);
      if e.Some? then
        AssignWellFormed(init, e.value.0, e.value.1);
        Record(init, e)
      else init
  }

  lemma BaselinesStep(lines: seq<string>, parseFloat: FloatParser, i: nat)
    requires i < |lines|
    ensures Baselines(lines[..i + 1], parseFloat) == Record(Baselines(lines[..i], parseFloat), RowEntry(lines[i], parseFloat))
  {
    assert lines[..i + 1][..i] == lines[..i];
  }

  /** Row `j` names `k` and no later row does. */
  predicate LastRowFor(lines: seq<string>, parseFloat: FloatParser, k: string, j: nat) {
    j < |lines| && RowEntry(lines[j], parseFloat).Some? && RowEntry(lines[j], parseFloat).value.0 == k &&
    forall l :: j < l < |lines| ==> RowEntry(lines[l], parseFloat).None? || RowEntry(lines[l], parseFloat).value.0 != k
  }

  /** A later row for the same operation overwrites an earlier one: the last row's time is the baseline. */
  lemma BaselinesLast(lines: seq<string>, parseFloat: FloatParser, k: string, j: nat)
    requires LastRowFor(lines, parseFloat, k, j)
    ensures Lookup(Baselines(lines, parseFloat), k) == Some(RowEntry(lines[j], parseFloat).value.1)
  {
    BaselinesRecorded(lines, parseFloat);
    RecordAllLast(RowEntries(lines, parseFloat), k, j);
  }

  /** An operation no row names has no baseline. */
  lemma BaselinesAbsent(lines: seq<string>, parseFloat: FloatParser, k: string)
    requires forall l :: 0 <= l < |lines| ==> RowEntry(lines[l], parseFloat).None? || RowEntry(lines[l], parseFloat).value.0 != k
    ensures Lookup(Baselines(lines, parseFloat), k).None?
  {
    BaselinesRecorded(lines, parseFloat);
    RecordAllAbsent(RowEntries(lines, parseFloat), k);
  }

  /** What each line of the document yields. */
  function RowEntries(lines: seq<string>, parseFloat: FloatParser): (r: seq<Option<Entry>>)
    ensures |r| == |lines| && forall i :: 0 <= i < |lines| ==> r[i] == RowEntry(lines[i], parseFloat)
  {
    seq(|lines|, i requires 0 <= i < |lines| => RowEntry(lines[i], parseFloat))
  }

  /** The dictionary after recording the entries in order. */
  function RecordAll(es: seq<Option<Entry>>): Dict {
    if es == [] then [] else Record(RecordAll(es[..|es| - 1]), es[|es| - 1])
  }

  /** The baselines are the lines' entries recorded in order. */
  lemma {:induction false} BaselinesRecorded(lines: seq<string>, parseFloat: FloatParser)
    ensures Baselines(lines, parseFloat) == RecordAll(RowEntries(lines, parseFloat))
    decreases |lines|
  {
    if lines != [] {
      var init := lines[..|lines| - 1];
      var es := RowEntries(lines, parseFloat);
      var last := RowEntry(lines[|lines| - 1], parseFloat);
      BaselinesRecorded(init, parseFloat);
      assert es[..|es| - 1] == RowEntries(init, parseFloat);
      assert es[|es| - 1] == last;
      assert RecordAll(es) == Record(RecordAll(es[..|es| - 1]), last);
      assert Baselines(lines, parseFloat) == Record(Baselines(init, parseFloat), last);
    }
  }

  /** The last entry for a key decides its value. */
  lemma {:induction false} RecordAllLast(es: seq<Option<Entry>>, k: string, j: nat)
    requires j < |es| && es[j].Some? && es[j].value.0 == k
    requires forall l :: j < l < |es| ==> es[l].None? || es[l].value.0 != k
    ensures Lookup(RecordAll(es), k) == Some(es[j].value.1)
    decreases |es|
  {
    var init := es[..|es| - 1];
    RecordLookup(RecordAll(init), es[|es| - 1], k);
    if j < |es| - 1 {
      RecordAllLast(init, k, j);
    }
  }

  /** A key no entry names is not recorded. */
  lemma {:induction false} RecordAllAbsent(es: seq<Option<Entry>>, k: string)
    requires forall l :: 0 <= l < |es| ==> es[l].None? || es[l].value.0 != k
    ensures Lookup(RecordAll(es), k).None?
    decreases |es|
  {
    if es != [] {
      var init := es[..|es| - 1];
      RecordLookup(RecordAll(init), es[|es| - 1], k);
      RecordAllAbsent(init, k);
    }
  }

  /** Recording an entry sets its key and leaves every other key's value alone. */
  lemma RecordLookup(d: Dict, e: Option<Entry>, key: string)
    ensures Lookup(Record(d, e), key) == if e.Some? && e.value.0 == key then Some(e.value.1) else Lookup(d, key)
  {
    if e.Some? {
      AssignLookup(d, e.value.0, e.value.1, key);
    }
  }

  /** One line of parse_baseline_md's loop. */
  method ReadRow(baselines: Dict, rawLine: string, parseFloat: FloatParser) returns (updated: Dict)
    ensures updated == Record(baselines, RowEntry(rawLine, parseFloat))
  {
    updated := baselines;
    var line := Strip(rawLine);
    if StartsWith(line, "|") && !Contains(line, "Operation") && !Contains(line, "---") {
      var parts := Cells(line);
      if |parts| >= 2 {
        var operation := parts[0];
        var timeValue := TimeValue(parts[1], parseFloat);
        if timeValue.Micros? && timeValue.us != 0.0 {
          assert RowEntry(rawLine, parseFloat) == Some((operation, timeValue.us));
          updated := Assign(baselines, operation, timeValue.us);
        } else {
          assert RowEntry(rawLine, parseFloat) == None;
        }
      } else {
        assert RowEntry(rawLine, parseFloat) == None;
      }
    } else {
      assert !IsTableRow(line);
      assert RowEntry(rawLine, parseFloat) == None;
    }
  }

  /** parse_baseline_md over the document's lines. */
  method ParseBaselineMd(lines: seq<string>, parseFloat: FloatParser) returns (baselines: Dict)
    ensures baselines == Baselines(lines, parseFloat)
  {
    baselines := [];
    for i := 0 to |lines|
      invariant baselines == Baselines(lines[..i], parseFloat)
    {
      BaselinesStep(lines, parseFloat, i);
      baselines := ReadRow(baselines, lines[i], parseFloat);
    }
    assert lines[..|lines|] == lines;
  }

  /* Matching and classification */

  /** A baseline applies to a benchmark whose lowercased name contains the baseline's lowercased name. */
  predicate NameMatches(baselineName: string, name: string) {
    Contains(Lower(name), Lower(baselineName))
  }

  /** The index of the first baseline, in insertion order, that applies to `name`. */
  function FirstMatch(d: Dict, name: string): (r: Option<nat>)
    ensures r.Some? ==> r.value < |d| && NameMatches(d[r.value].0, name)
    ensures r.Some? ==> forall j :: 0 <= j < r.value ==> !NameMatches(d[j].0, name)
    ensures r.None? ==> forall j :: 0 <= j < |d| ==> !NameMatches(d[j].0, name)
  {
    if d == [] then None
    else if NameMatches(d[0].0, name) then Some(0)
    else
      match FirstMatch(d[1..], name)
      case None => None
      case Some(i) => Some(i + 1)
  }

  /** The baseline time a benchmark is compared with, if any. */
  function BaselineFor(d: Dict, name: string): Option<real> {
    match FirstMatch(d, name)
    case None => None
    case Some(i) => Some(d[i].1)
  }

  /** The inner loop of compare_benchmarks: stop at the first baseline that applies. */
  method FindBaseline(d: Dict, name: string) returns (baselineTimeUs: Option<real>)
    ensures baselineTimeUs == BaselineFor(d, name)
  {
    baselineTimeUs := None;
    var i := 0;
    while i < |d|
      invariant 0 <= i <= |d|
      invariant forall j :: 0 <= j < i ==> !NameMatches(d[j].0, name)
    {
      if Contains(Lower(name), Lower(d[i].0)) {
        baselineTimeUs := Some(d[i].1);
        break;
      }
      i := i + 1;
    }
  }

  /** One entry of the results' "benchmarks" list; `name` and `real_time` may be absent. */
  datatype Bench = Bench(name: Option<string>, realTime: Option<real>)

  /** One result: the name, both times in microseconds, and the change in percent. */
  datatype Comparison = Comparison(name: string, baselineUs: real, currentUs: real, percentChange: real)

  function PercentChange(currentUs: real, baselineUs: real): real
    requires baselineUs != 0.0
  {
    (currentUs - baselineUs) / baselineUs * 100.0
  }

  /** With a positive baseline the change is positive exactly when the current time is larger, and negative when smaller. */
  lemma PercentChangeSign(currentUs: real, baselineUs: real)
    requires baselineUs > 0.0
    ensures PercentChange(currentUs, baselineUs) > 0.0 <==> currentUs > baselineUs
    ensures PercentChange(currentUs, baselineUs) < 0.0 <==> currentUs < baselineUs
  {
    var q := (currentUs - baselineUs) / baselineUs;
    assert q * baselineUs == currentUs - baselineUs;
    if currentUs > baselineUs {
      assert q > 0.0;
    } else if currentUs < baselineUs {
      assert q < 0.0;
    } else {
      assert q == 0.0;
    }
  }

  /** The result for one benchmark: `real_time` is in nanoseconds; no applicable baseline, no result. */
  function Compared(d: Dict, bench: Bench): (r: Option<Comparison>)
    requires NonZero(d)
    ensures r.Some? <==> BaselineFor(d, bench.name.GetOr("")).Some?
  {
    var name := bench.name.GetOr("");
    var currentUs := bench.realTime.GetOr(0.0) / 1000.0;
    match FirstMatch(d, name)
    case None => None
    case Some(i) => Some(Comparison(name, d[i].1, currentUs, PercentChange(currentUs, d[i].1)))
  }

  function AsSeq<T>(o: Option<T>): seq<T> {
    match o
    case None => []
    case Some(x) => [x]
  }

  /** The results of the matched benchmarks, in input order. */
  function Comparisons(d: Dict, benches: seq<Bench>): (r: seq<Comparison>)
    requires NonZero(d)
    ensures forall c :: c in r ==> BaselineFor(d, c.name) == Some(c.baselineUs)
    ensures |r| <= |benches|
  {
    if benches == [] then []
    else Comparisons(d, benches[..|benches| - 1]) + AsSeq(Compared(d, benches[|benches| - 1]))
  }

  /** Every benchmark that has a baseline has its result among them. */
  lemma {:induction false} MatchedKept(d: Dict, benches: seq<Bench>, k: nat)
    requires NonZero(d) && k < |benches| && Compared(d, benches[k]).Some?
    ensures Compared(d, benches[k]).value in Comparisons(d, benches)
    decreases |benches|
  {
    var init := benches[..|benches| - 1];
    if k < |benches| - 1 {
      assert init[k] == benches[k];
      MatchedKept(d, init, k);
    }
  }

  datatype Verdict = Regression | Improvement | Unchanged

  /** More than the threshold slower is a regression, more than the threshold faster an improvement. */
  function Classify(percentChange: real, threshold: real): Verdict {
    if percentChange > threshold then Regression
    else if percentChange < -threshold then Improvement
    else Unchanged
  }

  /** The results with a given verdict, in order. */
  function WithVerdict(comps: seq<Comparison>, v: Verdict, threshold: real): (r: seq<Comparison>)
    ensures forall c :: c in r ==> c in comps && Classify(c.percentChange, threshold) == v
  {
    if comps == [] then []
    else
      var last := comps[|comps| - 1];
      WithVerdict(comps[..|comps| - 1], v, threshold) + (if Classify(last.percentChange, threshold) == v then [last] else [])
  }

  /**
   * The three lists split the results: every result is in the list of its
   * verdict, and the lists together are as long as the results.
   */
  lemma {:induction false} Partition(comps: seq<Comparison>, threshold: real)
    ensures |WithVerdict(comps, Regression, threshold)| + |WithVerdict(comps, Improvement, threshold)| +
            |WithVerdict(comps, Unchanged, threshold)| == |comps|
    ensures forall c :: c in comps ==> c in WithVerdict(comps, Classify(c.percentChange, threshold), threshold)
  {
    PartitionCount(comps, threshold);
    forall c | c in comps ensures c in WithVerdict(comps, Classify(c.percentChange, threshold), threshold) {
      PartitionMember(comps, threshold, c);
    }
  }

  /** The three lists are together as long as the results. */
  lemma {:induction false} PartitionCount(comps: seq<Comparison>, threshold: real)
    ensures |WithVerdict(comps, Regression, threshold)| + |WithVerdict(comps, Improvement, threshold)| +
            |WithVerdict(comps, Unchanged, threshold)| == |comps|
    decreases |comps|
  {
    if comps != [] {
      var init := comps[..|comps| - 1];
      var v := Classify(comps[|comps| - 1].percentChange, threshold);
      PartitionCount(init, threshold);
      assert |WithVerdict(comps, Regression, threshold)| == |WithVerdict(init, Regression, threshold)| + (if v == Regression then 1 else 0);
      assert |WithVerdict(comps, Improvement, threshold)| == |WithVerdict(init, Improvement, threshold)| + (if v == Improvement then 1 else 0);
      assert |WithVerdict(comps, Unchanged, threshold)| == |WithVerdict(init, Unchanged, threshold)| + (if v == Unchanged then 1 else 0);
    }
  }

  /** A result is in the list of its own verdict. */
  lemma {:induction false} PartitionMember(comps: seq<Comparison>, threshold: real, c: Comparison)
    requires c in comps
    ensures c in WithVerdict(comps, Classify(c.percentChange, threshold), threshold)
    decreases |comps|
  {
    var init := comps[..|comps| - 1];
    var last := comps[|comps| - 1];
    var v := Classify(c.percentChange, threshold);
    assert WithVerdict(comps, v, threshold) ==
             WithVerdict(init, v, threshold) + (if Classify(last.percentChange, threshold) == v then [last] else []);
    if c in init {
      PartitionMember(init, threshold, c);
    } else {
      assert comps == init + [last];
    }
  }

  /** With a positive baseline and a threshold of at least zero, a regression is slower and an improvement faster. */
  lemma VerdictDirection(c: Comparison, threshold: real)
    requires c.baselineUs > 0.0 && threshold >= 0.0
    requires c.percentChange == PercentChange(c.currentUs, c.baselineUs)
    ensures Classify(c.percentChange, threshold) == Regression ==> c.currentUs > c.baselineUs
    ensures Classify(c.percentChange, threshold) == Improvement ==> c.currentUs < c.baselineUs
  {
    PercentChangeSign(c.currentUs, c.baselineUs);
  }

  /** What compare_benchmarks returns. */
  datatype Verdicts = Verdicts(regressions: seq<Comparison>, improvements: seq<Comparison>, steady: seq<Comparison>)

  /** The results split by verdict. */
  function SplitByVerdict(comps: seq<Comparison>, threshold: real): Verdicts {
    Verdicts(WithVerdict(comps, Regression, threshold), WithVerdict(comps, Improvement, threshold),
             WithVerdict(comps, Unchanged, threshold))
  }

  /** compare_benchmarks' result; without a "benchmarks" key there are no results. */
  function Compare(d: Dict, current: Option<seq<Bench>>, threshold: real): Verdicts
    requires NonZero(d)
  {
    SplitByVerdict(Comparisons(d, current.GetOr([])), threshold)
  }

  /** A result appended to the list of its verdict. */
  function AddResult(vs: Verdicts, c: Comparison, threshold: real): Verdicts {
    match Classify(c.percentChange, threshold)
    case Regression => vs.(regressions := vs.regressions + [c])
    case Improvement => vs.(improvements := vs.improvements + [c])
    case Unchanged => vs.(steady := vs.steady + [c])
  }

  lemma ComparisonsStep(d: Dict, benches: seq<Bench>, i: nat)
    requires NonZero(d) && i < |benches|
    ensures Comparisons(d, benches[..i + 1]) == Comparisons(d, benches[..i]) + AsSeq(Compared(d, benches[i]))
  {
    assert benches[..i + 1][..i] == benches[..i];
  }

  lemma SplitSnoc(comps: seq<Comparison>, c: Comparison, threshold: real)
    ensures SplitByVerdict(comps + [c], threshold) == AddResult(SplitByVerdict(comps, threshold), c, threshold)
  {
    assert (comps + [c])[..|comps|] == comps;
  }

  /** One benchmark of compare_benchmarks' loop. */
  method CompareOne(baseline: Dict, bench: Bench, thresholdPercent: real, vs: Verdicts) returns (next: Verdicts)
    requires NonZero(baseline)
    ensures Compared(baseline, bench).None? ==> next == vs
    ensures Compared(baseline, bench).Some? ==> next == AddResult(vs, Compared(baseline, bench).value, thresholdPercent)
  {
    next := vs;
    var name := bench.name.GetOr("");
    var currentTimeUs := bench.realTime.GetOr(0.0) / 1000.0;
    var baselineTimeUs := FindBaseline(baseline, name);
    if baselineTimeUs.None? {
      return;
    }
    var percentChange := PercentChange(currentTimeUs, baselineTimeUs.value);
    var result := Comparison(name, baselineTimeUs.value, currentTimeUs, percentChange);
    assert Compared(baseline, bench) == Some(result);
    if percentChange > thresholdPercent {
      next := vs.(regressions := vs.regressions + [result]);
    } else if percentChange < -thresholdPercent {
      next := vs.(improvements := vs.improvements + [result]);
    } else {
      next := vs.(steady := vs.steady + [result]);
    }
  }

  /** compare_benchmarks: each benchmark with a baseline goes to the list of its verdict, in input order. */
  method CompareBenchmarks(baseline: Dict, current: Option<seq<Bench>>, thresholdPercent: real)
    returns (regressions: seq<Comparison>, improvements: seq<Comparison>, steady: seq<Comparison>)
    requires NonZero(baseline)
    ensures Verdicts(regressions, improvements, steady) == Compare(baseline, current, thresholdPercent)
  {
    var vs := Verdicts([], [], []);
    var currentBenchmarks := if current.Some? then current.value else [];
    for i := 0 to |currentBenchmarks|
      invariant vs == SplitByVerdict(Comparisons(baseline, currentBenchmarks[..i]), thresholdPercent)
    {
      ComparisonsStep(baseline, currentBenchmarks, i);
      var compared := Compared(baseline, currentBenchmarks[i]);
      ghost var before := Comparisons(baseline, currentBenchmarks[..i]);
      if compared.Some? {
        assert Comparisons(baseline, currentBenchmarks[..i + 1]) == before + [compared.value];
        SplitSnoc(before, compared.value, thresholdPercent);
      } else {
        assert Comparisons(baseline, currentBenchmarks[..i + 1]) == before + [];
        assert before + [] == before;
      }
      vs := CompareOne(baseline, currentBenchmarks[i], thresholdPercent, vs);
    }
    assert currentBenchmarks[..|currentBenchmarks|] == currentBenchmarks;
    regressions, improvements, steady := vs.regressions, vs.improvements, vs.steady;
  }

  /** main's exit status once the comparison ran: 1 when there is a regression. */
  function ExitCode(regressions: seq<Comparison>): int {
    if regressions != [] then 1 else 0
  }

  /** The status is 1 exactly when some matched benchmark changed by more than the threshold. */
  lemma ExitIffRegression(d: Dict, current: Option<seq<Bench>>, threshold: real)
    requires NonZero(d)
    ensures ExitCode(Compare(d, current, threshold).regressions) == 1 <==>
            exists c :: c in Comparisons(d, current.GetOr([])) && c.percentChange > threshold
  {
    var comps := Comparisons(d, current.GetOr([]));
    var regressions := WithVerdict(comps, Regression, threshold);
    if regressions != [] {
      assert regressions[0] in regressions;
    }
    Partition(comps, threshold);
  }

  /**
   * main: fewer than two arguments, an unreadable threshold or a missing file
   * exits with 1; otherwise the exit status says whether there is a
   * regression. Files are given by path: the baseline document as its lines,
   * the results as their "benchmarks" list, if they have one.
   */
  method CompareMain(args: seq<string>, documents: map<string, seq<string>>, results: map<string, Option<seq<Bench>>>,
                     parseFloat: FloatParser)
    returns (exitCode: int)
    ensures |args| < 2 ==> exitCode == 1
    ensures |args| >= 2 ==>
              var threshold := if |args| > 2 then parseFloat(args[2]) else Some(10.0);
              if threshold.None? || args[0] !in documents || args[1] !in results then exitCode == 1
              else exitCode == ExitCode(Compare(Baselines(documents[args[0]], parseFloat), results[args[1]], threshold.value).regressions)
  {
    if |args| < 2 {
      return 1;
    }
    var threshold := if |args| > 2 then parseFloat(args[2]) else Some(10.0);
    if threshold.None? || args[0] !in documents || args[1] !in results {
      return 1;
    }
    var baseline := ParseBaselineMd(documents[args[0]], parseFloat);
    var regressions, improvements, steady := CompareBenchmarks(baseline, results[args[1]], threshold.value);
    exitCode := if regressions != [] then 1 else 0;
  }
}
