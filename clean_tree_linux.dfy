/**
 * The Linux tree cleaner (scripts/clean_tree_linux.py): it reads the
 * output of `tree -a` line by line and writes the lines it keeps. An entry
 * whose name is listed, or contains a listed fragment, is dropped together
 * with everything below it; a listed folder of the third kind is kept but
 * its contents are dropped. The depth of an entry is the position of its
 * `├──` or `└──` marker divided by four.
 *
 * Opening and writing the files is left out: the input is the sequence of
 * lines (each as read, with its line break), the output the sequence of
 * lines written.
 */
module CleanTreeLinux {
  import opened Wrappers
  import opened Sequences
  import Text

  /** `words_to_match`, the list the script passes. */
  const WordsToMatch: seq<string> := ["cache", ".vscode", "last_run", "venv", ".flake8", ".git", "__pycache__",
                                      "ckeditor", "readme_media"]

  /** `contains_words`: fragments that drop any name holding one. */
  const ContainsWords: seq<string> := ["cache", "tree", "last_run"]

  /** `leave_this_but_ignore_children`: folders written without their contents. */
  const LeaveButIgnoreChildren: seq<string> := ["ckeditor", "fonts", "images", "styles", "webassets-external",
                                                "node_modules", "htmlcov", ".next"]

  /** A name holding one of `contains_words`. */
  predicate HasFragment(name: string) {
    exists i :: 0 <= i < |ContainsWords| && Text.Contains(name, ContainsWords[i])
  }

  /** A name listed in `leave_this_but_ignore_children`. */
  predicate KeepWithoutChildren(name: string) {
    name in LeaveButIgnoreChildren
  }

  /** The pattern `[├└]──` occurs at position `i`. */
  predicate MarkerAt(line: string, i: int) {
    0 <= i && i + 2 < |line| && (line[i] == '├' || line[i] == '└') && line[i + 1] == '─' && line[i + 2] == '─'
  }

  /** The start of the first marker at or after `from`, as `re.search` finds it. */
  function MarkerFrom(line: string, from: nat): (r: Option<nat>)
    ensures r.Some? ==> from <= r.value && MarkerAt(line, r.value) && forall j :: from <= j < r.value ==> !MarkerAt(line, j)
    ensures r.None? ==> forall j :: from <= j ==> !MarkerAt(line, j)
    decreases |line| - from
  {
    if from + 2 >= |line| then None
    else if MarkerAt(line, from) then Some(from)
    else MarkerFrom(line, from + 1)
  }

  function FirstMarker(line: string): Option<nat> {
    MarkerFrom(line, 0)
  }

  /** `line.strip().split(' ')[-1]`. */
  function Name(line: string): string {
    Text.Last(Text.Split(Text.Strip(line), ' '))
  }

  /**
   * The loop's variables between lines. `level` is absent until a line with
   * a marker has set it; a line without one leaves the previous value.
   */
  datatype Scan = Scan(ignore: bool, ignoreLevel: int, level: Option<int>)

  /** Whenever lines are being ignored, a level has been set. */
  predicate Consistent(s: Scan) {
    s.ignore ==> s.level.Some?
  }

  const Start := Scan(false, 0, None)

  /** One pass of the loop body: the new variables and whether the line is written. */
  function Step(s: Scan, line: string, words: seq<string>): (r: (Scan, bool))
    requires Consistent(s)
    ensures Consistent(r.0)
  {
    var marker := FirstMarker(line);
    var level := if marker.Some? then Some(marker.value / 4) else s.level;
    var deeper := s.ignore && level.value > s.ignoreLevel;
    if marker.None? || deeper then (Scan(deeper, s.ignoreLevel, level), false)
    else
      var name := Name(line);
      if name in words || HasFragment(name) then (Scan(true, level.value, level), false)
      else if KeepWithoutChildren(name) then (Scan(true, level.value, level), true)
      else (Scan(false, s.ignoreLevel, level), true)
  }

  /** The variables after `lines`, and for each line whether it is written. */
  function Run(s: Scan, lines: seq<string>, words: seq<string>): (r: (Scan, seq<bool>))
    requires Consistent(s)
    ensures Consistent(r.0) && |r.1| == |lines|
    decreases |lines|
  {
    if |lines| == 0 then (s, [])
    else
      var (before, kept) := Run(s, lines[..|lines| - 1], words);
      var (after, keep) := Step(before, lines[|lines| - 1], words);
      (after, kept + [keep])
  }

  /** `process_tree_file`: the lines written. */
  function Cleaned(lines: seq<string>, words: seq<string>): seq<string> {
    Select(lines, Run(Start, lines, words).1)
  }

  /** The loop of `process_tree_file`, writing each kept line as it goes. */
  method ProcessTree(lines: seq<string>, words: seq<string>) returns (out: seq<string>)
    ensures out == Cleaned(lines, words)
  {
    var ignore, ignoreLevel, level := false, 0, None;
    ghost var kept: seq<bool> := [];
    out := [];
    var i := 0;
    while i < |lines|
      invariant 0 <= i <= |lines|
      invariant Run(Start, lines[..i], words) == (Scan(ignore, ignoreLevel, level), kept)
      invariant out == Select(lines[..i], kept)
    {
      ignore, ignoreLevel, level, out, kept := Iterate(ignore, ignoreLevel, level, out, lines[i], words, lines[..i], kept);
      assert lines[..i + 1] == lines[..i] + [lines[i]];
      i := i + 1;
    }
    assert lines[..i] == lines;
  }

  /**
   * One pass of the loop: the line is judged and written when kept, so the
   * variables and the output continue the run over the lines before it.
   */
  method Iterate(ignore0: bool, ignoreLevel0: int, level0: Option<int>, out0: seq<string>, line: string,
                 words: seq<string>, ghost done: seq<string>, ghost kept0: seq<bool>)
    returns (ignore: bool, ignoreLevel: int, level: Option<int>, out: seq<string>, ghost kept: seq<bool>)
    requires Run(Start, done, words) == (Scan(ignore0, ignoreLevel0, level0), kept0)
    requires out0 == Select(done, kept0)
    ensures Run(Start, done + [line], words) == (Scan(ignore, ignoreLevel, level), kept)
    ensures out == Select(done + [line], kept)
  {
    var write;
    ignore, ignoreLevel, level, write := JudgeLine(ignore0, ignoreLevel0, level0, line, words);
    out := out0;
    if write {
      out := out + [line];
    }
    kept := kept0 + [write];
    assert (done + [line])[..|done|] == done;
    SelectStep(done, kept0, line, write);
  }

  /** The body of the loop for one line: the new variables and whether the line is written. */
  method JudgeLine(ignore0: bool, ignoreLevel0: int, level0: Option<int>, line: string, words: seq<string>)
    returns (ignore: bool, ignoreLevel: int, level: Option<int>, write: bool)
    requires Consistent(Scan(ignore0, ignoreLevel0, level0))
    ensures (Scan(ignore, ignoreLevel, level), write) == Step(Scan(ignore0, ignoreLevel0, level0), line, words)
  {
    ignore, ignoreLevel, level := ignore0, ignoreLevel0, level0;
    var ignoreThisLine := false;
    var marker := FirstMarker(line);
    if marker.Some? {
      level := Some(marker.value / 4);
    } else {
      ignoreThisLine := true;
    }
    if ignore && level.value > ignoreLevel {
      ignoreThisLine := true;
    } else if ignore {
      ignore := false;
    }
    var name := Name(line);
    if !ignoreThisLine && name in words {
      ignore, ignoreLevel, ignoreThisLine := true, level.value, true;
    }
    if !ignoreThisLine && HasFragment(name) {
      ignore, ignoreLevel, ignoreThisLine := true, level.value, true;
    }
    if !ignoreThisLine && KeepWithoutChildren(name) {
      ignore, ignoreLevel := true, level.value;
    }
    write := !ignoreThisLine;
  }

  // ---------------------------------------------------------------------------
  // Properties
  // ---------------------------------------------------------------------------

  /** The output is the input with some lines left out, each written unchanged and in order. */
  lemma CleanedIsSubsequence(lines: seq<string>, words: seq<string>)
    ensures IsSubsequence(Cleaned(lines, words), lines)
    ensures forall x :: x in Cleaned(lines, words) ==> x in lines
  {
    SelectIsSubsequence(lines, Run(Start, lines, words).1);
  }

  /**
   * A line without a marker is never written; a line with one sets the
   * level to the marker's position divided by four.
   */
  lemma MarkerAndLevel(s: Scan, line: string, words: seq<string>)
    requires Consistent(s)
    ensures FirstMarker(line).None? ==> !Step(s, line, words).1 && Step(s, line, words).0.level == s.level
    ensures forall k :: 0 <= k && MarkerAt(line, k) && (forall j :: 0 <= j < k ==> !MarkerAt(line, j)) ==>
      Step(s, line, words).0.level == Some(k / 4)
  {
    forall k | 0 <= k && MarkerAt(line, k) && (forall j :: 0 <= j < k ==> !MarkerAt(line, j))
      ensures FirstMarker(line) == Some(k)
    {
      var m := FirstMarker(line);
      assert m.Some?;
      assert !(m.value < k) && !(k < m.value);
    }
  }

  /**
   * While ignoring, a line deeper than the ignored entry is dropped and the
   * ignoring goes on; the first line with a marker that is not deeper ends
   * the ignoring and is judged as if nothing were being ignored.
   */
  lemma IgnoringRule(s: Scan, line: string, words: seq<string>)
    requires Consistent(s) && s.ignore && FirstMarker(line).Some?
    ensures FirstMarker(line).value / 4 > s.ignoreLevel ==>
      Step(s, line, words) == (Scan(true, s.ignoreLevel, Some(FirstMarker(line).value / 4)), false)
    ensures FirstMarker(line).value / 4 <= s.ignoreLevel ==> Step(s, line, words) == Step(s.(ignore := false), line, words)
  {
  }

  /** A line whose name is listed, or contains a fragment, is dropped and starts ignoring below it. */
  lemma MatchStartsIgnoring(s: Scan, line: string, words: seq<string>)
    requires Consistent(s) && !s.ignore && FirstMarker(line).Some?
    ensures Name(line) in words || HasFragment(Name(line)) ==>
      Step(s, line, words) == (Scan(true, FirstMarker(line).value / 4, Some(FirstMarker(line).value / 4)), false)
    ensures !(Name(line) in words || HasFragment(Name(line))) && KeepWithoutChildren(Name(line)) ==>
      Step(s, line, words) == (Scan(true, FirstMarker(line).value / 4, Some(FirstMarker(line).value / 4)), true)
    ensures !(Name(line) in words || HasFragment(Name(line)) || KeepWithoutChildren(Name(line))) ==>
      Step(s, line, words).1 && !Step(s, line, words).0.ignore
  {
  }

  /** A run of lines all deeper than the ignored entry is dropped entirely. */
  lemma {:induction false} DeeperLinesDropped(s: Scan, rest: seq<string>, words: seq<string>)
    requires Consistent(s) && s.ignore
    requires forall j :: 0 <= j < |rest| ==> FirstMarker(rest[j]).Some? && FirstMarker(rest[j]).value / 4 > s.ignoreLevel
    ensures Run(s, rest, words).0.ignore && Run(s, rest, words).0.ignoreLevel == s.ignoreLevel
    ensures forall j :: 0 <= j < |rest| ==> !Run(s, rest, words).1[j]
    decreases |rest|
  {
    if |rest| > 0 {
      var front := rest[..|rest| - 1];
      assert forall j :: 0 <= j < |front| ==> front[j] == rest[j];
      DeeperLinesDropped(s, front, words);
    }
  }

  /** Running over two blocks of lines is running over the first and then the second. */
  lemma {:induction false} RunSplits(s: Scan, a: seq<string>, b: seq<string>, words: seq<string>)
    requires Consistent(s)
    ensures Run(s, a + b, words) == (Run(Run(s, a, words).0, b, words).0, Run(s, a, words).1 + Run(Run(s, a, words).0, b, words).1)
    decreases |b|
  {
    if |b| == 0 {
      assert a + b == a;
      assert Run(s, a, words).1 + [] == Run(s, a, words).1;
    } else {
      var front := b[..|b| - 1];
      RunSplits(s, a, front, words);
      var (m, ka) := Run(s, a, words);
      var (f, kf) := Run(m, front, words);
      var (e, k) := Step(f, b[|b| - 1], words);
      assert (a + b)[..|a + b| - 1] == a + front;
      assert (a + b)[|a + b| - 1] == b[|b| - 1];
      assert Run(s, a + b, words) == (e, (ka + kf) + [k]);
      assert Run(m, b, words) == (e, kf + [k]);
      assert (ka + kf) + [k] == ka + (kf + [k]);
    }
  }

  /**
   * An entry whose name is listed or holds a fragment is dropped with all
   * the deeper lines that follow it; a folder of the third list is written
   * but the deeper lines that follow it are not.
   */
  lemma MatchedEntryDropsDescendants(s: Scan, line: string, below: seq<string>, words: seq<string>)
    requires Consistent(s) && !s.ignore && FirstMarker(line).Some?
    requires Name(line) in words || HasFragment(Name(line)) || KeepWithoutChildren(Name(line))
    requires forall j :: 0 <= j < |below| ==>
      FirstMarker(below[j]).Some? && FirstMarker(below[j]).value / 4 > FirstMarker(line).value / 4
    ensures var flags := Run(s, [line] + below, words).1;
            (flags[0] <==> !(Name(line) in words || HasFragment(Name(line)))) &&
            forall j :: 1 <= j < |flags| ==> !flags[j]
  {
    var (after, keep) := Step(s, line, words);
    var single := [line];
    assert single[..0] == [] && single[0] == line;
    assert Run(s, single, words) == (after, [] + [keep]);
    RunSplits(s, [line], below, words);
    DeeperLinesDropped(after, below, words);
  }

  /** The name is the part of the stripped line after its last space, and holds no space. */
  lemma NameIsLastToken(line: string)
    ensures ' ' !in Name(line)
    ensures Text.Strip(line) == Name(line) ||
      (exists front :: Text.Strip(line) == front + " " + Name(line))
  {
    var parts := Text.Split(Text.Strip(line), ' ');
    Text.JoinSplit(Text.Strip(line), ' ');
    JoinEndsWithLast(parts, ' ');
  }

  /** A join ends with its last part, after a separator when there are several. */
  lemma {:induction false} JoinEndsWithLast(parts: seq<string>, sep: char)
    requires |parts| > 0
    ensures |parts| == 1 ==> Text.Join(parts, sep) == Text.Last(parts)
    ensures |parts| > 1 ==> Text.Join(parts, sep) == Text.Join(parts[..|parts| - 1], sep) + [sep] + Text.Last(parts)
    decreases |parts|
  {
    if |parts| > 2 {
      var rest := parts[1..];
      JoinEndsWithLast(rest, sep);
      assert rest[..|rest| - 1] == parts[..|parts| - 1][1..];
      assert Text.Last(rest) == Text.Last(parts);
    } else if |parts| == 2 {
      assert parts[..1] == [parts[0]];
    }
  }
}
