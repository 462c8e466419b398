/**
 * The Windows tree cleaner (scripts/clean_tree_windows.py): it reads the
 * output of `tree /f /a` line by line, removes NUL characters, and writes
 * the lines it keeps, then a final `+---venv`. An entry whose name contains
 * a listed word is dropped; when it is a folder (a line holding `---`),
 * everything below it is dropped too. The depth of an entry is the
 * position of its first word character, '.', '-' or '_' divided by four.
 *
 * Opening and writing the files is left out: the input is the sequence of
 * lines (each as read, with its line break), the output the sequence of
 * strings written. The regular-expression class `\w` is the parameter
 * `isWord`.
 */
module CleanTreeWindows {
  import opened Wrappers
  import opened Sequences
  import Text

  /** `words_to_match`, the list the script passes. */
  const WordsToMatch: seq<string> := ["cache", "chrome_user_data", "tree", ".vscode", "last_run", "venv"]

  /** What the script writes after the kept lines. */
  const Trailer := "+---venv"

  /** The characters `\w|[\.\-_]` matches. */
  predicate NameChar(c: char, isWord: char -> bool) {
    isWord(c) || c == '.' || c == '-' || c == '_'
  }

  /** The position of the first name character at or after `from`, as `re.search` finds it. */
  function NameCharFrom(line: string, from: nat, isWord: char -> bool): (r: Option<nat>)
    ensures r.Some? ==> from <= r.value < |line| && NameChar(line[r.value], isWord) &&
                        forall j :: from <= j < r.value ==> !NameChar(line[j], isWord)
    ensures r.None? ==> forall j :: from <= j < |line| ==> !NameChar(line[j], isWord)
    decreases |line| - from
  {
    if from >= |line| then None
    else if NameChar(line[from], isWord) then Some(from)
    else NameCharFrom(line, from + 1, isWord)
  }

  /** `line.replace('\0', '')`. */
  function WithoutNul(line: string): (r: string)
    ensures '\0' !in r
  {
    Text.RemoveAll(line, '\0')
  }

  predicate HasWord(name: string, words: seq<string>) {
    exists i :: 0 <= i < |words| && Text.Contains(name, words[i])
  }

  /** The loop's variables between lines. */
  datatype Scan = Scan(ignore: bool, ignoreLevel: int)

  const Start := Scan(false, 0)

  /** One pass of the loop body on a line without NULs: the new variables and whether it is written. */
  function Step(s: Scan, line: string, words: seq<string>, isWord: char -> bool): (Scan, bool) {
    var isFolder := Text.Contains(line, "---");
    if !isFolder && '|' !in line then (s, false)
    else
      match NameCharFrom(line, 0, isWord)
      case None => (s, false)
      case Some(position) =>
        var level := position / 4;
        if s.ignore && level > s.ignoreLevel then (s, false)
        else if HasWord(Text.LastWord(line), words) then (if isFolder then Scan(true, level) else Scan(false, s.ignoreLevel), false)
        else (Scan(false, s.ignoreLevel), true)
  }

  /** The variables after `lines` (NULs removed), and for each whether it is written. */
  function Run(s: Scan, lines: seq<string>, words: seq<string>, isWord: char -> bool): (r: (Scan, seq<bool>))
    ensures |r.1| == |lines|
    decreases |lines|
  {
    if |lines| == 0 then (s, [])
    else
      var (before, kept) := Run(s, lines[..|lines| - 1], words, isWord);
      var (after, keep) := Step(before, lines[|lines| - 1], words, isWord);
      (after, kept + [keep])
  }

  function AllWithoutNul(lines: seq<string>): (r: seq<string>)
    ensures |r| == |lines| && forall i :: 0 <= i < |lines| ==> r[i] == WithoutNul(lines[i])
  {
    seq(|lines|, i requires 0 <= i < |lines| => WithoutNul(lines[i]))
  }

  /** `process_tree_file`: what is written. */
  function Cleaned(lines: seq<string>, words: seq<string>, isWord: char -> bool): seq<string> {
    var clean := AllWithoutNul(lines);
    Select(clean, Run(Start, clean, words, isWord).1) + [Trailer]
  }

  /** The loop of `process_tree_file`, writing each kept line as it goes and the trailer at the end. */
  method ProcessTree(lines: seq<string>, words: seq<string>, isWord: char -> bool) returns (out: seq<string>)
    ensures out == Cleaned(lines, words, isWord)
  {
    var ignore, ignoreLevel := false, 0;
    ghost var clean: seq<string> := [];
    ghost var kept: seq<bool> := [];
    out := [];
    var i := 0;
    while i < |lines|
      invariant 0 <= i <= |lines| && clean == AllWithoutNul(lines[..i])
      invariant (Scan(ignore, ignoreLevel), kept) == Run(Start, clean, words, isWord)
      invariant out == Select(clean, kept)
    {
      var line := WithoutNul(lines[i]);
      var write;
      ignore, ignoreLevel, write := JudgeLine(ignore, ignoreLevel, line, words, isWord);
      if write {
        out := out + [line];
      }
      RunStep(Start, clean, line, words, isWord);
      SelectStep(clean, kept, line, write);
      AllWithoutNulStep(lines, i);
      clean, kept := clean + [line], kept + [write];
      i := i + 1;
    }
    assert lines[..i] == lines;
    out := out + [Trailer];
  }

  /** One more line: the run over it continues from the run over the lines before. */
  lemma RunStep(s: Scan, lines: seq<string>, line: string, words: seq<string>, isWord: char -> bool)
    ensures var (before, kept) := Run(s, lines, words, isWord);
            Run(s, lines + [line], words, isWord) ==
              (Step(before, line, words, isWord).0, kept + [Step(before, line, words, isWord).1])
  {
    assert (lines + [line])[..|lines|] == lines;
  }

  lemma AllWithoutNulStep(lines: seq<string>, i: nat)
    requires i < |lines|
    ensures AllWithoutNul(lines[..i + 1]) == AllWithoutNul(lines[..i]) + [WithoutNul(lines[i])]
  {
  }

  /** The body of the loop for a line without NULs: the new variables and whether the line is written. */
  method JudgeLine(ignore0: bool, ignoreLevel0: int, line: string, words: seq<string>, isWord: char -> bool)
    returns (ignore: bool, ignoreLevel: int, write: bool)
    ensures (Scan(ignore, ignoreLevel), write) == Step(Scan(ignore0, ignoreLevel0), line, words, isWord)
  {
    ignore, ignoreLevel := ignore0, ignoreLevel0;
    var ignoreThisLine := false;
    var isFolder := Text.Contains(line, "---");
    if !isFolder && '|' !in line {
      ignoreThisLine := true;
    }
    var level := 0;
    if !ignoreThisLine {
      var position := NameCharFrom(line, 0, isWord);
      if position.Some? {
        level := position.value / 4;
      } else {
        ignoreThisLine := true;
      }
    }
    if !ignoreThisLine {
      if ignore && level > ignoreLevel {
        ignoreThisLine := true;
      } else {
        ignore := false;
      }
    }
    if !ignoreThisLine && HasWord(Text.LastWord(line), words) {
      if isFolder {
        ignore, ignoreLevel := true, level;
      }
      ignoreThisLine := true;
    }
    write := !ignoreThisLine;
  }

  // ---------------------------------------------------------------------------
  // Properties
  // ---------------------------------------------------------------------------

  /**
   * The output is some of the input lines, NULs removed, in their order,
   * followed by exactly the trailer; nothing it writes holds a NUL.
   */
  lemma CleanedShape(lines: seq<string>, words: seq<string>, isWord: char -> bool)
    ensures var out := Cleaned(lines, words, isWord);
            |out| >= 1 && out[|out| - 1] == Trailer && IsSubsequence(out[..|out| - 1], AllWithoutNul(lines)) &&
            forall x :: x in out ==> '\0' !in x
    ensures Cleaned([], words, isWord) == [Trailer]
  {
    var clean := AllWithoutNul(lines);
    var flags := Run(Start, clean, words, isWord).1;
    SelectIsSubsequence(clean, flags);
    var out := Cleaned(lines, words, isWord);
    assert out[..|out| - 1] == Select(clean, flags);
    forall x | x in out ensures '\0' !in x {
      if x in Select(clean, flags) {
        var i :| 0 <= i < |clean| && flags[i] && clean[i] == x;
      }
    }
    assert AllWithoutNul([]) == [];
  }

  /** A line holding neither `---` nor `|`, or no name character, is dropped and changes nothing. */
  lemma NotAnEntry(s: Scan, line: string, words: seq<string>, isWord: char -> bool)
    ensures !Text.Contains(line, "---") && '|' !in line ==> Step(s, line, words, isWord) == (s, false)
    ensures (forall j :: 0 <= j < |line| ==> !NameChar(line[j], isWord)) ==> Step(s, line, words, isWord) == (s, false)
  {
  }

  /**
   * While ignoring, a deeper entry is dropped and the ignoring goes on; an
   * entry that is not deeper ends it and is judged as if nothing were being
   * ignored. The level is the first name character's position divided by four.
   */
  lemma IgnoringRule(s: Scan, line: string, words: seq<string>, isWord: char -> bool, position: nat)
    requires Text.Contains(line, "---") || '|' in line
    requires position < |line| && NameChar(line[position], isWord) && forall j :: 0 <= j < position ==> !NameChar(line[j], isWord)
    ensures s.ignore && position / 4 > s.ignoreLevel ==> Step(s, line, words, isWord) == (s, false)
    ensures !(s.ignore && position / 4 > s.ignoreLevel) ==>
      Step(s, line, words, isWord) == Step(Scan(false, s.ignoreLevel), line, words, isWord)
  {
    var m := NameCharFrom(line, 0, isWord);
    assert m.Some?;
    assert !(m.value < position) && !(position < m.value);
  }

  /**
   * An entry whose name contains a listed word is dropped; only a folder
   * also starts ignoring, at its own level. An entry without such a word is
   * written and ends any ignoring.
   */
  lemma MatchRule(s: Scan, line: string, words: seq<string>, isWord: char -> bool)
    requires Text.Contains(line, "---") || '|' in line
    requires NameCharFrom(line, 0, isWord).Some?
    requires !s.ignore
    ensures var level := NameCharFrom(line, 0, isWord).value / 4;
            HasWord(Text.LastWord(line), words) ==>
              Step(s, line, words, isWord) ==
                (if Text.Contains(line, "---") then Scan(true, level) else Scan(false, s.ignoreLevel), false)
    ensures !HasWord(Text.LastWord(line), words) ==> Step(s, line, words, isWord) == (Scan(false, s.ignoreLevel), true)
  {
  }

  /** A run of entries all deeper than the ignored folder is dropped entirely. */
  lemma {:induction false} DeeperLinesDropped(s: Scan, rest: seq<string>, words: seq<string>, isWord: char -> bool)
    requires s.ignore
    requires forall j :: 0 <= j < |rest| ==>
               NameCharFrom(rest[j], 0, isWord).Some? && NameCharFrom(rest[j], 0, isWord).value / 4 > s.ignoreLevel
    ensures Run(s, rest, words, isWord).0 == s
    ensures forall j :: 0 <= j < |rest| ==> !Run(s, rest, words, isWord).1[j]
    decreases |rest|
  {
    if |rest| > 0 {
      var front := rest[..|rest| - 1];
      assert forall j :: 0 <= j < |front| ==> front[j] == rest[j];
      DeeperLinesDropped(s, front, words, isWord);
    }
  }

  /** Running over two blocks of lines is running over the first and then the second. */
  lemma {:induction false} RunSplits(s: Scan, a: seq<string>, b: seq<string>, words: seq<string>, isWord: char -> bool)
    ensures Run(s, a + b, words, isWord) ==
      (Run(Run(s, a, words, isWord).0, b, words, isWord).0, Run(s, a, words, isWord).1 + Run(Run(s, a, words, isWord).0, b, words, isWord).1)
    decreases |b|
  {
    if |b| == 0 {
      assert a + b == a;
      assert Run(s, a, words, isWord).1 + [] == Run(s, a, words, isWord).1;
    } else {
      var front := b[..|b| - 1];
      RunSplits(s, a, front, words, isWord);
      var (m, ka) := Run(s, a, words, isWord);
      var (f, kf) := Run(m, front, words, isWord);
      var (e, k) := Step(f, b[|b| - 1], words, isWord);
      assert (a + b)[..|a + b| - 1] == a + front;
      assert (a + b)[|a + b| - 1] == b[|b| - 1];
      assert Run(s, a + b, words, isWord) == (e, (ka + kf) + [k]);
      assert Run(m, b, words, isWord) == (e, kf + [k]);
      assert (ka + kf) + [k] == ka + (kf + [k]);
    }
  }

  /**
   * A folder whose name contains a listed word is dropped together with all
   * the deeper lines that follow it.
   */
  lemma MatchedFolderDropsDescendants(s: Scan, line: string, below: seq<string>, words: seq<string>, isWord: char -> bool)
    requires !s.ignore && Text.Contains(line, "---") && NameCharFrom(line, 0, isWord).Some?
    requires HasWord(Text.LastWord(line), words)
    requires forall j :: 0 <= j < |below| ==>
               NameCharFrom(below[j], 0, isWord).Some? &&
               NameCharFrom(below[j], 0, isWord).value / 4 > NameCharFrom(line, 0, isWord).value / 4
    ensures forall j :: 0 <= j < |below| + 1 ==> !Run(s, [line] + below, words, isWord).1[j]
  {
    var after := Scan(true, NameCharFrom(line, 0, isWord).value / 4);
    MatchedFolderStep(s, line, words, isWord);
    RunAfterFirst(s, line, below, words, isWord);
    DeeperLinesDropped(after, below, words, isWord);
    NoneKept(false, Run(after, below, words, isWord).1);
  }

  /** A folder whose name contains a listed word is dropped and starts ignoring at its level. */
  lemma MatchedFolderStep(s: Scan, line: string, words: seq<string>, isWord: char -> bool)
    requires !s.ignore && Text.Contains(line, "---") && NameCharFrom(line, 0, isWord).Some?
    requires HasWord(Text.LastWord(line), words)
    ensures Step(s, line, words, isWord) == (Scan(true, NameCharFrom(line, 0, isWord).value / 4), false)
  {
  }

  lemma NoneKept(keep: bool, rest: seq<bool>)
    requires !keep && forall j :: 0 <= j < |rest| ==> !rest[j]
    ensures forall j :: 0 <= j < |rest| + 1 ==> !([keep] + rest)[j]
  {
  }

  /** Running over a first line and then a block is one step and then the run over the block. */
  lemma RunAfterFirst(s: Scan, line: string, below: seq<string>, words: seq<string>, isWord: char -> bool)
    ensures Run(s, [line] + below, words, isWord).1 ==
      [Step(s, line, words, isWord).1] + Run(Step(s, line, words, isWord).0, below, words, isWord).1
  {
    RunStep(s, [], line, words, isWord);
    assert [] + [line] == [line];
    RunSplits(s, [line], below, words, isWord);
  }
}
