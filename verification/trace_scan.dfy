/**
 * Line scanning for include traces (`g++ -H` and `cl /showIncludes` output).
 *
 * The trace is one string; a reading position is an index into it. A line is
 * scanned in three steps, as the parser in contrib/cpp_dep/cpp_dep.cpp does:
 * the characters matching the format's line prefix are skipped, the run of
 * depth-mark characters that follows is counted (the line's depth), and the
 * rest of the line up to '\n' is read by `getline`.
 *
 * The functions here describe the scan of one line from its start; the
 * methods are the loops of the source, proved against those functions.
 */
module TraceScan {


  /** Index of the first '\n' at or after `cur`, or |text| when there is none. */
  function NewlineFrom(text: string, cur: nat): (e: nat)
    requires cur <= |text|
    ensures cur <= e <= |text|
    ensures e < |text| ==> text[e] == '\n'
    decreases |text| - cur
  {
    if cur == |text| || text[cur] == '\n' then cur else NewlineFrom(text, cur + 1)
  }

  /** No '\n' comes before the one `NewlineFrom` finds. */
  lemma {:induction false} NewlineFromFirst(text: string, cur: nat)
    requires cur <= |text|
    ensures forall i :: cur <= i < NewlineFrom(text, cur) ==> text[i] != '\n'
    decreases |text| - cur
  {
    if cur < |text| && text[cur] != '\n' {
      NewlineFromFirst(text, cur + 1);
    }
  }

  /**
   * Where `getline` leaves the reading position: past the line's '\n', and
   * past one '\r' when that immediately follows the '\n'.
   */
  function LineAfter(text: string, cur: nat): (next: nat)
    requires cur <= |text|
    ensures NewlineFrom(text, cur) <= next <= |text|
    ensures cur < |text| ==> cur < next
    ensures next == NewlineFrom(text, cur) <==> NewlineFrom(text, cur) == |text|
    ensures next - NewlineFrom(text, cur) <= 2
    ensures next == NewlineFrom(text, cur) + 2 ==> text[next - 1] == '\r'
  {
    var e := NewlineFrom(text, cur);
    var n := if e < |text| then e + 1 else e;
    if n < |text| && text[n] == '\r' then n + 1 else n
  }

  /**
   * `getline`: copies the characters before the first '\n' into `line`, then
   * steps over that '\n' and over at most one '\r' right after it. A '\r'
   * before the '\n' stays in the line.
   */
  method GetLine(text: string, cur: nat) returns (next: nat, line: string)
    requires cur <= |text|
    ensures line == text[cur..NewlineFrom(text, cur)]
    ensures '\n' !in line
    ensures next == LineAfter(text, cur)
  {
    NewlineFromFirst(text, cur);
    line := [];
    next := cur;
    while next < |text| && text[next] != '\n'
      invariant cur <= next <= NewlineFrom(text, cur)
      invariant line == text[cur..next]
    {
      line := line + [text[next]];
      next := next + 1;
    }
    if next < |text| && text[next] == '\n' {
      next := next + 1;
    }
    if next < |text| && text[next] == '\r' {
      next := next + 1;
    }
  }

  /** Where prefix matching that has matched `i` characters of `prefix` at `pos` stops. */
  function PrefixEndFrom(text: string, pos: nat, prefix: string, i: nat): (q: nat)
    requires pos + i <= |text| && i <= |prefix|
    ensures pos + i <= q <= |text| && q - pos <= |prefix|
    decreases |prefix| - i
  {
    if i < |prefix| && pos + i < |text| && text[pos + i] == prefix[i] then
      PrefixEndFrom(text, pos, prefix, i + 1)
    else
      pos + i
  }

  /**
   * Where the line prefix ends: the longest stretch from `pos` that agrees
   * with the start of `prefix`. A partial match is not an error.
   */
  function PrefixEnd(text: string, pos: nat, prefix: string): (q: nat)
    requires pos <= |text|
    ensures pos <= q <= |text| && q - pos <= |prefix|
  {
    PrefixEndFrom(text, pos, prefix, 0)
  }

  /** Matching from `i` on keeps agreeing with the prefix and stops only at a mismatch or an end. */
  lemma {:induction false} PrefixEndFromMatches(text: string, pos: nat, prefix: string, i: nat)
    requires pos + i <= |text| && i <= |prefix|
    requires forall j :: pos <= j < pos + i ==> text[j] == prefix[j - pos]
    ensures var q := PrefixEndFrom(text, pos, prefix, i);
      (forall j :: pos <= j < q ==> text[j] == prefix[j - pos]) &&
      (q - pos < |prefix| && q < |text| ==> text[q] != prefix[q - pos])
    decreases |prefix| - i
  {
    if i < |prefix| && pos + i < |text| && text[pos + i] == prefix[i] {
      PrefixEndFromMatches(text, pos, prefix, i + 1);
    }
  }

  /** The skipped stretch agrees with the prefix, and it ends at the prefix's end, the text's end or a mismatch. */
  lemma PrefixEndMatches(text: string, pos: nat, prefix: string)
    requires pos <= |text|
    ensures var q := PrefixEnd(text, pos, prefix);
      (forall j :: pos <= j < q ==> text[j] == prefix[j - pos]) &&
      (q - pos < |prefix| && q < |text| ==> text[q] != prefix[q - pos])
  {
    PrefixEndFromMatches(text, pos, prefix, 0);
  }

  /** The loop that steps over the line prefix, one matching character at a time. */
  method SkipPrefix(text: string, pos: nat, prefix: string) returns (q: nat)
    requires pos <= |text|
    ensures q == PrefixEnd(text, pos, prefix)
  {
    q := pos;
    var i := 0;
    while q < |text| && i < |prefix| && text[q] == prefix[i]
      invariant q == pos + i && q <= |text| && i <= |prefix|
      invariant PrefixEndFrom(text, pos, prefix, i) == PrefixEnd(text, pos, prefix)
    {
      q := q + 1;
      i := i + 1;
    }
  }

  /** End of the run of `mark` characters that starts at `q`. */
  function MarkEnd(text: string, q: nat, mark: char): (r: nat)
    requires q <= |text|
    ensures q <= r <= |text|
    ensures r < |text| ==> text[r] != mark
    decreases |text| - q
  {
    if q < |text| && text[q] == mark then MarkEnd(text, q + 1, mark) else q
  }

  /** Every character the run covers is a depth mark. */
  lemma {:induction false} MarkEndRun(text: string, q: nat, mark: char)
    requires q <= |text|
    ensures forall i :: q <= i < MarkEnd(text, q, mark) ==> text[i] == mark
    decreases |text| - q
  {
    if q < |text| && text[q] == mark {
      MarkEndRun(text, q + 1, mark);
    }
  }

  /** The loop that counts the depth marks; returns where the run ends and its length. */
  method CountDepthMarks(text: string, q: nat, mark: char) returns (r: nat, lineDepth: nat)
    requires q <= |text|
    ensures r == MarkEnd(text, q, mark)
    ensures lineDepth == r - q
  {
    r := q;
    lineDepth := 0;
    while r < |text| && text[r] == mark
      invariant q <= r <= |text|
      invariant lineDepth == r - q
      invariant MarkEnd(text, r, mark) == MarkEnd(text, q, mark)
    {
      lineDepth := lineDepth + 1;
      r := r + 1;
    }
  }

  /** `std::replace(file.begin(), file.end(), '\\', '/')`. */
  function ReplaceBackslashes(s: string): (r: string)
    ensures |r| == |s|
    ensures '\\' !in r
  {
    seq(|s|, i requires 0 <= i < |s| => if s[i] == '\\' then '/' else s[i])
  }

  /** Each backslash becomes a slash and every other character stays. */
  lemma ReplaceBackslashesAt(s: string, i: nat)
    requires i < |s|
    ensures ReplaceBackslashes(s)[i] == if s[i] == '\\' then '/' else s[i]
  {
  }

  // ---------------------------------------------------------------------------
  // One line, scanned from its start `pos`.

  /** Number of depth marks after the line prefix: 0 for a line that is not part of the tree. */
  function LineDepth(text: string, prefix: string, mark: char, pos: nat): nat
    requires pos <= |text|
  {
    var q := PrefixEnd(text, pos, prefix);
    MarkEnd(text, q, mark) - q
  }

  /** Where a structural line's path starts: after the marks and one optional space. */
  function PathStart(text: string, prefix: string, mark: char, pos: nat): (ps: nat)
    requires pos <= |text|
    ensures PrefixEnd(text, pos, prefix) + LineDepth(text, prefix, mark, pos) <= ps <= |text|
  {
    var r := MarkEnd(text, PrefixEnd(text, pos, prefix), mark);
    if r < |text| && text[r] == ' ' then r + 1 else r
  }

  /** The path of a structural line, with every backslash turned into '/'. */
  function LinePath(text: string, prefix: string, mark: char, pos: nat): string
    requires pos <= |text|
  {
    var ps := PathStart(text, prefix, mark, pos);
    ReplaceBackslashes(text[ps..NewlineFrom(text, ps)])
  }

  /** Start of the line after the one starting at `pos`, once that one has been consumed. */
  function NextLine(text: string, prefix: string, mark: char, pos: nat): (next: nat)
    requires pos <= |text|
    ensures next <= |text|
    ensures pos < |text| ==> pos < next
  {
    if LineDepth(text, prefix, mark, pos) == 0 then
      LineAfter(text, PrefixEnd(text, pos, prefix))
    else
      LineAfter(text, PathStart(text, prefix, mark, pos))
  }

  /** A line with depth marks: its path is what `getline` reads after the marks and an optional space. */
  lemma FileLineScan(text: string, prefix: string, mark: char, pos: nat, ps: nat)
    requires pos < |text| && LineDepth(text, prefix, mark, pos) > 0
    requires ps == (var r := MarkEnd(text, PrefixEnd(text, pos, prefix), mark); if r < |text| && text[r] == ' ' then r + 1 else r)
    ensures ps == PathStart(text, prefix, mark, pos)
    ensures NextLine(text, prefix, mark, pos) == LineAfter(text, ps)
    ensures LinePath(text, prefix, mark, pos) == ReplaceBackslashes(text[ps..NewlineFrom(text, ps)])
  {
  }

  /** A line without depth marks: `getline` skips the rest of it from where the marks would end. */
  lemma NoiseLineScan(text: string, prefix: string, mark: char, pos: nat)
    requires pos < |text| && LineDepth(text, prefix, mark, pos) == 0
    ensures NextLine(text, prefix, mark, pos) == LineAfter(text, MarkEnd(text, PrefixEnd(text, pos, prefix), mark))
  {
  }

  // ---------------------------------------------------------------------------
  // The trace as a list of lines.

  /** One line of a trace as the parser sees it: where it starts and ends, its depth and its path. */
  datatype Line = Line(start: nat, depth: nat, path: string, next: nat)

  /** The line that starts at `pos`. */
  function ScanLine(text: string, prefix: string, mark: char, pos: nat): (l: Line)
    requires pos < |text|
    ensures l.start == pos < l.next <= |text|
    ensures '\\' !in l.path
  {
    Line(pos, LineDepth(text, prefix, mark, pos), LinePath(text, prefix, mark, pos), NextLine(text, prefix, mark, pos))
  }

  /** The lines of the trace from `pos` to its end, in order, each starting where the one before ends. */
  function Lines(text: string, prefix: string, mark: char, pos: nat): (ls: seq<Line>)
    requires pos <= |text|
    decreases |text| - pos
  {
    if pos == |text| then []
    else [ScanLine(text, prefix, mark, pos)] + Lines(text, prefix, mark, NextLine(text, prefix, mark, pos))
  }

  /** Where the `k`-th line of `ls` starts, or the end of the trace once every line is read. */
  function StartOf(text: string, ls: seq<Line>, k: nat): nat
    requires k <= |ls|
  {
    if k < |ls| then ls[k].start else |text|
  }

  /**
   * The lines from the start of the `k`-th line are the lines from `k` on;
   * the `k`-th line is the one scanned at its start.
   */
  lemma {:induction false} LinesSuffix(text: string, prefix: string, mark: char, pos: nat, k: nat)
    requires pos <= |text| && k <= |Lines(text, prefix, mark, pos)|
    ensures StartOf(text, Lines(text, prefix, mark, pos), k) <= |text|
    ensures Lines(text, prefix, mark, StartOf(text, Lines(text, prefix, mark, pos), k)) == Lines(text, prefix, mark, pos)[k..]
    decreases k
  {
    var ls := Lines(text, prefix, mark, pos);
    if k == 0 {
      assert ls[0..] == ls;
    } else {
      var rest := Lines(text, prefix, mark, NextLine(text, prefix, mark, pos));
      assert ls[1..] == rest;
      LinesSuffix(text, prefix, mark, NextLine(text, prefix, mark, pos), k - 1);
      assert ls[k..] == rest[k - 1..];
      if k < |ls| {
        assert ls[k] == rest[k - 1];
      }
    }
  }

  /** The `k`-th line is the one scanned at its start, and the next line starts where it ends. */
  lemma LineAt(text: string, prefix: string, mark: char, pos: nat, k: nat)
    requires pos <= |text| && k < |Lines(text, prefix, mark, pos)|
    ensures var ls := Lines(text, prefix, mark, pos);
      ls[k].start < |text| && ls[k] == ScanLine(text, prefix, mark, ls[k].start) &&
      StartOf(text, ls, k + 1) == ls[k].next
  {
    var ls := Lines(text, prefix, mark, pos);
    LinesSuffix(text, prefix, mark, pos, k);
    LinesSuffix(text, prefix, mark, pos, k + 1);
    assert ls[k..][0] == ls[k];
    if k + 1 < |ls| {
      assert ls[k + 1..][0] == ls[k + 1];
    }
  }

  /** Every line of the trace from `pos` starts at or after `pos` and before the end. */
  lemma {:induction false} LinesBounded(text: string, prefix: string, mark: char, pos: nat)
    requires pos <= |text|
    ensures forall i :: 0 <= i < |Lines(text, prefix, mark, pos)| ==> pos <= Lines(text, prefix, mark, pos)[i].start < |text|
    decreases |text| - pos
  {
    if pos < |text| {
      LinesBounded(text, prefix, mark, NextLine(text, prefix, mark, pos));
    }
  }

  /**
   * Reads the head of the `k`-th line of the trace from `current`
   * (cpp_dep.cpp:69-76): skips the line prefix and counts the depth marks.
   * Returns where the marks end and the line's depth; on a line without
   * marks, `getline` from there reaches the start of the next line.
   */
  method ReadLineHead(text: string, prefix: string, mark: char, ghost current: nat, ghost k: nat, pos: nat)
    returns (afterMarks: nat, lineDepth: nat)
    requires current <= |text| && k < |Lines(text, prefix, mark, current)|
    requires pos == Lines(text, prefix, mark, current)[k].start && pos <= |text|
    ensures lineDepth == Lines(text, prefix, mark, current)[k].depth
    ensures afterMarks == MarkEnd(text, PrefixEnd(text, pos, prefix), mark)
    ensures lineDepth == 0 ==> LineAfter(text, afterMarks) == StartOf(text, Lines(text, prefix, mark, current), k + 1)
  {
    LineAt(text, prefix, mark, current, k);
    var q := SkipPrefix(text, pos, prefix);
    afterMarks, lineDepth := CountDepthMarks(text, q, mark);
    if lineDepth == 0 {
      NoiseLineScan(text, prefix, mark, pos);
    }
  }

  /**
   * Reads the path of the `k`-th line, one with depth marks
   * (cpp_dep.cpp:93-104): steps over one space after the marks, reads the
   * rest of the line with `getline` and turns its backslashes into slashes.
   * Returns the start of the next line and the path.
   */
  method ReadLinePath(text: string, prefix: string, mark: char, ghost current: nat, ghost k: nat, afterMarks: nat)
    returns (next: nat, file: string)
    requires current <= |text| && k < |Lines(text, prefix, mark, current)|
    requires Lines(text, prefix, mark, current)[k].start <= |text| && Lines(text, prefix, mark, current)[k].depth > 0
    requires afterMarks == MarkEnd(text, PrefixEnd(text, Lines(text, prefix, mark, current)[k].start, prefix), mark)
    ensures file == Lines(text, prefix, mark, current)[k].path
    ensures next == StartOf(text, Lines(text, prefix, mark, current), k + 1)
  {
    LineAt(text, prefix, mark, current, k);
    var cur := afterMarks;
    if cur < |text| && text[cur] == ' ' {
      cur := cur + 1;
    }
    FileLineScan(text, prefix, mark, Lines(text, prefix, mark, current)[k].start, cur);
    var line: string;
    next, line := GetLine(text, cur);
    file := ReplaceBackslashes(line);
  }

  /** The file name a line contributes: its path, unless it has no depth marks or its path is empty. */
  function LineFiles(l: Line): (names: seq<string>)
    ensures |names| <= 1
  {
    if l.depth > 0 && l.path != [] then [l.path] else []
  }

  /** The file names a run of lines contributes, in order. */
  function Files(ls: seq<Line>): seq<string>
  {
    if ls == [] then [] else Files(ls[..|ls| - 1]) + LineFiles(ls[|ls| - 1])
  }

  /** The names of adjacent runs of lines are concatenated. */
  lemma {:induction false} FilesAppend(a: seq<Line>, b: seq<Line>)
    ensures Files(a + b) == Files(a) + Files(b)
    decreases |b|
  {
    if b == [] {
      assert a + b == a;
    } else {
      assert (a + b)[..|a + b| - 1] == a + b[..|b| - 1];
      FilesAppend(a, b[..|b| - 1]);
    }
  }

  /** No name a run of lines contributes holds a backslash when none of its paths does. */
  lemma {:induction false} FilesClean(ls: seq<Line>)
    requires forall i :: 0 <= i < |ls| ==> '\\' !in ls[i].path
    ensures forall n :: n in Files(ls) ==> '\\' !in n
    decreases |ls|
  {
    if ls != [] {
      FilesClean(ls[..|ls| - 1]);
    }
  }

  /** No line of a trace has a backslash in its path. */
  lemma {:induction false} LinesClean(text: string, prefix: string, mark: char, pos: nat)
    requires pos <= |text|
    ensures forall i :: 0 <= i < |Lines(text, prefix, mark, pos)| ==> '\\' !in Lines(text, prefix, mark, pos)[i].path
    decreases |text| - pos
  {
    if pos < |text| {
      LinesClean(text, prefix, mark, NextLine(text, prefix, mark, pos));
    }
  }

  // ---------------------------------------------------------------------------
  // Traces that nest the way a compiler prints them.

  /**
   * Every line with depth marks is at most one level deeper than the line
   * with marks before it (the first one at most `depth` + 1) and names a
   * file. Lines without marks may appear anywhere.
   */
  ghost predicate WellNested(ls: seq<Line>, depth: nat)
    decreases |ls|
  {
    ls == [] ||
    if ls[0].depth == 0 then WellNested(ls[1..], depth)
    else ls[0].depth <= depth + 1 && ls[0].path != [] && WellNested(ls[1..], ls[0].depth)
  }

  /** Allowing a deeper starting level keeps a trace well nested. */
  lemma {:induction false} WellNestedWeaken(ls: seq<Line>, a: nat, b: nat)
    requires a <= b && WellNested(ls, a)
    ensures WellNested(ls, b)
    decreases |ls|
  {
    if ls != [] && ls[0].depth == 0 {
      WellNestedWeaken(ls[1..], a, b);
    }
  }

  /** A well-nested run that starts at its end or on a line at most `depth` + 1 deep is well nested from `depth`. */
  lemma WellNestedStop(ls: seq<Line>, depth: nat)
    requires WellNested(ls, depth + 1)
    requires ls == [] || 1 <= ls[0].depth <= depth + 1
    ensures WellNested(ls, depth)
  {
  }
}
