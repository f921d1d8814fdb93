/** Extracting an objective and acceptance criteria from Markdown: headings, named sections and list items. */
module SpecParser {
  import opened Prelude
  import opened Text

  // ---------------------------------------------------------------- headings

  /** `[#>*\s-]` */
  predicate IsMark(c: char) {
    c == '#' || c == '>' || c == '*' || c == '-' || IsSpace(c)
  }

  /** `re.sub(r"^[#>*\s-]+", "", line)` */
  function DropMarks(s: string): string {
    if s != "" && IsMark(s[0]) then DropMarks(s[1..]) else s
  }

  function DropColon(s: string): string {
    if s != "" && s[|s| - 1] == ':' then s[..|s| - 1] else s
  }

  /** `_normalize_heading`. */
  function NormalizeHeading(line: string): string {
    Lower(DropColon(Strip(DropMarks(line))))
  }

  const OBJECTIVE_NAMES := {"objective", "goal", "summary", "task"}
  const CRITERIA_NAMES := {"acceptance criteria", "done when", "requirements", "checklist"}
  const OTHER_NAMES := {"notes", "context"}

  predicate Names(line: string, names: set<string>) {
    NormalizeHeading(line) in names
  }

  /** `_is_heading`. */
  predicate IsHeading(line: string) {
    var stripped := Strip(line);
    && stripped != ""
    && (stripped[0] == '#' || NormalizeHeading(stripped) in OBJECTIVE_NAMES + CRITERIA_NAMES + OTHER_NAMES)
  }

  /** `not line.strip()` */
  predicate BlankLine(line: string) {
    Strip(line) == ""
  }

  lemma BlankLineIsBlank(line: string)
    ensures BlankLine(line) <==> Blank(line)
  {
    var i, j := StripIsSlice(line);
    InkStrip(line);
    InkEmpty(line);
    InkEmpty(Strip(line));
  }

  lemma {:induction false} BlankHeading(line: string)
    requires Blank(line)
    ensures NormalizeHeading(line) == ""
  {
    DropMarksBlank(line);
  }

  lemma {:induction false} DropMarksBlank(line: string)
    requires Blank(line)
    ensures DropMarks(line) == ""
  {
    if line != "" { DropMarksBlank(line[1..]); }
  }

  // ---------------------------------------------------------------- named sections

  /** The lines of a section: blank lines first are skipped, the first other line is always taken,
      and the rest up to the next heading. */
  function Block(lines: seq<string>): seq<string> {
    if lines == [] then []
    else if BlankLine(lines[0]) then Block(lines[1..])
    else [lines[0]] + UntilHeading(lines[1..])
  }

  function Until(lines: seq<string>, stop: string -> bool): seq<string> {
    if lines == [] || stop(lines[0]) then [] else [lines[0]] + Until(lines[1..], stop)
  }

  function UntilHeading(lines: seq<string>): seq<string> {
    Until(lines, IsHeading)
  }

  function SectionText(block: seq<string>): string {
    NormalizeText(Join(block))
  }

  /** `_extract_named_section` on the lines of the body: every matching heading is tried until one has text. */
  function NamedSection(lines: seq<string>, names: set<string>): Option<string> {
    if lines == [] then None
    else
      var text := SectionText(Block(lines[1..]));
      if Names(lines[0], names) && text != "" then Some(text) else NamedSection(lines[1..], names)
  }

  /** What the block built from the lines before `k` still lacks. */
  function Collected(lines: seq<string>, k: nat, block: seq<string>): seq<string>
    requires k <= |lines|
  {
    if block == [] then Block(lines[k..]) else block + UntilHeading(lines[k..])
  }

  lemma TailStep(lines: seq<string>, k: nat)
    requires k < |lines|
    ensures lines[k..] != [] && lines[k..][0] == lines[k] && lines[k..][1..] == lines[k + 1..]
  {
  }

  lemma BlockStep(tail: seq<string>)
    requires tail != []
    ensures Block(tail) == if BlankLine(tail[0]) then Block(tail[1..]) else [tail[0]] + UntilHeading(tail[1..])
  {
  }

  lemma UntilStep(tail: seq<string>, stop: string -> bool)
    requires tail != []
    ensures Until(tail, stop) == if stop(tail[0]) then [] else [tail[0]] + Until(tail[1..], stop)
  {
  }

  /** One round of the loop. */
  lemma CollectStep(lines: seq<string>, k: nat, block: seq<string>)
    requires k < |lines|
    ensures var l := lines[k];
            Collected(lines, k, block) ==
              if block != [] && IsHeading(l) then block
              else if block == [] && BlankLine(l) then Collected(lines, k + 1, [])
              else Collected(lines, k + 1, block + [l])
  {
    TailStep(lines, k);
    BlockStep(lines[k..]);
    UntilStep(lines[k..], IsHeading);
    Regroup(block, [lines[k]], UntilHeading(lines[k + 1..]));
  }

  method CollectBlock(lines: seq<string>) returns (block: seq<string>)
    ensures block == Block(lines)
  {
    block := [];
    for k := 0 to |lines|
      invariant Block(lines) == Collected(lines, k, block)
    {
      CollectStep(lines, k, block);
      if block != [] && IsHeading(lines[k]) {
        return;
      }
      if block == [] && BlankLine(lines[k]) {
        continue;
      }
      block := block + [lines[k]];
    }
  }

  /** `_extract_named_section`. */
  method ExtractNamedSection(body: string, names: set<string>) returns (section: Option<string>)
    ensures section == NamedSection(SplitLines(body), names)
  {
    var lines := SplitLines(body);
    for k := 0 to |lines|
      invariant NamedSection(lines, names) == NamedSection(lines[k..], names)
    {
      assert lines[k..][1..] == lines[k + 1..];
      if Names(lines[k], names) {
        var block := CollectBlock(lines[k + 1..]);
        var text := NormalizeText(Join(block));
        if text != "" {
          return Some(text);
        }
      }
    }
    section := None;
  }

  /** The first line that names a wanted section, or the number of lines. */
  function FirstNamed(lines: seq<string>, names: set<string>): nat {
    if lines == [] || Names(lines[0], names) then 0 else 1 + FirstNamed(lines[1..], names)
  }

  lemma {:induction false} BlockEmpty(lines: seq<string>)
    ensures Block(lines) == [] <==> forall k :: 0 <= k < |lines| ==> BlankLine(lines[k])
  {
    if lines != [] {
      BlockEmpty(lines[1..]);
      assert forall k :: 0 < k < |lines| ==> lines[k] == lines[1..][k - 1];
    }
  }

  lemma {:induction false} BlockStartsInk(lines: seq<string>)
    requires Block(lines) != []
    ensures !BlankLine(Block(lines)[0])
  {
    if BlankLine(lines[0]) { BlockStartsInk(lines[1..]); }
  }

  lemma JoinNonBlank(block: seq<string>)
    requires block != [] && !BlankLine(block[0])
    ensures SectionText(block) != ""
  {
    NormalizeEmpty(Join(block));
    BlankLineIsBlank(block[0]);
    var i :| 0 <= i < |block[0]| && !IsSpace(block[0][i]);
    assert Join(block)[i] == block[0][i];
  }

  lemma {:induction false} NoNameNoSection(lines: seq<string>, names: set<string>)
    requires forall k :: 0 <= k < |lines| ==> !Names(lines[k], names)
    ensures NamedSection(lines, names) == None
  {
    if lines != [] {
      assert forall k :: 0 <= k < |lines[1..]| ==> lines[1..][k] == lines[k + 1];
      NoNameNoSection(lines[1..], names);
    }
  }

  lemma SectionOfFirst(lines: seq<string>, names: set<string>)
    requires lines != [] && Names(lines[0], names) && "" !in names
    ensures NamedSection(lines, names) == if Block(lines[1..]) == [] then None else Some(SectionText(Block(lines[1..])))
  {
    var rest := lines[1..];
    if Block(rest) == [] {
      BlankLinesNameNothing(rest, names);
      NoNameNoSection(rest, names);
    } else {
      BlockStartsInk(rest);
      JoinNonBlank(Block(rest));
    }
  }

  lemma BlankLinesNameNothing(lines: seq<string>, names: set<string>)
    requires Block(lines) == [] && "" !in names
    ensures forall k :: 0 <= k < |lines| ==> !Names(lines[k], names)
  {
    BlockEmpty(lines);
    forall k | 0 <= k < |lines| ensures !Names(lines[k], names) {
      BlankLineIsBlank(lines[k]);
      BlankHeading(lines[k]);
    }
  }

  function SectionUnder(lines: seq<string>, i: nat): Option<string> {
    if i >= |lines| || Block(lines[i + 1..]) == [] then None else Some(SectionText(Block(lines[i + 1..])))
  }

  /** The section is always the one under the first matching heading: its block's text if the block has
      any line, and `None` otherwise, since then only blank lines follow and none of them matches. */
  lemma {:induction false} FirstHeadingAnswers(lines: seq<string>, names: set<string>)
    requires "" !in names
    ensures FirstNamed(lines, names) <= |lines|
    ensures NamedSection(lines, names) == SectionUnder(lines, FirstNamed(lines, names))
  {
    if lines != [] {
      if Names(lines[0], names) {
        SectionOfFirst(lines, names);
      } else {
        FirstHeadingAnswers(lines[1..], names);
        SectionUnderNext(lines, FirstNamed(lines[1..], names));
      }
    }
  }

  lemma SectionUnderNext(lines: seq<string>, i: nat)
    requires lines != []
    ensures SectionUnder(lines, i + 1) == SectionUnder(lines[1..], i)
  {
    if i < |lines[1..]| {
      assert lines[1..][i + 1..] == lines[i + 2..];
    }
  }

  // ---------------------------------------------------------------- what a section is

  predicate FirstInk(line: string, k: int) {
    0 <= k < |line| && !IsSpace(line[k]) && forall n :: 0 <= n < k ==> IsSpace(line[n])
  }

  /** A heading, read off the line: its first character with ink is a hash, or it is one of the ten names once
      marks, outer blanks, a colon and the case are taken away. */
  ghost predicate Heads(line: string) {
    exists k :: FirstInk(line, k) && (line[k] == '#' || OneOfTen(NormalizeHeading(line)))
  }

  predicate OneOfTen(name: string) {
    name in {
      "objective", "goal", "summary", "task", "acceptance criteria", "done when", "requirements", "checklist", "notes",
      "context"}
  }

  lemma TenNames(name: string)
    ensures OneOfTen(name) <==> name in OBJECTIVE_NAMES + CRITERIA_NAMES + OTHER_NAMES
  {
  }

  lemma HeadsAt(line: string, k: int)
    requires FirstInk(line, k)
    ensures Heads(line) <==> line[k] == '#' || OneOfTen(NormalizeHeading(line))
  {
    forall m | FirstInk(line, m) ensures m == k {
    }
  }

  lemma {:induction false} DropMarksPast(a: string, b: string)
    requires Blank(a)
    ensures DropMarks(a + b) == DropMarks(b)
  {
    if a == "" {
      assert a + b == b;
    } else {
      assert (a + b)[1..] == a[1..] + b;
      DropMarksPast(a[1..], b);
    }
  }

  /** A blank end does not change what is left of a line once its marks are dropped and it is stripped. */
  lemma {:induction false} DropMarksBefore(a: string, b: string)
    requires Blank(b)
    ensures Strip(DropMarks(a + b)) == Strip(DropMarks(a))
  {
    if a == "" {
      assert a + b == b;
      DropMarksBlank(b);
    } else if IsMark(a[0]) {
      assert (a + b)[1..] == a[1..] + b;
      DropMarksBefore(a[1..], b);
    } else {
      assert (a + b)[0] == a[0];
      StripRightBlank(a, b);
    }
  }

  lemma HeadingOfStripped(line: string)
    ensures NormalizeHeading(Strip(line)) == NormalizeHeading(line)
  {
    var i, j := StripIsSlice(line);
    var a, s, b := line[..i], line[i..j], line[j..];
    assert line == a + (s + b);
    DropMarksPast(a, s + b);
    DropMarksBefore(s, b);
  }

  lemma InkOfStripped(line: string) returns (k: nat)
    requires Strip(line) != ""
    ensures FirstInk(line, k) && line[k] == Strip(line)[0]
  {
    var i, j := StripIsSlice(line);
    k := i;
    assert forall n :: 0 <= n < i ==> line[n] == line[..i][n];
  }

  lemma HeadingExact(line: string)
    ensures IsHeading(line) <==> Heads(line)
  {
    if Strip(line) != "" {
      var k := InkOfStripped(line);
      HeadsAt(line, k);
      TenNames(NormalizeHeading(line));
      HeadingOfStripped(line);
    } else {
      BlankLineIsBlank(line);
      assert Blank(line);
    }
  }

  /** Lines `j` to `m` are the section that the first of the names heads: the heading is line `i`, blank lines
      follow it up to line `j`, and line `m` is the next heading or the end. */
  ghost predicate SectionSpan(lines: seq<string>, names: set<string>, i: nat, j: nat, m: nat) {
    && i < j < m <= |lines|
    && NormalizeHeading(lines[i]) in names && (forall k :: 0 <= k < i ==> NormalizeHeading(lines[k]) !in names)
    && InkFirstAt(lines, i + 1, j) && HeadsFirstAt(lines, j + 1, m)
  }

  /** From line `b` on, line `j` is the first with ink. */
  ghost predicate InkFirstAt(lines: seq<string>, b: int, j: int) {
    0 <= b <= j < |lines| && !Blank(lines[j]) && forall k :: b <= k < j ==> Blank(lines[k])
  }

  /** From line `b` on, line `m` is the first heading, or the end. */
  ghost predicate HeadsFirstAt(lines: seq<string>, b: int, m: int) {
    0 <= b <= m <= |lines| && (m < |lines| ==> Heads(lines[m])) && forall k :: b <= k < m ==> !Heads(lines[k])
  }

  /** No line that a name heads has a line with ink after it. */
  ghost predicate NoSection(lines: seq<string>, names: set<string>) {
    forall i, k :: 0 <= i < k < |lines| && NormalizeHeading(lines[i]) in names ==> Blank(lines[k])
  }

  lemma {:induction false} FirstNamedAt(lines: seq<string>, names: set<string>, i: nat)
    requires i < |lines| && Names(lines[i], names) && forall k :: 0 <= k < i ==> !Names(lines[k], names)
    ensures FirstNamed(lines, names) == i
  {
    if i > 0 { FirstNamedAt(lines[1..], names, i - 1); }
  }

  lemma {:induction false} FirstNamedIs(lines: seq<string>, names: set<string>)
    ensures FirstNamed(lines, names) <= |lines|
    ensures FirstNamed(lines, names) < |lines| ==> Names(lines[FirstNamed(lines, names)], names)
  {
    if lines != [] && !Names(lines[0], names) { FirstNamedIs(lines[1..], names); }
  }

  lemma {:induction false} NotNamedBefore(lines: seq<string>, names: set<string>, k: nat)
    requires k < FirstNamed(lines, names) && k < |lines|
    ensures !Names(lines[k], names)
  {
    if k > 0 { NotNamedBefore(lines[1..], names, k - 1); }
  }

  lemma FirstNamedFinds(lines: seq<string>, names: set<string>)
    ensures FirstNamed(lines, names) <= |lines|
    ensures forall k :: 0 <= k < FirstNamed(lines, names) ==> !Names(lines[k], names)
    ensures FirstNamed(lines, names) < |lines| ==> Names(lines[FirstNamed(lines, names)], names)
  {
    FirstNamedIs(lines, names);
    forall k | 0 <= k < FirstNamed(lines, names) ensures !Names(lines[k], names) {
      NotNamedBefore(lines, names, k);
    }
  }

  lemma {:induction false} UntilIs(lines: seq<string>, stop: string -> bool, b: nat, m: nat)
    requires b <= m <= |lines| && (forall k :: b <= k < m ==> !stop(lines[k])) && (m < |lines| ==> stop(lines[m]))
    ensures Until(lines[b..], stop) == lines[b..m]
    decreases m - b
  {
    if b < m {
      assert lines[b..][0] == lines[b] && lines[b..][1..] == lines[b + 1..];
      UntilIs(lines, stop, b + 1, m);
      assert lines[b..m] == [lines[b]] + lines[b + 1..m];
    } else if m < |lines| {
      assert lines[b..][0] == lines[m];
    }
  }

  /** From line `b` on: blank lines up to line `j`, which has ink, and no heading after it up to line `m`. */
  lemma {:induction false} BlockFrom(lines: seq<string>, b: nat, j: nat, m: nat)
    requires b <= j < m <= |lines| && (forall k :: b <= k < j ==> BlankLine(lines[k])) && !BlankLine(lines[j])
    requires Until(lines[j + 1..], IsHeading) == lines[j + 1..m]
    ensures Block(lines[b..]) == lines[j..m]
    decreases j - b
  {
    assert lines[b..][0] == lines[b] && lines[b..][1..] == lines[b + 1..];
    if b == j {
      assert lines[j..m] == [lines[j]] + lines[j + 1..m];
    } else {
      BlockFrom(lines, b + 1, j, m);
    }
  }

  lemma NoHeads(lines: seq<string>, b: nat, m: nat)
    requires m <= |lines| && forall k :: b <= k < m ==> !Heads(lines[k])
    ensures forall k :: b <= k < m ==> !IsHeading(lines[k])
  {
    forall k | b <= k < m ensures !IsHeading(lines[k]) {
      HeadingExact(lines[k]);
    }
  }

  lemma UntilHeads(lines: seq<string>, b: nat, m: nat)
    requires HeadsFirstAt(lines, b, m)
    ensures Until(lines[b..], IsHeading) == lines[b..m]
  {
    NoHeads(lines, b, m);
    if m < |lines| { HeadingExact(lines[m]); }
    UntilIs(lines, IsHeading, b, m);
  }

  lemma BlockOfSpan(lines: seq<string>, b: nat, j: nat, m: nat)
    requires InkFirstAt(lines, b, j) && HeadsFirstAt(lines, j + 1, m)
    ensures Block(lines[b..]) == lines[j..m]
  {
    UntilHeads(lines, j + 1, m);
    BlockOfInk(lines, b, j, m);
  }

  lemma BlockOfInk(lines: seq<string>, b: nat, j: nat, m: nat)
    requires InkFirstAt(lines, b, j) && j < m <= |lines|
    requires Until(lines[j + 1..], IsHeading) == lines[j + 1..m]
    ensures Block(lines[b..]) == lines[j..m]
  {
    BlanksTo(lines, b, j);
    BlockFrom(lines, b, j, m);
  }

  lemma BlanksTo(lines: seq<string>, b: nat, j: nat)
    requires InkFirstAt(lines, b, j)
    ensures (forall k :: b <= k < j ==> BlankLine(lines[k])) && !BlankLine(lines[j])
  {
    forall k | b <= k < j ensures BlankLine(lines[k]) {
      BlankLineIsBlank(lines[k]);
    }
    BlankLineIsBlank(lines[j]);
  }

  /** The section's text is that of its lines. */
  lemma SectionExact(lines: seq<string>, names: set<string>, i: nat, j: nat, m: nat)
    requires "" !in names && SectionSpan(lines, names, i, j, m)
    ensures NamedSection(lines, names) == Some(NormalizeText(Join(lines[j..m])))
  {
    FirstNamedAt(lines, names, i);
    FirstHeadingAnswers(lines, names);
    BlockOfSpan(lines, i + 1, j, m);
  }

  /** There is a section unless only blanks follow every line that a name heads. */
  lemma SectionExists(lines: seq<string>, names: set<string>)
    requires "" !in names
    ensures NamedSection(lines, names).None? <==> NoSection(lines, names)
  {
    FirstHeadingAnswers(lines, names);
    FirstNamedFinds(lines, names);
    var i := FirstNamed(lines, names);
    if i < |lines| {
      var rest := lines[i + 1..];
      BlockEmpty(rest);
      forall k | i < k < |lines| ensures BlankLine(rest[k - i - 1]) <==> Blank(lines[k]) {
        BlankLineIsBlank(lines[k]);
      }
    }
  }

  lemma FirstFrom(lines: seq<string>, b: nat, p: string -> bool) returns (m: nat)
    requires b <= |lines|
    ensures b <= m <= |lines| && (forall k :: b <= k < m ==> !p(lines[k])) && (m < |lines| ==> p(lines[m]))
  {
    m := b;
    while m < |lines| && !p(lines[m])
      invariant b <= m <= |lines| && forall k :: b <= k < m ==> !p(lines[k])
    {
      m := m + 1;
    }
  }

  /** Then its lines form a span. */
  lemma SpanExists(lines: seq<string>, names: set<string>) returns (i: nat, j: nat, m: nat)
    requires !NoSection(lines, names)
    ensures SectionSpan(lines, names, i, j, m)
  {
    i := FirstFrom(lines, 0, line => NormalizeHeading(line) in names);
    j := FirstFrom(lines, i + 1, line => !Blank(line));
    m := FirstFrom(lines, j + 1, Heads);
  }

  function BlankCount(lines: seq<string>): nat {
    if lines == [] || !BlankLine(lines[0]) then 0 else 1 + BlankCount(lines[1..])
  }

  lemma {:induction false} BlankBefore(lines: seq<string>, k: nat)
    requires k < BlankCount(lines)
    ensures k < |lines| && BlankLine(lines[k])
  {
    if k > 0 { BlankBefore(lines[1..], k - 1); }
  }

  lemma {:induction false} BlockStart(lines: seq<string>)
    ensures BlankCount(lines) <= |lines|
    ensures Block(lines) == if BlankCount(lines) == |lines| then []
                            else [lines[BlankCount(lines)]] + UntilHeading(lines[BlankCount(lines) + 1..])
    ensures BlankCount(lines) < |lines| ==> !BlankLine(lines[BlankCount(lines)])
  {
    if lines != [] && BlankLine(lines[0]) {
      var rest := lines[1..];
      BlockStart(rest);
      if BlankCount(rest) < |rest| {
        assert rest[BlankCount(rest) + 1..] == lines[BlankCount(lines) + 1..];
      }
    }
  }

  /** The first line with ink, where a block starts. */
  lemma LeadingBlanks(lines: seq<string>) returns (i: nat)
    ensures i <= |lines| && forall k :: 0 <= k < i ==> BlankLine(lines[k])
    ensures i < |lines| ==> !BlankLine(lines[i]) && Block(lines) == [lines[i]] + UntilHeading(lines[i + 1..])
    ensures i == |lines| ==> Block(lines) == []
  {
    BlockStart(lines);
    BlanksBefore(lines);
    i := BlankCount(lines);
  }

  lemma BlanksBefore(lines: seq<string>)
    requires BlankCount(lines) <= |lines|
    ensures forall k :: 0 <= k < BlankCount(lines) ==> BlankLine(lines[k])
  {
    forall k | 0 <= k < BlankCount(lines) ensures BlankLine(lines[k]) {
      BlankBefore(lines, k);
    }
  }

  lemma {:induction false} NoStopBefore(lines: seq<string>, stop: string -> bool, k: nat)
    requires k < |Until(lines, stop)|
    ensures k < |lines| && !stop(lines[k])
  {
    if k > 0 { NoStopBefore(lines[1..], stop, k - 1); }
  }

  lemma NoHeadingBefore(lines: seq<string>, k: nat)
    requires k < |UntilHeading(lines)|
    ensures k < |lines| && !IsHeading(lines[k])
  {
    NoStopBefore(lines, IsHeading, k);
  }

  lemma UntilPrefix(lines: seq<string>)
    ensures |UntilHeading(lines)| <= |lines| && UntilHeading(lines) == lines[..|UntilHeading(lines)|]
    ensures |UntilHeading(lines)| < |lines| ==> IsHeading(lines[|UntilHeading(lines)|])
  {
    UntilIsPrefix(lines, IsHeading);
  }

  lemma {:induction false} UntilIsPrefix(lines: seq<string>, stop: string -> bool)
    ensures |Until(lines, stop)| <= |lines| && Until(lines, stop) == lines[..|Until(lines, stop)|]
    ensures |Until(lines, stop)| < |lines| ==> stop(lines[|Until(lines, stop)|])
  {
    if lines != [] && !stop(lines[0]) {
      var rest := lines[1..];
      UntilIsPrefix(rest, stop);
      var m := |Until(rest, stop)|;
      assert lines[..m + 1] == [lines[0]] + rest[..m];
      assert m < |rest| ==> lines[m + 1] == rest[m];
    }
  }

  lemma UntilHeadingIsPrefix(lines: seq<string>) returns (j: nat)
    ensures j <= |lines| && UntilHeading(lines) == lines[..j]
    ensures forall k :: 0 <= k < j ==> !IsHeading(lines[k])
    ensures j < |lines| ==> IsHeading(lines[j])
  {
    UntilPrefix(lines);
    j := |UntilHeading(lines)|;
    forall k | 0 <= k < j ensures !IsHeading(lines[k]) {
      NoHeadingBefore(lines, k);
    }
  }

  lemma SliceFrom(lines: seq<string>, i: nat, m: nat)
    requires i < |lines| && m <= |lines[i + 1..]|
    ensures lines[i..i + 1 + m] == [lines[i]] + lines[i + 1..][..m]
    ensures m < |lines[i + 1..]| ==> lines[i + 1 + m] == lines[i + 1..][m]
  {
  }

  lemma UntilSlice(lines: seq<string>, i: nat, stop: string -> bool) returns (j: nat)
    requires i < |lines|
    ensures i < j <= |lines| && [lines[i]] + Until(lines[i + 1..], stop) == lines[i..j]
    ensures forall k :: i < k < j ==> !stop(lines[k])
    ensures j < |lines| ==> stop(lines[j])
  {
    var rest := lines[i + 1..];
    UntilIsPrefix(rest, stop);
    var m := |Until(rest, stop)|;
    j := i + 1 + m;
    SliceFrom(lines, i, m);
    forall k | i < k < j ensures !stop(lines[k]) {
      NoStopBefore(rest, stop, k - i - 1);
    }
  }

  /** A block is a slice of the lines: it starts at the first line with ink, ends before the first heading
      after that or at the end, and holds no heading after its first line. */
  lemma BlockIsSlice(lines: seq<string>) returns (i: nat, j: nat)
    ensures i <= j <= |lines| && Block(lines) == lines[i..j]
    ensures forall k :: 0 <= k < i ==> BlankLine(lines[k])
    ensures i < j ==> !BlankLine(lines[i])
    ensures forall k :: i < k < j ==> !IsHeading(lines[k])
    ensures i == j ==> i == |lines|
    ensures i < j < |lines| ==> IsHeading(lines[j])
  {
    i := LeadingBlanks(lines);
    j := i;
    if i < |lines| {
      j := UntilSlice(lines, i, IsHeading);
    }
  }

  // ---------------------------------------------------------------- list items

  datatype ListItem = ListItem(checked: bool, text: string)

  predicate IsBullet(c: char) {
    c == '-' || c == '*' || c == '+'
  }

  function DigitRun(s: string): nat {
    if s != "" && IsDigit(s[0]) then 1 + DigitRun(s[1..]) else 0
  }

  lemma {:induction false} DigitRunWithin(s: string)
    ensures DigitRun(s) <= |s|
  {
    if s != "" && IsDigit(s[0]) { DigitRunWithin(s[1..]); }
  }

  /** What follows `[-*+]` or `\d+\.` at the start, if one of them is there. */
  function AfterMarker(s: string): Option<string> {
    if s == "" then None
    else if IsBullet(s[0]) then Some(s[1..])
    else
      DigitRunWithin(s);
      var n := DigitRun(s);
      if 0 < n < |s| && s[n] == '.' then Some(s[n + 1..]) else None
  }

  /** `\[[ xX]\]` at the start, with something after it. */
  predicate Boxed(s: string) {
    |s| > 3 && s[0] == '[' && (s[1] == ' ' || s[1] == 'x' || s[1] == 'X') && s[2] == ']'
  }

  /** One line against the list-item pattern: the item as captured, stripped and with collapsed white space.
      The optional checkbox is taken whenever it leaves the item anything, blank or not;
      captures that strip to nothing are no item. */
  function ParseItem(line: string): Option<ListItem> {
    var after := AfterMarker(StripLeft(line));
    if after.None? || after.value == "" || !IsSpace(after.value[0]) then None
    else
      var rest := StripLeft(after.value);
      var item := if Boxed(rest) then rest[3..] else rest;
      var text := NormalizeLine(item);
      if text == "" then None else Some(ListItem(Boxed(rest), text))
  }

  /** The item of one line under the `require_checkbox` flag. */
  function ItemOf(line: string, requireCheckbox: bool): Option<string> {
    var it := ParseItem(line);
    if it.None? || (requireCheckbox && !it.value.checked) then None else Some(it.value.text)
  }

  function AddNew(items: seq<string>, it: Option<string>): seq<string> {
    if it.None? || it.value in items then items else items + [it.value]
  }

  /** `_extract_list_items` on lines: the items in order of first occurrence. */
  function Items(lines: seq<string>, requireCheckbox: bool): seq<string> {
    if lines == [] then []
    else AddNew(Items(lines[..|lines| - 1], requireCheckbox), ItemOf(lines[|lines| - 1], requireCheckbox))
  }

  lemma ItemsNext(lines: seq<string>, k: nat, requireCheckbox: bool)
    requires k < |lines|
    ensures Items(lines[..k + 1], requireCheckbox)
            == AddNew(Items(lines[..k], requireCheckbox), ItemOf(lines[k], requireCheckbox))
  {
    assert lines[..k + 1][..k] == lines[..k];
  }

  /** `_extract_list_items`. */
  method ExtractListItems(text: string, requireCheckbox: bool) returns (items: seq<string>)
    ensures items == Items(SplitLines(text), requireCheckbox)
  {
    items := [];
    var lines := SplitLines(text);
    for k := 0 to |lines|
      invariant items == Items(lines[..k], requireCheckbox)
    {
      ItemsNext(lines, k, requireCheckbox);
      var m := ParseItem(lines[k]);
      if m.None? {
        continue;
      }
      if requireCheckbox && !m.value.checked {
        continue;
      }
      if m.value.text !in items {
        items := items + [m.value.text];
      }
    }
    assert lines[..|lines|] == lines;
  }

  /** Extracted items are non-empty, canonical and distinct. */
  ghost predicate CleanItems(items: seq<string>) {
    Distinct(items) && forall i :: 0 <= i < |items| ==> items[i] != "" && Spaced(items[i])
  }

  lemma AddNewClean(items: seq<string>, it: Option<string>)
    requires CleanItems(items) && (it.Some? ==> it.value != "" && Spaced(it.value))
    ensures CleanItems(AddNew(items, it))
  {
  }

  lemma {:induction false} ItemsClean(lines: seq<string>, requireCheckbox: bool)
    ensures CleanItems(Items(lines, requireCheckbox))
  {
    if lines != [] {
      ItemsClean(lines[..|lines| - 1], requireCheckbox);
      ItemOfClean(lines[|lines| - 1], requireCheckbox);
      AddNewClean(Items(lines[..|lines| - 1], requireCheckbox), ItemOf(lines[|lines| - 1], requireCheckbox));
    }
  }

  lemma ItemOfClean(line: string, requireCheckbox: bool)
    ensures var it := ItemOf(line, requireCheckbox); it.Some? ==> it.value != "" && Spaced(it.value)
  {
    var after := AfterMarker(StripLeft(line));
    if ParseItem(line).Some? {
      var rest := StripLeft(after.value);
      NormalizeLineCanonical(if Boxed(rest) then rest[3..] else rest);
    }
  }

  predicate Carries(line: string, requireCheckbox: bool, item: string) {
    ItemOf(line, requireCheckbox) == Some(item)
  }

  lemma AddNewMember(items: seq<string>, it: Option<string>, item: string)
    ensures item in AddNew(items, it) <==> item in items || it == Some(item)
  {
  }

  ghost predicate Carried(lines: seq<string>, requireCheckbox: bool, item: string) {
    exists k :: 0 <= k < |lines| && Carries(lines[k], requireCheckbox, item)
  }

  lemma CarriedSnoc(lines: seq<string>, requireCheckbox: bool, item: string)
    requires lines != []
    ensures Carried(lines, requireCheckbox, item)
            <==> || Carried(lines[..|lines| - 1], requireCheckbox, item)
                 || Carries(lines[|lines| - 1], requireCheckbox, item)
  {
    var n := |lines| - 1;
    assert forall k :: 0 <= k < n ==> lines[..n][k] == lines[k];
  }

  /** An item is listed exactly when some line carries it. */
  lemma {:induction false} ItemsComplete(lines: seq<string>, requireCheckbox: bool, item: string)
    ensures item in Items(lines, requireCheckbox) <==> Carried(lines, requireCheckbox, item)
  {
    if lines != [] {
      var n := |lines| - 1;
      ItemsComplete(lines[..n], requireCheckbox, item);
      CarriedSnoc(lines, requireCheckbox, item);
      AddNewMember(Items(lines[..n], requireCheckbox), ItemOf(lines[n], requireCheckbox), item);
    }
  }

  // ---------------------------------------------------------------- the order of items

  /** `items` are the values among `its`, each once and in the order of first occurrence; `ps` are the places of
      these. */
  ghost predicate FirstOccurrences(its: seq<Option<string>>, items: seq<string>, ps: seq<nat>) {
    && |ps| == |items|
    && (forall n :: 0 <= n < |ps| ==> ps[n] < |its| && its[ps[n]] == Some(items[n]))
    && (forall n, m :: 0 <= n < m < |ps| ==> ps[n] < ps[m])
    && (forall k, n :: 0 <= n < |ps| && 0 <= k < ps[n] ==> its[k] != Some(items[n]))
    && (forall k :: 0 <= k < |its| && its[k].Some? ==> its[k].value in items)
  }

  function Gather(its: seq<Option<string>>): seq<string> {
    if its == [] then [] else AddNew(Gather(its[..|its| - 1]), its[|its| - 1])
  }

  lemma OccurrencesSnoc(its: seq<Option<string>>, it: Option<string>, items: seq<string>, ps: seq<nat>)
    requires FirstOccurrences(its, items, ps) && (it.None? || it.value in items)
    ensures FirstOccurrences(its + [it], items, ps)
  {
  }

  lemma OccurrencesGrow(its: seq<Option<string>>, item: string, items: seq<string>, ps: seq<nat>)
    requires FirstOccurrences(its, items, ps) && item !in items
    ensures FirstOccurrences(its + [Some(item)], items + [item], ps + [|its|])
  {
  }

  lemma {:induction false} GatherOrdered(its: seq<Option<string>>) returns (ps: seq<nat>)
    ensures FirstOccurrences(its, Gather(its), ps)
  {
    ps := [];
    if its != [] {
      var n := |its| - 1;
      var before, it := Gather(its[..n]), its[n];
      ps := GatherOrdered(its[..n]);
      assert its == its[..n] + [it];
      if it.None? || it.value in before {
        OccurrencesSnoc(its[..n], it, before, ps);
      } else {
        OccurrencesGrow(its[..n], it.value, before, ps);
        ps := ps + [n];
      }
    }
  }

  /** What each line gives. */
  function EachItem(lines: seq<string>, requireCheckbox: bool): (its: seq<Option<string>>)
    ensures |its| == |lines| && forall k :: 0 <= k < |lines| ==> its[k] == ItemOf(lines[k], requireCheckbox)
  {
    seq(|lines|, k requires 0 <= k < |lines| => ItemOf(lines[k], requireCheckbox))
  }

  lemma {:induction false} ItemsGather(lines: seq<string>, requireCheckbox: bool)
    ensures Items(lines, requireCheckbox) == Gather(EachItem(lines, requireCheckbox))
  {
    if lines != [] {
      var n := |lines| - 1;
      ItemsGather(lines[..n], requireCheckbox);
      assert EachItem(lines, requireCheckbox)[..n] == EachItem(lines[..n], requireCheckbox);
    }
  }

  /** Items are listed once each, in the order of their first occurrences. */
  lemma ItemsOrdered(lines: seq<string>, requireCheckbox: bool) returns (ps: seq<nat>)
    ensures FirstOccurrences(EachItem(lines, requireCheckbox), Items(lines, requireCheckbox), ps)
  {
    ItemsGather(lines, requireCheckbox);
    ps := GatherOrdered(EachItem(lines, requireCheckbox));
  }

  // ---------------------------------------------------------------- the objective

  /** `body.split("\n\n")`. */
  function SplitParagraphs(s: string): (ps: seq<string>)
    ensures ps != []
    decreases |s|
  {
    if s == "" then [""]
    else if |s| > 1 && s[0] == '\n' && s[1] == '\n' then [""] + SplitParagraphs(s[2..])
    else
      var ps := SplitParagraphs(s[1..]);
      [[s[0]] + ps[0]] + ps[1..]
  }

  /** A paragraph that can stand for an objective: some text, not a heading, and without list items. */
  predicate IsProse(cleaned: string) {
    cleaned != "" && cleaned[0] != '#' && Items(SplitLines(cleaned), false) == []
  }

  function FirstProse(ps: seq<string>): Option<string> {
    if ps == [] then None
    else if IsProse(NormalizeText(ps[0])) then Some(NormalizeText(ps[0]))
    else FirstProse(ps[1..])
  }

  /** `_first_paragraph`. */
  method FirstParagraph(body: string) returns (p: Option<string>)
    ensures p == FirstProse(SplitParagraphs(body))
  {
    if body == "" {
      assert SplitParagraphs("")[1..] == [];
      NormalizeEmpty("");
      return None;
    }
    var paragraphs := SplitParagraphs(body);
    for k := 0 to |paragraphs|
      invariant FirstProse(paragraphs) == FirstProse(paragraphs[k..])
    {
      assert paragraphs[k..][1..] == paragraphs[k + 1..];
      var cleaned := NormalizeText(paragraphs[k]);
      if cleaned == "" || cleaned[0] == '#' {
        continue;
      }
      var items := ExtractListItems(cleaned, false);
      if items != [] {
        continue;
      }
      return Some(cleaned);
    }
    p := None;
  }

  /** The objective, or `None` for the normalisation error: a named section, else
      the first paragraph of prose, else the title. */
  function ObjectiveOf(title: string, body: string): Option<string> {
    var section := NamedSection(SplitLines(body), OBJECTIVE_NAMES);
    if section.Some? then section
    else
      var p := FirstProse(SplitParagraphs(body));
      if p.Some? then p
      else if Strip(title) != "" then Some(Strip(title))
      else None
  }

  /** A paragraph with text that is not a heading and none of whose lines is a list item. */
  ghost predicate Prose(p: string) {
    var t := NormalizeText(p);
    && t != "" && t[0] != '#'
    && forall k :: 0 <= k < |SplitLines(t)| ==> ItemOf(SplitLines(t)[k], false).None?
  }

  ghost predicate FirstProseAt(ps: seq<string>, k: int) {
    0 <= k < |ps| && Prose(ps[k]) && forall n :: 0 <= n < k ==> !Prose(ps[n])
  }

  ghost predicate NoProse(ps: seq<string>) {
    forall n :: 0 <= n < |ps| ==> !Prose(ps[n])
  }

  lemma {:induction false} GatherNothing(its: seq<Option<string>>)
    ensures Gather(its) == [] <==> forall k :: 0 <= k < |its| ==> its[k].None?
  {
    if its != [] {
      var n := |its| - 1;
      GatherNothing(its[..n]);
      assert forall k :: 0 <= k < n ==> its[..n][k] == its[k];
    }
  }

  lemma NoItems(lines: seq<string>)
    ensures Items(lines, false) == [] <==> forall k :: 0 <= k < |lines| ==> ItemOf(lines[k], false).None?
  {
    var its := EachItem(lines, false);
    ItemsGather(lines, false);
    GatherNothing(its);
    assert forall k :: 0 <= k < |lines| ==> its[k] == ItemOf(lines[k], false);
  }

  lemma ProseIs(p: string)
    ensures Prose(p) <==> IsProse(NormalizeText(p))
  {
    NoItems(SplitLines(NormalizeText(p)));
  }

  lemma {:induction false} FirstProseExact(ps: seq<string>)
    ensures forall k :: FirstProseAt(ps, k) ==> FirstProse(ps) == Some(NormalizeText(ps[k]))
    ensures FirstProse(ps).None? <==> NoProse(ps)
  {
    if ps != [] {
      ProseIs(ps[0]);
      FirstProseExact(ps[1..]);
      assert forall n :: 0 < n < |ps| ==> ps[n] == ps[1..][n - 1];
      forall k | FirstProseAt(ps, k) && k > 0 ensures FirstProseAt(ps[1..], k - 1) {
        assert !Prose(ps[0]);
      }
    }
  }

  /** When the names head a section, `o` is the text of its lines. */
  ghost predicate SectionDecides(lines: seq<string>, names: set<string>, o: Option<string>) {
    forall i: nat, j: nat, m: nat :: SectionSpan(lines, names, i, j, m) ==> o == Some(NormalizeText(Join(lines[j..m])))
  }

  ghost predicate ProseDecides(ps: seq<string>, o: Option<string>) {
    forall k :: FirstProseAt(ps, k) ==> o == Some(NormalizeText(ps[k]))
  }

  /** Where an objective comes from: the lines of a section, else the first paragraph of prose, else the title. */
  ghost predicate ObjectiveFrom(title: string, body: string, o: Option<string>) {
    var lines, ps, names := SplitLines(body), SplitParagraphs(body), {"objective", "goal", "summary", "task"};
    && SectionDecides(lines, names, o)
    && (NoSection(lines, names) ==> ProseDecides(ps, o))
    && (NoSection(lines, names) && NoProse(ps) ==> o == if Blank(title) then None else Some(Strip(title)))
  }

  lemma NamedSectionDecides(lines: seq<string>, names: set<string>)
    requires "" !in names
    ensures SectionDecides(lines, names, NamedSection(lines, names))
  {
    forall i: nat, j: nat, m: nat | SectionSpan(lines, names, i, j, m)
      ensures NamedSection(lines, names) == Some(NormalizeText(Join(lines[j..m])))
    {
      SectionExact(lines, names, i, j, m);
    }
  }

  lemma NoSpan(lines: seq<string>, names: set<string>, o: Option<string>)
    requires NoSection(lines, names)
    ensures SectionDecides(lines, names, o)
  {
    forall i: nat, j: nat, m: nat ensures !SectionSpan(lines, names, i, j, m) {
    }
  }

  lemma ObjectiveSources(title: string, body: string)
    ensures ObjectiveFrom(title, body, ObjectiveOf(title, body))
  {
    var lines, names := SplitLines(body), {"objective", "goal", "summary", "task"};
    assert names == OBJECTIVE_NAMES;
    NamedSectionDecides(lines, names);
    SectionExists(lines, names);
    if NoSection(lines, names) {
      NoSpan(lines, names, ObjectiveOf(title, body));
      WithoutSection(title, body);
    }
  }

  lemma WithoutSection(title: string, body: string)
    requires NamedSection(SplitLines(body), OBJECTIVE_NAMES).None?
    ensures ProseDecides(SplitParagraphs(body), ObjectiveOf(title, body))
    ensures NoProse(SplitParagraphs(body)) ==>
              ObjectiveOf(title, body) == if Blank(title) then None else Some(Strip(title))
  {
    FirstProseExact(SplitParagraphs(body));
    BlankLineIsBlank(title);
  }

  /** `extract_objective`. */
  method ExtractObjective(title: string, body: string) returns (objective: Option<string>)
    ensures objective == ObjectiveOf(title, body)
    ensures objective.Some? ==> objective.value != "" && Trim(objective.value)
    ensures objective.None? ==> Blank(title)
    ensures ObjectiveFrom(title, body, objective)
  {
    var explicitObjective := ExtractNamedSection(body, OBJECTIVE_NAMES);
    ObjectiveTrimmed(title, body);
    ObjectiveSources(title, body);
    if explicitObjective.Some? {
      return explicitObjective;
    }
    var firstParagraph := FirstParagraph(body);
    if firstParagraph.Some? {
      return firstParagraph;
    }
    var titleText := Strip(title);
    if titleText == "" {
      BlankLineIsBlank(title);
      return None;
    }
    objective := Some(titleText);
  }

  lemma {:induction false} SectionTrimmed(lines: seq<string>, names: set<string>)
    ensures var t := NamedSection(lines, names); t.Some? ==> t.value != "" && Trim(t.value)
  {
    if lines != [] {
      NormalizeIsNormal(Join(Block(lines[1..])));
      SectionTrimmed(lines[1..], names);
    }
  }

  lemma {:induction false} ProseTrimmed(ps: seq<string>)
    ensures FirstProse(ps).Some? ==> FirstProse(ps).value != "" && Trim(FirstProse(ps).value)
  {
    if ps != [] {
      NormalizeIsNormal(ps[0]);
      ProseTrimmed(ps[1..]);
    }
  }

  lemma ObjectiveTrimmed(title: string, body: string)
    ensures var o := ObjectiveOf(title, body); o.Some? ==> o.value != "" && Trim(o.value)
  {
    SectionTrimmed(SplitLines(body), OBJECTIVE_NAMES);
    ProseTrimmed(SplitParagraphs(body));
    var i, j := StripIsSlice(title);
  }

  // ---------------------------------------------------------------- acceptance criteria

  predicate IsStop(c: char) {
    c == '.' || c == '!' || c == '?'
  }

  /** `re.split(r"(?<=[.!?])\s+", body)`. */
  function SplitSentences(s: string): (ss: seq<string>)
    ensures ss != []
    decreases |s|
  {
    if s == "" then [""]
    else if |s| > 1 && IsStop(s[0]) && IsSpace(s[1]) then
      StripLeftIsSuffix(s[1..]);
      [[s[0]]] + SplitSentences(StripLeft(s[1..]))
    else
      var ss := SplitSentences(s[1..]);
      [[s[0]] + ss[0]] + ss[1..]
  }

  /** `t in s`. */
  predicate Contains(s: string, t: string) {
    |t| <= |s| && (s[..|t|] == t || (s != "" && Contains(s[1..], t)))
  }

  const OBLIGATION_TOKENS := ["must ", "should ", "need to ", "needs to "]

  /** A stripped sentence that states an obligation. */
  predicate IsObligation(normalized: string) {
    normalized != "" && exists k :: 0 <= k < |OBLIGATION_TOKENS| && Contains(Lower(normalized), OBLIGATION_TOKENS[k])
  }

  function Obligations(ss: seq<string>): seq<string> {
    if ss == [] then []
    else
      var n := |ss| - 1;
      Obligations(ss[..n]) + if IsObligation(Strip(ss[n])) then [Strip(ss[n])] else []
  }

  const DEFAULT_CRITERION := "Deliver the requested outcome described in the objective."

  function Take(xs: seq<string>, n: nat): seq<string> {
    if n < |xs| then xs[..n] else xs
  }

  function SectionItems(body: string): seq<string> {
    var section := NamedSection(SplitLines(body), CRITERIA_NAMES);
    Items(SplitLines(if section.Some? then section.value else ""), false)
  }

  function CriteriaOf(body: string): seq<string> {
    if SectionItems(body) != [] then SectionItems(body) else FallbackCriteria(body)
  }

  /** What is read from the whole text when no criteria section lists anything. */
  function FallbackCriteria(body: string): seq<string> {
    if Items(SplitLines(body), true) != [] then Items(SplitLines(body), true)
    else
      var obligations := Obligations(SplitSentences(body));
      if obligations != [] then Take(obligations, 5) else [DEFAULT_CRITERION]
  }

  /** `ps` lists the positions of the sentences that state an obligation, in order. */
  ghost predicate ObligationsAt(ss: seq<string>, ps: seq<nat>) {
    && (forall n :: 0 <= n < |ps| ==> ps[n] < |ss| && IsObligation(Strip(ss[ps[n]])))
    && (forall n, m :: 0 <= n < m < |ps| ==> ps[n] < ps[m])
    && (forall k: nat :: k < |ss| && IsObligation(Strip(ss[k])) ==> k in ps)
  }

  lemma ObligationsAtSnoc(ss: seq<string>, ps: seq<nat>)
    requires ss != [] && ObligationsAt(ss[..|ss| - 1], ps)
    ensures ObligationsAt(ss, ps + if IsObligation(Strip(ss[|ss| - 1])) then [|ss| - 1] else [])
  {
    var n := |ss| - 1;
    assert forall k :: 0 <= k < n ==> ss[..n][k] == ss[k];
    assert forall k :: 0 <= k < |ps| ==> ps[k] < n;
  }

  lemma {:induction false} ObligationPositions(ss: seq<string>) returns (ps: seq<nat>)
    ensures ObligationsAt(ss, ps) && |Obligations(ss)| == |ps|
    ensures forall n :: 0 <= n < |ps| ==> Obligations(ss)[n] == Strip(ss[ps[n]])
  {
    ps := [];
    if ss != [] {
      var n := |ss| - 1;
      var before := ObligationPositions(ss[..n]);
      ObligationsAtSnoc(ss, before);
      ps := before + if IsObligation(Strip(ss[n])) then [n] else [];
      assert forall k :: 0 <= k < |before| ==> ss[..n][before[k]] == ss[before[k]];
    }
  }

  /** The first five sentences that state an obligation, stripped, or one default when none does. */
  ghost predicate FirstFive(ss: seq<string>, criteria: seq<string>) {
    exists ps: seq<nat> :: ObligationsAt(ss, ps) && FiveOf(ss, ps, criteria)
  }

  ghost predicate FiveOf(ss: seq<string>, ps: seq<nat>, criteria: seq<string>)
    requires ObligationsAt(ss, ps)
  {
    if ps == [] then criteria == ["Deliver the requested outcome described in the objective."]
    else
      && |criteria| == (if |ps| > 5 then 5 else |ps|)
      && forall n :: 0 <= n < |criteria| ==> criteria[n] == Strip(ss[ps[n]])
  }

  ghost predicate ListsNothing(lines: seq<string>, names: set<string>) {
    forall i: nat, j: nat, m: nat :: SectionSpan(lines, names, i, j, m) ==> SpanItems(lines, j, m) == []
  }

  function SpanItems(lines: seq<string>, j: nat, m: nat): seq<string>
    requires j <= m <= |lines|
  {
    Items(SplitLines(NormalizeText(Join(lines[j..m]))), false)
  }

  /** Where criteria come from: the list items of a section, else the checked items of the whole text, else its first
      obligations. */
  ghost predicate CriteriaFrom(body: string, criteria: seq<string>) {
    var lines, names := SplitLines(body), {"acceptance criteria", "done when", "requirements", "checklist"};
    && (forall i: nat, j: nat, m: nat :: SectionSpan(lines, names, i, j, m) && SpanItems(lines, j, m) != [] ==>
          criteria == SpanItems(lines, j, m))
    && (ListsNothing(lines, names) && Items(lines, true) != [] ==> criteria == Items(lines, true))
    && (ListsNothing(lines, names) && Items(lines, true) == [] ==> FirstFive(SplitSentences(body), criteria))
  }

  lemma ItemsOfSpan(body: string, names: set<string>, i: nat, j: nat, m: nat)
    requires names == CRITERIA_NAMES && SectionSpan(SplitLines(body), names, i, j, m)
    ensures SectionItems(body) == SpanItems(SplitLines(body), j, m)
  {
    SectionExact(SplitLines(body), names, i, j, m);
  }

  lemma NothingListed(body: string, names: set<string>)
    requires names == CRITERIA_NAMES
    ensures ListsNothing(SplitLines(body), names) ==> SectionItems(body) == []
  {
    var lines := SplitLines(body);
    if NoSection(lines, names) {
      SectionExists(lines, names);
      assert SplitLines("") == [];
    } else {
      var i, j, m := SpanExists(lines, names);
      ItemsOfSpan(body, names, i, j, m);
    }
  }

  lemma FallbackIsFirstFive(body: string)
    requires Items(SplitLines(body), true) == []
    ensures FirstFive(SplitSentences(body), FallbackCriteria(body))
  {
    var ss := SplitSentences(body);
    var ps := ObligationPositions(ss);
    assert FiveOf(ss, ps, FallbackCriteria(body));
  }

  lemma CriteriaSources(body: string)
    ensures CriteriaFrom(body, CriteriaOf(body))
  {
    var names := {"acceptance criteria", "done when", "requirements", "checklist"};
    var lines := SplitLines(body);
    assert names == CRITERIA_NAMES;
    forall i: nat, j: nat, m: nat | SectionSpan(lines, names, i, j, m)
      ensures SectionItems(body) == SpanItems(lines, j, m)
    {
      ItemsOfSpan(body, names, i, j, m);
    }
    NothingListed(body, names);
    if Items(lines, true) == [] {
      FallbackIsFirstFive(body);
    }
  }

  /** `extract_acceptance_criteria`. */
  method ExtractAcceptanceCriteria(body: string) returns (criteria: seq<string>)
    ensures criteria == CriteriaOf(body)
    ensures CriteriaFrom(body, criteria)
  {
    CriteriaSources(body);
    var sectionText := ExtractNamedSection(body, CRITERIA_NAMES);
    var extracted := ExtractListItems(if sectionText.Some? then sectionText.value else "", false);
    if extracted != [] {
      return extracted;
    }
    var checklistItems := ExtractListItems(body, true);
    if checklistItems != [] {
      return checklistItems;
    }
    var sentenceMatches := MatchSentences(body);
    if sentenceMatches != [] {
      return Take(sentenceMatches, 5);
    }
    criteria := [DEFAULT_CRITERION];
  }

  /** Its loop over the sentences. */
  method MatchSentences(body: string) returns (sentenceMatches: seq<string>)
    ensures sentenceMatches == Obligations(SplitSentences(body))
  {
    sentenceMatches := [];
    var sentences := SplitSentences(body);
    for k := 0 to |sentences|
      invariant sentenceMatches == Obligations(sentences[..k])
    {
      assert sentences[..k + 1][..k] == sentences[..k];
      var normalized := Strip(sentences[k]);
      if IsObligation(normalized) {
        sentenceMatches := sentenceMatches + [normalized];
      }
    }
    assert sentences[..|sentences|] == sentences;
  }

  // ---------------------------------------------------------------- the model's validator

  function NonEmptyLine(s: string): Option<string> {
    if NormalizeLine(s) == "" then None else Some(NormalizeLine(s))
  }

  function Validated(items: seq<string>): seq<string> {
    if items == [] then []
    else AddNew(Validated(items[..|items| - 1]), NonEmptyLine(items[|items| - 1]))
  }

  /** `_normalize_acceptance_criteria`. */
  method NormalizeAcceptanceCriteria(value: Option<seq<string>>) returns (normalized: seq<string>)
    ensures normalized == if value.None? then [] else Validated(value.value)
  {
    if value.None? {
      return [];
    }
    var items := value.value;
    normalized := [];
    for k := 0 to |items|
      invariant normalized == Validated(items[..k])
    {
      assert items[..k + 1][..k] == items[..k];
      var cleaned := NormalizeLine(items[k]);
      if cleaned != "" && cleaned !in normalized {
        normalized := normalized + [cleaned];
      }
    }
    assert items[..|items|] == items;
  }

  /** What each string gives: its normalised line, unless that is empty. */
  function EachLine(items: seq<string>): (its: seq<Option<string>>)
    ensures |its| == |items|
    ensures forall k :: 0 <= k < |items| ==>
              its[k] == if NormalizeLine(items[k]) == "" then None else Some(NormalizeLine(items[k]))
  {
    seq(|items|, k requires 0 <= k < |items| => NonEmptyLine(items[k]))
  }

  lemma {:induction false} ValidatedGather(items: seq<string>)
    ensures Validated(items) == Gather(EachLine(items))
  {
    if items != [] {
      var n := |items| - 1;
      ValidatedGather(items[..n]);
      assert EachLine(items)[..n] == EachLine(items[..n]);
    }
  }

  /** The validator keeps every normalised line that is not empty, once each and in the order of first occurrence. */
  lemma ValidatedOrdered(items: seq<string>) returns (ps: seq<nat>)
    ensures FirstOccurrences(EachLine(items), Validated(items), ps)
  {
    ValidatedGather(items);
    ps := GatherOrdered(EachLine(items));
  }

  lemma NonEmptyLineClean(s: string)
    ensures var it := NonEmptyLine(s); it.Some? ==> it.value != "" && Spaced(it.value)
    ensures NonEmptyLine(s).None? <==> Blank(s)
  {
    NormalizeLineCanonical(s);
  }

  lemma {:induction false} ValidatedClean(items: seq<string>)
    ensures CleanItems(Validated(items))
  {
    if items != [] {
      var n := |items| - 1;
      ValidatedClean(items[..n]);
      NonEmptyLineClean(items[n]);
      AddNewClean(Validated(items[..n]), NonEmptyLine(items[n]));
    }
  }

  /** One criterion with ink is enough for a result. */
  lemma {:induction false} ValidatedKeepsInk(items: seq<string>, k: nat)
    requires k < |items| && !Blank(items[k])
    ensures Validated(items) != []
  {
    var n := |items| - 1;
    if k == n {
      NonEmptyLineClean(items[n]);
    } else {
      ValidatedKeepsInk(items[..n], k);
    }
  }

  lemma CleanPrefix(items: seq<string>)
    requires items != [] && CleanItems(items)
    ensures var n := |items| - 1; CleanItems(items[..n]) && items[n] !in items[..n] && items[..n] + [items[n]] == items
  {
  }

  lemma SpacedIsItsLine(s: string)
    requires Spaced(s) && s != ""
    ensures NonEmptyLine(s) == Some(s)
  {
    SpacedIsFixed(s);
  }

  lemma {:induction false} CleanIsValidated(items: seq<string>)
    requires CleanItems(items)
    ensures Validated(items) == items
  {
    if items != [] {
      var n := |items| - 1;
      CleanPrefix(items);
      CleanIsValidated(items[..n]);
      SpacedIsItsLine(items[n]);
    }
  }

  /** The validator is idempotent; its results are the clean lists, on which it does nothing. */
  lemma ValidationCanonical(items: seq<string>)
    ensures CleanItems(Validated(items)) && Validated(Validated(items)) == Validated(items)
    ensures Validated(items) == items <==> CleanItems(items)
  {
    ValidatedClean(items);
    CleanIsValidated(Validated(items));
    if CleanItems(items) { CleanIsValidated(items); }
  }

  lemma {:induction false} ObligationsNonBlank(ss: seq<string>)
    ensures forall k :: 0 <= k < |Obligations(ss)| ==> !Blank(Obligations(ss)[k])
  {
    if ss != [] {
      var n := |ss| - 1;
      ObligationsNonBlank(ss[..n]);
      if IsObligation(Strip(ss[n])) {
        var i, j := StripIsSlice(ss[n]);
        assert !IsSpace(Strip(ss[n])[0]);
      }
    }
  }

  lemma DefaultHasInk()
    ensures !Blank(DEFAULT_CRITERION)
  {
    assert DEFAULT_CRITERION[|DEFAULT_CRITERION| - 1] == '.';
  }

  lemma CleanItemsOf(text: string, requireCheckbox: bool)
    ensures var items := Items(SplitLines(text), requireCheckbox); CleanItems(items) && Validated(items) == items
  {
    ItemsClean(SplitLines(text), requireCheckbox);
    CleanIsValidated(Items(SplitLines(text), requireCheckbox));
  }

  lemma SectionItemsClean(body: string)
    ensures CleanItems(SectionItems(body)) && Validated(SectionItems(body)) == SectionItems(body)
  {
    var section := NamedSection(SplitLines(body), CRITERIA_NAMES);
    CleanItemsOf(if section.Some? then section.value else "", false);
  }

  lemma FirstWithInk(obligations: seq<string>)
    requires forall k :: 0 <= k < |obligations| ==> !Blank(obligations[k])
    ensures var criteria := if obligations != [] then Take(obligations, 5) else [DEFAULT_CRITERION];
            criteria != [] && !Blank(criteria[0])
  {
    DefaultHasInk();
  }

  lemma FallbackHasInk(body: string)
    requires Items(SplitLines(body), true) == []
    ensures FallbackCriteria(body) != [] && !Blank(FallbackCriteria(body)[0])
  {
    var obligations := Obligations(SplitSentences(body));
    ObligationsNonBlank(SplitSentences(body));
    FirstWithInk(obligations);
  }

  /** Criteria extraction is total and stable: for every body at least one criterion is found, at least one
      survives validation, and criteria found as list items pass the validator unchanged. */
  lemma CriteriaTotal(body: string)
    ensures CriteriaOf(body) != [] && Validated(CriteriaOf(body)) != []
    ensures SectionItems(body) != [] || Items(SplitLines(body), true) != [] ==>
              Validated(CriteriaOf(body)) == CriteriaOf(body)
  {
    SectionItemsClean(body);
    CleanItemsOf(body, true);
    if SectionItems(body) == [] && Items(SplitLines(body), true) == [] {
      FallbackHasInk(body);
      ValidatedKeepsInk(FallbackCriteria(body), 0);
    }
  }
}
