/** What the extractor reads back from printed Markdown. */
module SpecRoundTrip {
  import opened Prelude
  import opened Text
  import opened SpecParser
  import opened SectionLines
  import opened WorkItemSpec

  // ---------------------------------------------------------------- headings read back

  lemma {:induction false} DropMarksStops(s: string)
    requires s != "" && !IsMark(s[0])
    ensures DropMarks("## " + s) == s
  {
    var a, b := "## " + s, "# " + s;
    assert a[1..] == b && b[1..] == " " + s && (" " + s)[1..] == s;
    assert DropMarks(" " + s) == DropMarks(s);
    assert DropMarks(b) == DropMarks(" " + s);
  }

  lemma HashHeading(s: string)
    requires s != "" && !IsMark(s[0]) && Trim(s) && s[|s| - 1] != ':'
    ensures NormalizeHeading("## " + s) == Lower(s) && IsHeading("## " + s)
  {
    DropMarksStops(s);
    StripTrimmed(s);
    StripTrimmed("## " + s);
  }

  lemma LowerObjective()
    ensures Lower("Objective") == "objective"
  {
  }

  lemma LowerAppend(a: string, b: string)
    ensures Lower(a + b) == Lower(a) + Lower(b)
  {
  }

  lemma LowerAcceptance()
    ensures Lower("Acceptance") == "acceptance"
  {
  }

  lemma LowerCriteria()
    ensures Lower(" Criteria") == " criteria"
  {
  }

  lemma LowerAcceptanceCriteria()
    ensures Lower("Acceptance Criteria") == "acceptance criteria"
  {
    LowerAcceptance();
    LowerCriteria();
    LowerAppend("Acceptance", " Criteria");
    assert "Acceptance" + " Criteria" == "Acceptance Criteria";
    assert "acceptance" + " criteria" == "acceptance criteria";
  }

  /** The printed headings are headings, each names its own section, and the first is no criteria heading. */
  lemma ObjectiveHeading()
    ensures IsHeading(OBJECTIVE_HEADING) && NormalizeHeading(OBJECTIVE_HEADING) == "objective"
  {
    assert "## " + "Objective" == OBJECTIVE_HEADING;
    HashHeading("Objective");
    LowerObjective();
  }

  lemma CriteriaHeading()
    ensures IsHeading(CRITERIA_HEADING) && NormalizeHeading(CRITERIA_HEADING) == "acceptance criteria"
  {
    assert "## " + "Acceptance Criteria" == CRITERIA_HEADING;
    HashHeading("Acceptance Criteria");
    LowerAcceptanceCriteria();
  }

  lemma ContextHeading()
    ensures IsHeading(CONTEXT_HEADING)
  {
    StripTrimmed(CONTEXT_HEADING);
  }

  lemma NotCriteriaNames()
    ensures "" !in OBJECTIVE_NAMES && "" !in CRITERIA_NAMES && "objective" !in CRITERIA_NAMES
  {
    assert "objective"[0] == 'o';
    assert "acceptance criteria"[0] == 'a' && "done when"[0] == 'd' && "requirements"[0] == 'r'
           && "checklist"[0] == 'c';
  }

  // ---------------------------------------------------------------- sections read back

  predicate NoneNames(lines: seq<string>, names: set<string>) {
    forall k :: 0 <= k < |lines| ==> !Names(lines[k], names)
  }

  predicate NoHeading(lines: seq<string>) {
    forall k :: 0 <= k < |lines| ==> !IsHeading(lines[k])
  }

  lemma {:induction false} FirstNamedAfter(before: seq<string>, rest: seq<string>, names: set<string>)
    requires NoneNames(before, names)
    ensures NamedSection(before + rest, names) == NamedSection(rest, names)
  {
    if before == [] {
      assert before + rest == rest;
    } else {
      assert !Names(before[0], names);
      assert (before + rest)[1..] == before[1..] + rest;
      FirstNamedAfter(before[1..], rest, names);
    }
  }

  lemma HeadingSection(heading: string, rest: seq<string>, names: set<string>)
    requires Names(heading, names) && Block(rest) != []
    ensures NamedSection([heading] + rest, names) == Some(SectionText(Block(rest)))
  {
    BlockStartsInk(rest);
    JoinNonBlank(Block(rest));
    assert ([heading] + rest)[1..] == rest;
  }

  /** The section of a heading that nothing before it anticipates. */
  lemma SectionAt(before: seq<string>, heading: string, rest: seq<string>, names: set<string>)
    requires NoneNames(before, names) && Names(heading, names) && Block(rest) != []
    ensures NamedSection(before + ([heading] + rest), names) == Some(SectionText(Block(rest)))
  {
    FirstNamedAfter(before, [heading] + rest, names);
    HeadingSection(heading, rest, names);
  }

  lemma UntilHeadingCons(line: string, rest: seq<string>)
    ensures UntilHeading([line] + rest) == if IsHeading(line) then [] else [line] + UntilHeading(rest)
  {
    assert ([line] + rest)[1..] == rest;
  }

  lemma {:induction false} UntilHeadingPast(a: seq<string>, b: seq<string>)
    requires NoHeading(a)
    ensures UntilHeading(a + b) == a + UntilHeading(b)
  {
    if a == [] {
      assert a + b == b && a + UntilHeading(b) == UntilHeading(b);
    } else {
      var x, t := a[0], a[1..];
      assert a == [x] + t;
      assert !IsHeading(x);
      UntilHeadingPast(t, b);
      Regroup([x], t, b);
      UntilHeadingCons(x, t + b);
      Regroup([x], t, UntilHeading(b));
    }
  }

  lemma {:induction false} UntilHeadingWithin(a: seq<string>, b: seq<string>, k: nat)
    requires k < |a| && IsHeading(a[k])
    ensures UntilHeading(a + b) == UntilHeading(a)
  {
    var x, t := a[0], a[1..];
    assert a == [x] + t;
    Regroup([x], t, b);
    UntilHeadingCons(x, t);
    UntilHeadingCons(x, t + b);
    if k > 0 {
      UntilHeadingWithin(t, b, k - 1);
    }
  }

  // ---------------------------------------------------------------- text read back

  /** A line that normalisation leaves alone in any position. */
  predicate Tight(line: string) {
    line != "" && Trim(line) && OneLine(line)
  }

  predicate AllTight(lines: seq<string>) {
    forall k :: 0 <= k < |lines| ==> Tight(lines[k])
  }

  lemma {:induction false} NoTripleLine(line: string, t: string)
    requires OneLine(line) && NoTriple(t) && LeadingNewlines(t) <= 1
    ensures NoTriple(line + "\n" + t)
    ensures LeadingNewlines(line + "\n" + t) <= if line == "" then 2 else 0
  {
    if line == "" {
      assert line + "\n" + t == "\n" + t && ("\n" + t)[1..] == t;
    } else {
      NoTripleLine(line[1..], t);
      assert (line + "\n" + t)[1..] == line[1..] + "\n" + t;
    }
  }

  lemma {:induction false} UnlinesTight(lines: seq<string>)
    requires AllTight(lines)
    ensures NoTriple(Unlines(lines)) && NoReturn(Unlines(lines)) && LeadingNewlines(Unlines(lines)) == 0
  {
    if lines != [] {
      UnlinesTight(lines[1..]);
      assert Tight(lines[0]);
      NoTripleLine(lines[0], Unlines(lines[1..]));
    }
  }

  lemma {:induction false} JoinEnds(lines: seq<string>)
    requires lines != [] && AllTight(lines)
    ensures Join(lines) != "" && Trim(Join(lines)) && Unlines(lines) == Join(lines) + "\n"
  {
    assert Tight(lines[0]);
    if |lines| == 1 {
      assert Unlines(lines[1..]) == "";
    } else {
      JoinEnds(lines[1..]);
      var j := Join(lines[1..]);
      assert Join(lines) == lines[0] + "\n" + j;
      assert Join(lines)[0] == lines[0][0] && Join(lines)[|Join(lines)| - 1] == j[|j| - 1];
      assert lines[0] + "\n" + (j + "\n") == (lines[0] + "\n" + j) + "\n";
    }
  }

  lemma StripNewline(s: string)
    requires s != "" && Trim(s)
    ensures Strip(s + "\n") == s
  {
    StripRightBlank(s, "\n");
    assert (s + "\n")[0] == s[0];
  }

  lemma TightUnlines(lines: seq<string>)
    requires lines != [] && AllTight(lines)
    ensures NormalizeText(Unlines(lines)) == Join(lines)
  {
    var u := Unlines(lines);
    UnlinesTight(lines);
    CrLfIdentity(u);
    assert ReplaceCr(u) == u;
    CapIdentity(u, 0);
    JoinEnds(lines);
    StripNewline(Join(lines));
  }

  lemma TightJoinNormal(lines: seq<string>)
    requires lines != [] && AllTight(lines)
    ensures Normal(Join(lines))
  {
    JoinEnds(lines);
    UnlinesTight(lines);
    var u := Unlines(lines);
    NoTripleSlice(u, 0, |u| - 1);
    assert u[0..|u| - 1] == Join(lines);
    forall i | 0 <= i < |Join(lines)| ensures Join(lines)[i] != '\r' {
      assert Join(lines)[i] == u[i];
    }
  }

  /** The text of a block of tight lines, with or without a blank line after them, splits into those lines. */
  lemma TightSection(lines: seq<string>, padded: bool)
    requires lines != [] && AllTight(lines)
    ensures var block := lines + if padded then [""] else [];
            SectionText(block) == Join(lines) && SplitLines(SectionText(block)) == lines
  {
    if padded {
      JoinAppend(lines, [""]);
      assert Unlines(lines) + Join([""]) == Unlines(lines);
      TightUnlines(lines);
    } else {
      assert lines + [] == lines;
      TightJoinNormal(lines);
      NormalIsFixed(Join(lines));
    }
    SplitJoin(lines);
  }

  lemma {:induction false} SplitJoin(lines: seq<string>)
    requires AllTight(lines)
    ensures SplitLines(Join(lines)) == lines
  {
    if |lines| == 1 {
      SplitOneLine(lines[0]);
    } else if |lines| > 1 {
      assert Tight(lines[0]);
      SplitFirstLine(lines[0], Join(lines[1..]));
      SplitJoin(lines[1..]);
    }
  }

  // ---------------------------------------------------------------- the objective

  /** The printed lines after the objective's. */
  function AfterObjective(w: WorkItem, tail: seq<string>): (after: seq<string>)
    ensures after != []
  {
    CriteriaLines(w) + ([CONTEXT_HEADING] + tail)
  }

  lemma AfterObjectiveHeads(w: WorkItem, tail: seq<string>)
    ensures IsHeading(AfterObjective(w, tail)[0])
  {
    CriteriaHeading();
    ContextHeading();
  }

  lemma SpecShape(w: WorkItem, tail: seq<string>)
    ensures SpecLines(w) + tail == [""] + ([OBJECTIVE_HEADING] + ([w.objective, ""] + AfterObjective(w, tail)))
  {
    Shape("", OBJECTIVE_HEADING, w.objective, CriteriaLines(w), CONTEXT_HEADING, tail);
  }

  lemma Shape(a: string, b: string, c: string, d: seq<string>, e: string, f: seq<string>)
    ensures ([a, b, c, a] + d + [e]) + f == [a] + ([b] + ([c, a] + (d + ([e] + f))))
  {
  }

  lemma EmptyLine()
    ensures BlankLine("") && !IsHeading("") && !Names("", OBJECTIVE_NAMES) && !Names("", CRITERIA_NAMES)
  {
    BlankHeading("");
    NotCriteriaNames();
  }

  lemma TightObjective(w: WorkItem)
    requires WellFormed(w)
    ensures Tight(w.objective) && !BlankLine(w.objective)
  {
    SpacedOneLine(w.objective);
    StripTrimmed(w.objective);
  }

  lemma UntilNext(line: string, after: seq<string>)
    requires after != [] && IsHeading(after[0])
    ensures UntilHeading([line, ""] + after) == if IsHeading(line) then [] else [line, ""]
  {
    EmptyLine();
    assert [line, ""] + after == [line] + ([""] + after);
    UntilHeadingCons(line, [""] + after);
    UntilHeadingCons("", after);
    assert [line] + ([""] + []) == [line, ""];
  }

  lemma BlockCons(line: string, rest: seq<string>)
    ensures Block([line] + rest) == if BlankLine(line) then Block(rest) else [line] + UntilHeading(rest)
  {
    assert ([line] + rest)[1..] == rest;
  }

  lemma ObjectiveBlock(objective: string, after: seq<string>)
    requires Tight(objective) && !BlankLine(objective) && after != [] && IsHeading(after[0])
    ensures Block([objective, ""] + after) == [objective] + [""]
  {
    EmptyLine();
    assert [objective, ""] + after == [objective] + ([""] + after);
    BlockCons(objective, [""] + after);
    UntilHeadingCons("", after);
    assert [""] + [] == [""];
  }

  lemma ObjectiveText(objective: string)
    requires Tight(objective)
    ensures SectionText([objective] + [""]) == objective
  {
    TightSection([objective], true);
  }

  lemma NoneNamesAppend(a: seq<string>, b: seq<string>, names: set<string>)
    requires NoneNames(a, names) && NoneNames(b, names)
    ensures NoneNames(a + b, names)
  {
  }

  lemma SingleNoName(line: string, names: set<string>)
    requires !Names(line, names)
    ensures NoneNames([line], names)
  {
  }

  /** Whatever the printed title, if none of its lines names an objective section, the objective read back
      from the printed Markdown is the one printed, even when that objective reads as a heading itself. */
  lemma ObjectiveRoundTrip(w: WorkItem, title: string)
    requires WellFormed(w) && NoneNames(TitleLines(w), OBJECTIVE_NAMES)
    ensures ObjectiveOf(title, Render(w)) == Some(w.objective)
  {
    var tail := RenderedLines(w);
    var after := AfterObjective(w, tail);
    var rest := [w.objective, ""] + after;
    SpecShape(w, tail);
    Regroup(TitleLines(w), [""], [OBJECTIVE_HEADING] + rest);
    EmptyLine();
    SingleNoName("", OBJECTIVE_NAMES);
    NoneNamesAppend(TitleLines(w), [""], OBJECTIVE_NAMES);
    ObjectiveHeading();
    AfterObjectiveHeads(w, tail);
    TightObjective(w);
    ObjectiveBlock(w.objective, after);
    ObjectiveText(w.objective);
    SectionAt(TitleLines(w) + [""], OBJECTIVE_HEADING, rest, OBJECTIVE_NAMES);
  }

  lemma OneTitleLine(w: WorkItem)
    requires OneLine(Title(w))
    ensures TitleLines(w) == ["# " + Title(w)]
  {
    var line := "# " + Title(w);
    SplitFirstLine(line, "");
    assert line + "\n" + "" == line + "\n";
  }

  lemma TightHeadings()
    ensures Tight(OBJECTIVE_HEADING) && Tight(CRITERIA_HEADING) && !BlankLine(OBJECTIVE_HEADING)
            && !BlankLine(CRITERIA_HEADING)
  {
    HeadingsOneLine();
    StripTrimmed(OBJECTIVE_HEADING);
    StripTrimmed(CRITERIA_HEADING);
  }

  function Padding(all: bool): seq<string> {
    if all then [""] else []
  }

  /** The lines of a section that starts before the printed objective heading. */
  function CapturedLines(objective: string): seq<string> {
    if IsHeading(objective) then [OBJECTIVE_HEADING] else [OBJECTIVE_HEADING, objective]
  }

  lemma CapturedBlock(objective: string, after: seq<string>)
    requires after != [] && IsHeading(after[0])
    ensures Block([""] + ([OBJECTIVE_HEADING] + ([objective, ""] + after)))
            == CapturedLines(objective) + Padding(!IsHeading(objective))
  {
    EmptyLine();
    TightHeadings();
    BlockCons("", [OBJECTIVE_HEADING] + ([objective, ""] + after));
    BlockCons(OBJECTIVE_HEADING, [objective, ""] + after);
    UntilNext(objective, after);
    CapturedShape(objective, OBJECTIVE_HEADING, IsHeading(objective));
  }

  lemma CapturedShape(objective: string, heading: string, alone: bool)
    ensures [heading] + (if alone then [] else [objective, ""])
            == (if alone then [heading] else [heading, objective]) + Padding(!alone)
  {
  }

  /** A title that names a section captures the printed heading, and the objective with it. */
  lemma CapturedSection(objective: string, after: seq<string>)
    requires Tight(objective) && after != [] && IsHeading(after[0])
    ensures var block := Block([""] + ([OBJECTIVE_HEADING] + ([objective, ""] + after)));
            block != [] && SectionText(block) == Join(CapturedLines(objective))
            && SplitLines(SectionText(block)) == CapturedLines(objective)
  {
    CapturedBlock(objective, after);
    TightHeadings();
    TightSection(CapturedLines(objective), !IsHeading(objective));
  }

  lemma CapturedText(objective: string)
    ensures Join(CapturedLines(objective)) == objective <==> objective == OBJECTIVE_HEADING
  {
    ObjectiveHeading();
    if !IsHeading(objective) {
      assert Join([OBJECTIVE_HEADING, objective]) == OBJECTIVE_HEADING + "\n" + objective;
    }
  }

  lemma FirstNamedWithin(lines: seq<string>, names: set<string>)
    ensures var i := FirstNamed(lines, names);
            i <= |lines| && NoneNames(lines[..i], names) && (i < |lines| ==> Names(lines[i], names))
  {
    FirstNamedIs(lines, names);
    var i := FirstNamed(lines, names);
    forall k | 0 <= k < i ensures !Names(lines[..i][k], names) {
      NotNamedBefore(lines, names, k);
    }
  }

  lemma FirstNamedNone(lines: seq<string>, names: set<string>)
    ensures FirstNamed(lines, names) == |lines| <==> NoneNames(lines, names)
  {
    FirstNamedWithin(lines, names);
    assert lines[..|lines|] == lines;
  }

  lemma {:induction false} BlockAfterBlanks(a: seq<string>, b: seq<string>)
    requires forall k :: 0 <= k < |a| ==> BlankLine(a[k])
    ensures Block(a + b) == Block(b)
  {
    if a == [] {
      assert a + b == b;
    } else {
      assert BlankLine(a[0]) && (a + b)[1..] == a[1..] + b;
      BlockAfterBlanks(a[1..], b);
    }
  }

  /** A block that starts in the title's lines ends at the printed objective heading at the latest. */
  lemma BlockAcross(lines: seq<string>, after: seq<string>) returns (padded: bool)
    requires after != [] && IsHeading(after[0])
    ensures Block(lines + ([""] + after)) ==
            if Block(lines) == [] then Block([""] + after) else Block(lines) + Padding(padded)
  {
    var i := LeadingBlanks(lines);
    padded := false;
    if i == |lines| {
      BlockAfterBlanks(lines, [""] + after);
    } else {
      var x, t := lines[i], lines[i + 1..];
      assert lines == lines[..i] + ([x] + t);
      Regroup(lines[..i], [x] + t, [""] + after);
      BlockAfterBlanks(lines[..i], [x] + t + ([""] + after));
      Regroup([x], t, [""] + after);
      BlockCons(x, t + ([""] + after));
      var m := UntilBullets(t, after);
      padded := m == |t|;
      Regroup([x], t[..m], Padding(padded));
    }
  }

  /** When the printed objective survives the title: no title line names an objective section; or the first one
      that does is followed by blanks only and the objective is the printed heading it then captures; or
      what follows it in the title already says the objective and nothing else. */
  ghost predicate TitleAllows(titleLines: seq<string>, objective: string) {
    FirstNamedWithin(titleLines, OBJECTIVE_NAMES);
    var i := FirstNamed(titleLines, OBJECTIVE_NAMES);
    i == |titleLines|
    || var block := Block(titleLines[i + 1..]);
       if block == [] then objective == OBJECTIVE_HEADING else Strip(block[0]) == objective && BlankAfterFirst(block)
  }

  lemma TitleSection(block: seq<string>, padded: bool, objective: string)
    requires block != [] && AllOneLine(block) && !Blank(block[0]) && Tight(objective)
    ensures SectionText(block + Padding(padded)) == objective <==>
                Strip(block[0]) == objective && BlankAfterFirst(block)
  {
    var padding := block + Padding(padded);
    assert forall k :: 0 <= k < |block| ==> padding[k] == block[k];
    OneLineSection(padding, objective);
  }

  lemma AroundNamed(lines: seq<string>, i: nat, following: seq<string>)
    requires i < |lines|
    ensures lines + following == lines[..i] + ([lines[i]] + (lines[i + 1..] + following))
  {
  }

  /** The section named by title line `i`. */
  lemma NamedByTitle(w: WorkItem, names: set<string>, i: nat) returns (after: seq<string>, padded: bool)
    requires WellFormed(w) && i == FirstNamed(TitleLines(w), names) < |TitleLines(w)|
    ensures after != [] && IsHeading(after[0])
    ensures var block := Block(TitleLines(w)[i + 1..]);
            var seen := if block == [] then Block([""] + ([OBJECTIVE_HEADING] + ([w.objective, ""] + after)))
                        else block + Padding(padded);
            seen != [] ==> NamedSection(SplitLines(Render(w)), names) == Some(SectionText(seen))
  {
    var tail := RenderedLines(w);
    after := AfterObjective(w, tail);
    AfterObjectiveHeads(w, tail);
    SpecShape(w, tail);
    ObjectiveHeading();
    var lines, spec := TitleLines(w), [OBJECTIVE_HEADING] + ([w.objective, ""] + after);
    FirstNamedWithin(lines, names);
    AroundNamed(lines, i, [""] + spec);
    padded := BlockAcross(lines[i + 1..], spec);
    if Block(lines[i + 1..] + ([""] + spec)) != [] {
      SectionAt(lines[..i], lines[i], lines[i + 1..] + ([""] + spec), names);
    }
  }

  lemma TitleCaptures(w: WorkItem, title: string, i: nat)
    requires WellFormed(w) && i == FirstNamed(TitleLines(w), OBJECTIVE_NAMES) < |TitleLines(w)|
    requires Block(TitleLines(w)[i + 1..]) == []
    ensures ObjectiveOf(title, Render(w)) == Some(w.objective) <==> w.objective == OBJECTIVE_HEADING
  {
    var after, padded := NamedByTitle(w, OBJECTIVE_NAMES, i);
    TightObjective(w);
    CapturedSection(w.objective, after);
    CapturedText(w.objective);
  }

  lemma TitleSpeaks(w: WorkItem, title: string, i: nat)
    requires WellFormed(w) && i == FirstNamed(TitleLines(w), OBJECTIVE_NAMES) < |TitleLines(w)|
    requires Block(TitleLines(w)[i + 1..]) != []
    ensures var block := Block(TitleLines(w)[i + 1..]);
            ObjectiveOf(title, Render(w)) == Some(w.objective) <==>
                Strip(block[0]) == w.objective && BlankAfterFirst(block)
  {
    var after, padded := NamedByTitle(w, OBJECTIVE_NAMES, i);
    TightObjective(w);
    SplitLinesOneLine("# " + Title(w) + "\n");
    BlockFacts(TitleLines(w)[i + 1..]);
    TitleSection(Block(TitleLines(w)[i + 1..]), padded, w.objective);
  }

  /** For every title, exactly when the printed objective is the one read back. */
  lemma ObjectiveRoundTripExact(w: WorkItem, title: string)
    requires WellFormed(w)
    ensures ObjectiveOf(title, Render(w)) == Some(w.objective) <==> TitleAllows(TitleLines(w), w.objective)
  {
    var lines := TitleLines(w);
    var i := FirstNamed(lines, OBJECTIVE_NAMES);
    FirstNamedWithin(lines, OBJECTIVE_NAMES);
    FirstNamedNone(lines, OBJECTIVE_NAMES);
    if i == |lines| {
      ObjectiveRoundTrip(w, title);
    } else if Block(lines[i + 1..]) == [] {
      TitleCaptures(w, title, i);
    } else {
      TitleSpeaks(w, title, i);
    }
  }

  lemma OneLineAllows(line: string, objective: string)
    ensures TitleAllows([line], objective) <==> !Names(line, OBJECTIVE_NAMES) || objective == OBJECTIVE_HEADING
  {
    FirstNamedWithin([line], OBJECTIVE_NAMES);
    assert [line][1..] == [] && Block([]) == [];
  }

  /** For a title of one line: a title that names an objective section changes the objective read back,
      unless that objective is the printed heading itself. */
  lemma ObjectiveUnderOneLineTitle(w: WorkItem, title: string)
    requires WellFormed(w) && OneLine(Title(w))
    ensures ObjectiveOf(title, Render(w)) == Some(w.objective)
            <==> !Names("# " + Title(w), OBJECTIVE_NAMES) || w.objective == OBJECTIVE_HEADING
  {
    OneTitleLine(w);
    ObjectiveRoundTripExact(w, title);
    OneLineAllows("# " + Title(w), w.objective);
  }

  // ---------------------------------------------------------------- criteria

  /** The item read back from a bullet. */
  function ItemText(item: string): string {
    if Boxed(item) then NormalizeLine(item[3..]) else item
  }

  lemma BulletItem(item: string)
    requires item != "" && Spaced(item)
    ensures ItemOf(Bullet(item), false) == Some(ItemText(item))
    ensures ItemText(item) == item <==> !Boxed(item)
  {
    var b := Bullet(item);
    assert b[1..] == " " + item && (" " + item)[1..] == item;
    assert AfterMarker(StripLeft(b)) == Some(" " + item) && StripLeft(" " + item) == item;
    if Boxed(item) {
      var content := item[3..];
      assert !IsSpace(content[|content| - 1]);
      NormalizeLineCanonical(content);
      LineNoLonger(content);
    } else {
      SpacedIsFixed(item);
    }
  }

  lemma {:induction false} CollapseNoLonger(s: string, inRun: bool)
    ensures |CollapseSpace(s, inRun)| <= |s|
  {
    if s != "" {
      CollapseNoLonger(s[1..], false);
      CollapseNoLonger(s[1..], true);
    }
  }

  lemma LineNoLonger(s: string)
    ensures |NormalizeLine(s)| <= |s|
  {
    var i, j := StripIsSlice(s);
    CollapseNoLonger(Strip(s), false);
  }

  lemma {:induction false} ItemsAtMost(lines: seq<string>)
    ensures |Items(lines, false)| <= |lines|
  {
    if lines != [] { ItemsAtMost(lines[..|lines| - 1]); }
  }

  lemma ItemsLast(lines: seq<string>)
    requires lines != [] && |Items(lines, false)| == |lines|
    ensures var n := |lines| - 1;
            Items(lines, false) == Items(lines[..n], false) + [Items(lines, false)[n]]
            && |Items(lines[..n], false)| == n && ItemOf(lines[n], false) == Some(Items(lines, false)[n])
  {
    ItemsAtMost(lines[..|lines| - 1]);
  }

  /** As many items as lines only if every line gives its own. */
  lemma {:induction false} ItemsAt(lines: seq<string>, i: nat)
    requires |Items(lines, false)| == |lines| && i < |lines|
    ensures ItemOf(lines[i], false) == Some(Items(lines, false)[i])
  {
    ItemsLast(lines);
    if i < |lines| - 1 {
      ItemsAt(lines[..|lines| - 1], i);
    }
  }

  lemma SnocNew(items: seq<string>)
    requires items != [] && Distinct(items)
    ensures AddNew(items[..|items| - 1], Some(items[|items| - 1])) == items
  {
    var n := |items| - 1;
    assert items[..n] + [items[n]] == items;
  }

  lemma {:induction false} ItemsExact(lines: seq<string>, items: seq<string>)
    requires |lines| == |items| && Distinct(items)
    requires forall i :: 0 <= i < |lines| ==> ItemOf(lines[i], false) == Some(items[i])
    ensures Items(lines, false) == items
  {
    if lines != [] {
      var n := |lines| - 1;
      ItemsExact(lines[..n], items[..n]);
      SnocNew(items);
      assert Items(lines, false) == AddNew(items[..n], Some(items[n]));
    }
  }

  lemma {:induction false} ItemsSome(lines: seq<string>)
    requires lines != [] && ItemOf(lines[0], false).Some?
    ensures Items(lines, false) != []
  {
    var n := |lines| - 1;
    if n > 0 { ItemsSome(lines[..n]); }
  }

  lemma {:induction false} ItemsSkip(head: string, lines: seq<string>)
    requires ItemOf(head, false).None?
    ensures Items([head] + lines, false) == Items(lines, false)
  {
    var all := [head] + lines;
    if lines == [] {
      assert all[..0] == [];
    } else {
      var n := |lines| - 1;
      assert all[..|all| - 1] == [head] + lines[..n] && all[|all| - 1] == lines[n];
      ItemsSkip(head, lines[..n]);
    }
  }

  lemma HashIsNoItem(line: string)
    requires line != "" && line[0] == '#'
    ensures ItemOf(line, false).None?
  {
  }

  /** The bullets that survive printing: none after the first reads as a heading, none starts with a checkbox. */
  ghost predicate Survive(criteria: seq<string>) {
    && (forall i :: 0 < i < |criteria| ==> !IsHeading(Bullet(criteria[i])))
    && (forall i :: 0 <= i < |criteria| ==> !Boxed(criteria[i]))
  }

  lemma BulletTight(item: string)
    requires item != "" && Spaced(item)
    ensures Tight(Bullet(item)) && !BlankLine(Bullet(item))
  {
    BulletOneLine(item);
    StripTrimmed(Bullet(item));
  }

  lemma BulletsTight(criteria: seq<string>)
    requires CleanItems(criteria)
    ensures AllTight(Bullets(criteria))
  {
    forall k | 0 <= k < |criteria| ensures Tight(Bullets(criteria)[k]) {
      BulletTight(criteria[k]);
    }
  }

  /** Some of the bullets, as they come back from a list: all of them only if all are there and unboxed. */
  lemma BulletsBack(criteria: seq<string>, m: nat)
    requires CleanItems(criteria) && 0 < m <= |criteria|
    ensures var items := Items(Bullets(criteria)[..m], false);
            items != [] && (items == criteria <==> m == |criteria| && forall i :: 0 <= i < m ==> !Boxed(criteria[i]))
  {
    var lines := Bullets(criteria)[..m];
    var items := Items(lines, false);
    forall i | 0 <= i < m
      ensures ItemOf(lines[i], false) == Some(ItemText(criteria[i]))
      ensures ItemText(criteria[i]) == criteria[i] <==> !Boxed(criteria[i])
    {
      BulletItem(criteria[i]);
    }
    ItemsSome(lines);
    ItemsAtMost(lines);
    if items == criteria {
      forall i | 0 <= i < m ensures !Boxed(criteria[i]) {
        ItemsAt(lines, i);
      }
    }
    if m == |criteria| && forall i :: 0 <= i < m ==> !Boxed(criteria[i]) {
      ItemsExact(lines, criteria);
    }
  }

  lemma UntilBullets(bullets: seq<string>, after: seq<string>) returns (m: nat)
    requires after != [] && IsHeading(after[0])
    ensures m <= |bullets| && (m == |bullets| <==> NoHeading(bullets))
    ensures UntilHeading(bullets + ([""] + after)) == bullets[..m] + Padding(m == |bullets|)
    ensures UntilHeading(bullets) == bullets[..m]
    ensures bullets != [] && !IsHeading(bullets[0]) ==> m > 0
  {
    m := UntilHeadingIsPrefix(bullets);
    EmptyLine();
    if m == |bullets| {
      assert NoHeading(bullets) && bullets[..m] == bullets;
      UntilHeadingPast(bullets, [""] + after);
      UntilHeadingCons("", after);
      assert [""] + [] == [""];
    } else {
      UntilHeadingWithin(bullets, [""] + after, m);
      assert bullets[..m] + [] == bullets[..m];
    }
  }

  /** The block of a criteria section: the heading it may swallow, some of the bullets, and the blank line. */
  lemma BlockItems(swallowed: bool, criteria: seq<string>, m: nat)
    requires CleanItems(criteria) && 0 < m <= |criteria|
    ensures var head := if swallowed then [CRITERIA_HEADING] else [];
            Items(SplitLines(SectionText(head + Bullets(criteria)[..m] + Padding(m == |criteria|))), false)
            == Items(Bullets(criteria)[..m], false)
  {
    var lines := Bullets(criteria)[..m];
    BulletsTight(criteria);
    assert AllTight(lines) by {
      forall k | 0 <= k < m ensures Tight(lines[k]) { assert lines[k] == Bullets(criteria)[k]; }
    }
    if swallowed {
      TightHeadings();
      HashIsNoItem(CRITERIA_HEADING);
      ItemsSkip(CRITERIA_HEADING, lines);
      TightSection([CRITERIA_HEADING] + lines, m == |criteria|);
    } else {
      assert [] + lines == lines;
      TightSection(lines, m == |criteria|);
    }
  }

  /** The lines under the printed criteria heading. */
  function BulletsAndRest(w: WorkItem, tail: seq<string>): seq<string> {
    Bullets(w.criteria) + ([""] + ([CONTEXT_HEADING] + tail))
  }

  lemma CriteriaShape(w: WorkItem, tail: seq<string>)
    requires w.criteria != []
    ensures SpecLines(w) + tail
            == ["", OBJECTIVE_HEADING] + ([w.objective] + ([""] + ([CRITERIA_HEADING] + BulletsAndRest(w, tail))))
  {
    LongShape("", OBJECTIVE_HEADING, w.objective, CRITERIA_HEADING, Bullets(w.criteria), CONTEXT_HEADING, tail);
  }

  lemma LongShape(a: string, b: string, c: string, d: string, bs: seq<string>, e: string, f: seq<string>)
    ensures ([a, b, c, a] + ([d] + bs + [a]) + [e]) + f == [a, b] + ([c] + ([a] + ([d] + (bs + ([a] + ([e] + f))))))
  {
  }

  lemma BlockOfBullets(first: string, others: seq<string>, after: seq<string>) returns (k: nat)
    requires !BlankLine(first) && after != [] && IsHeading(after[0])
    ensures k <= |others| && (k == |others| <==> NoHeading(others))
    ensures Block([first] + others + ([""] + after)) == [first] + others[..k] + Padding(k == |others|)
  {
    k := UntilBullets(others, after);
    Regroup([first], others, [""] + after);
    BlockCons(first, others + ([""] + after));
    Regroup([first], others[..k], Padding(k == |others|));
  }

  /** When the objective line does not name a criteria section, the printed heading does. */
  lemma UnderOwnHeading(w: WorkItem, tail: seq<string>) returns (m: nat)
    requires WellFormed(w) && w.criteria != []
    ensures 0 < m <= |w.criteria| && (m == |w.criteria| <==> NoHeading(Bullets(w.criteria)[1..]))
    ensures Block(BulletsAndRest(w, tail)) == [] + Bullets(w.criteria)[..m] + Padding(m == |w.criteria|)
  {
    var bs := Bullets(w.criteria);
    BulletTight(w.criteria[0]);
    ContextHeading();
    var k := BlockOfBullets(bs[0], bs[1..], [CONTEXT_HEADING] + tail);
    m := k + 1;
    Split(bs, k);
  }

  lemma Split(bs: seq<string>, k: nat)
    requires k < |bs|
    ensures [bs[0]] + bs[1..] == bs && [bs[0]] + bs[1..][..k] == [] + bs[..k + 1]
  {
  }

  /** When it does name one, its section swallows the printed heading and goes on. */
  lemma UnderObjective(w: WorkItem, tail: seq<string>) returns (m: nat)
    requires WellFormed(w) && w.criteria != [] && !IsHeading(Bullets(w.criteria)[0])
    ensures 0 < m <= |w.criteria| && (m == |w.criteria| <==> NoHeading(Bullets(w.criteria)))
    ensures Block([""] + ([CRITERIA_HEADING] + BulletsAndRest(w, tail)))
            == [CRITERIA_HEADING] + Bullets(w.criteria)[..m] + Padding(m == |w.criteria|)
  {
    ContextHeading();
    m := UntilBullets(Bullets(w.criteria), [CONTEXT_HEADING] + tail);
    EmptyLine();
    TightHeadings();
    BlockCons("", [CRITERIA_HEADING] + BulletsAndRest(w, tail));
    BlockCons(CRITERIA_HEADING, BulletsAndRest(w, tail));
    Regroup([CRITERIA_HEADING], Bullets(w.criteria)[..m], Padding(m == |w.criteria|));
  }

  lemma BeforeObjective(w: WorkItem)
    requires NoneNames(TitleLines(w), CRITERIA_NAMES)
    ensures NoneNames(TitleLines(w) + ["", OBJECTIVE_HEADING], CRITERIA_NAMES)
  {
    EmptyLine();
    ObjectiveHeading();
    NotCriteriaNames();
    assert NoneNames(["", OBJECTIVE_HEADING], CRITERIA_NAMES);
    NoneNamesAppend(TitleLines(w), ["", OBJECTIVE_HEADING], CRITERIA_NAMES);
  }

  lemma ObjectiveCarriesSection(w: WorkItem, tail: seq<string>)
    requires NoneNames(TitleLines(w), CRITERIA_NAMES) && Names(w.objective, CRITERIA_NAMES)
    requires SplitLines(Render(w)) == TitleLines(w)
             + (["", OBJECTIVE_HEADING] + ([w.objective] + ([""] + ([CRITERIA_HEADING] + BulletsAndRest(w, tail)))))
    requires Block([""] + ([CRITERIA_HEADING] + BulletsAndRest(w, tail))) != []
    ensures SectionItems(Render(w))
            == Items(SplitLines(SectionText(Block([""] + ([CRITERIA_HEADING] + BulletsAndRest(w, tail))))), false)
  {
    BeforeObjective(w);
    var rest := [""] + ([CRITERIA_HEADING] + BulletsAndRest(w, tail));
    Regroup(TitleLines(w), ["", OBJECTIVE_HEADING], [w.objective] + rest);
    SectionAt(TitleLines(w) + ["", OBJECTIVE_HEADING], w.objective, rest, CRITERIA_NAMES);
  }

  lemma OwnHeadingCarriesSection(w: WorkItem, tail: seq<string>)
    requires NoneNames(TitleLines(w), CRITERIA_NAMES) && !Names(w.objective, CRITERIA_NAMES)
    requires SplitLines(Render(w)) == TitleLines(w)
             + (["", OBJECTIVE_HEADING] + ([w.objective] + ([""] + ([CRITERIA_HEADING] + BulletsAndRest(w, tail)))))
    requires Block(BulletsAndRest(w, tail)) != []
    ensures SectionItems(Render(w)) == Items(SplitLines(SectionText(Block(BulletsAndRest(w, tail)))), false)
  {
    BeforeObjective(w);
    EmptyLine();
    CriteriaHeading();
    var a, b, c := TitleLines(w), ["", OBJECTIVE_HEADING], [CRITERIA_HEADING] + BulletsAndRest(w, tail);
    Regroup(a, b, [w.objective] + ([""] + c));
    Regroup(a + b, [w.objective], [""] + c);
    Regroup(a + b + [w.objective], [""], c);
    SingleNoName(w.objective, CRITERIA_NAMES);
    SingleNoName("", CRITERIA_NAMES);
    NoneNamesAppend(a + b, [w.objective], CRITERIA_NAMES);
    NoneNamesAppend(a + b + [w.objective], [""], CRITERIA_NAMES);
    SectionAt(a + b + [w.objective] + [""], CRITERIA_HEADING, BulletsAndRest(w, tail), CRITERIA_NAMES);
  }

  /** The lines of the printed Markdown when there are criteria. */
  lemma CriteriaLinesOf(w: WorkItem) returns (tail: seq<string>)
    requires WellFormed(w) && w.criteria != []
    ensures SplitLines(Render(w)) == TitleLines(w)
            + (["", OBJECTIVE_HEADING] + ([w.objective] + ([""] + ([CRITERIA_HEADING] + BulletsAndRest(w, tail)))))
  {
    tail := RenderedLines(w);
    CriteriaShape(w, tail);
  }

  lemma NoHeadingTail(bs: seq<string>)
    requires bs != [] && !IsHeading(bs[0])
    ensures NoHeading(bs) <==> NoHeading(bs[1..])
  {
    var rest := bs[1..];
    if NoHeading(rest) {
      forall k | 0 <= k < |bs| ensures !IsHeading(bs[k]) {
        assert k > 0 ==> bs[k] == rest[k - 1];
      }
    }
  }

  /** The criteria section read back lists the bullets up to the first heading among those after the first. */
  lemma SectionBullets(w: WorkItem) returns (m: nat)
    requires WellFormed(w) && w.criteria != [] && NoneNames(TitleLines(w), CRITERIA_NAMES)
    requires Names(w.objective, CRITERIA_NAMES) ==> !IsHeading(Bullet(w.criteria[0]))
    ensures 0 < m <= |w.criteria| && (m == |w.criteria| <==> NoHeading(Bullets(w.criteria)[1..]))
    ensures SectionItems(Render(w)) == Items(Bullets(w.criteria)[..m], false)
  {
    var tail := CriteriaLinesOf(w);
    if Names(w.objective, CRITERIA_NAMES) {
      m := UnderObjective(w, tail);
      ObjectiveCarriesSection(w, tail);
      NoHeadingTail(Bullets(w.criteria));
      BlockItems(true, w.criteria, m);
    } else {
      m := UnderOwnHeading(w, tail);
      OwnHeadingCarriesSection(w, tail);
      BlockItems(false, w.criteria, m);
    }
  }

  lemma NoHeadingBullets(criteria: seq<string>)
    requires criteria != []
    ensures NoHeading(Bullets(criteria)[1..]) <==> forall i :: 0 < i < |criteria| ==> !IsHeading(Bullet(criteria[i]))
  {
    var bs := Bullets(criteria);
    assert forall i :: 0 < i < |criteria| ==> bs[1..][i - 1] == Bullet(criteria[i]);
  }

  /** Every printed criterion comes back, in order and as it was, exactly when no criterion after the first
      reads as a heading and none starts with a checkbox. This needs no title line to name a criteria section;
      an objective line may name one, since its section then takes in the printed criteria. */
  lemma CriteriaRoundTrip(w: WorkItem)
    requires WellFormed(w) && w.criteria != [] && NoneNames(TitleLines(w), CRITERIA_NAMES)
    requires Names(w.objective, CRITERIA_NAMES) ==> !IsHeading(Bullet(w.criteria[0]))
    ensures CriteriaOf(Render(w)) == w.criteria <==> Survive(w.criteria)
  {
    var m := SectionBullets(w);
    BulletsBack(w.criteria, m);
    NoHeadingBullets(w.criteria);
  }

  // ---------------------------------------------------------------- criteria that get lost

  lemma SingleItem(line: string)
    ensures Items([line], false) == AddNew([], ItemOf(line, false))
  {
    assert [line][..0] == [];
  }

  lemma CapturedItems(objective: string)
    ensures Items(CapturedLines(objective), false) ==
            if IsHeading(objective) then [] else AddNew([], ItemOf(objective, false))
  {
    HashIsNoItem(OBJECTIVE_HEADING);
    SingleItem(OBJECTIVE_HEADING);
    ItemsSkip(OBJECTIVE_HEADING, [objective]);
    assert [OBJECTIVE_HEADING] + [objective] == [OBJECTIVE_HEADING, objective];
    SingleItem(objective);
  }

  /** A blank line at its end makes no difference to a section. */
  lemma PaddedSection(block: seq<string>, padded: bool)
    requires block != [] && AllOneLine(block)
    ensures SectionText(block + Padding(padded)) == SectionText(block)
  {
    if padded {
      var s := Join(block);
      JoinAppend(block, [""]);
      JoinNewline(block);
      assert Join(block + [""]) == s + "\n";
      NoReturnUnlines(block);
      CrLfIdentity(s);
      CrLfIdentity(s + "\n");
      assert ReplaceCr(s) == s && ReplaceCr(s + "\n") == s + "\n";
      CapNewlineEnd(s, 0);
      StripNewlineEnd(CapNewlines(s, 0));
    } else {
      assert block + [] == block;
    }
  }

  /** The list items of a section under a title line: those of the title's own lines under it or, when these are
      blank, at most the objective. */
  function ItemsUnder(block: seq<string>, objective: string): seq<string> {
    if block != [] then Items(SplitLines(SectionText(block)), false)
    else if IsHeading(objective) then []
    else AddNew([], ItemOf(objective, false))
  }

  /** Those of the section at the first title line that names a criteria section. */
  function ItemsUnderTitle(titleLines: seq<string>, objective: string): seq<string> {
    var i := FirstNamed(titleLines, CRITERIA_NAMES);
    ItemsUnder(if i < |titleLines| then Block(titleLines[i + 1..]) else [], objective)
  }

  lemma BlankUnderTitle(w: WorkItem, i: nat)
    requires WellFormed(w) && i == FirstNamed(TitleLines(w), CRITERIA_NAMES) < |TitleLines(w)|
    requires Block(TitleLines(w)[i + 1..]) == []
    ensures SectionItems(Render(w)) == ItemsUnder([], w.objective)
  {
    var after, padded := NamedByTitle(w, CRITERIA_NAMES, i);
    TightObjective(w);
    CapturedSection(w.objective, after);
    CapturedItems(w.objective);
  }

  lemma LinesUnderTitle(w: WorkItem, i: nat)
    requires WellFormed(w) && i == FirstNamed(TitleLines(w), CRITERIA_NAMES) < |TitleLines(w)|
    requires Block(TitleLines(w)[i + 1..]) != []
    ensures SectionItems(Render(w)) == ItemsUnder(Block(TitleLines(w)[i + 1..]), w.objective)
  {
    var after, padded := NamedByTitle(w, CRITERIA_NAMES, i);
    SplitLinesOneLine("# " + Title(w) + "\n");
    BlockFacts(TitleLines(w)[i + 1..]);
    PaddedSection(Block(TitleLines(w)[i + 1..]), padded);
  }

  /** A title that names a criteria section decides that section, whatever criteria are printed after it. */
  lemma TitleHidesCriteria(w: WorkItem)
    requires WellFormed(w) && !NoneNames(TitleLines(w), CRITERIA_NAMES)
    ensures SectionItems(Render(w)) == ItemsUnderTitle(TitleLines(w), w.objective)
  {
    var lines := TitleLines(w);
    var i := FirstNamed(lines, CRITERIA_NAMES);
    FirstNamedWithin(lines, CRITERIA_NAMES);
    FirstNamedNone(lines, CRITERIA_NAMES);
    if Block(lines[i + 1..]) == [] {
      BlankUnderTitle(w, i);
    } else {
      LinesUnderTitle(w, i);
    }
  }

  /** An objective that names a criteria section loses them when the first of them reads as a heading. */
  lemma FirstBulletHidesCriteria(w: WorkItem)
    requires WellFormed(w) && w.criteria != [] && NoneNames(TitleLines(w), CRITERIA_NAMES)
    requires Names(w.objective, CRITERIA_NAMES) && IsHeading(Bullet(w.criteria[0]))
    ensures SectionItems(Render(w)) == []
  {
    var tail := CriteriaLinesOf(w);
    EmptyLine();
    TightHeadings();
    HashIsNoItem(CRITERIA_HEADING);
    BlockCons("", [CRITERIA_HEADING] + BulletsAndRest(w, tail));
    BlockCons(CRITERIA_HEADING, BulletsAndRest(w, tail));
    assert UntilHeading(BulletsAndRest(w, tail)) == [];
    assert [CRITERIA_HEADING] + [] == [CRITERIA_HEADING];
    TightSection([CRITERIA_HEADING], false);
    SingleItem(CRITERIA_HEADING);
    ObjectiveCarriesSection(w, tail);
  }

  /** For every title, exactly when the criteria section read back lists the printed criteria. */
  lemma SectionRoundTripExact(w: WorkItem)
    requires WellFormed(w) && w.criteria != []
    ensures SectionItems(Render(w)) == w.criteria
            <==> if NoneNames(TitleLines(w), CRITERIA_NAMES)
                 then Survive(w.criteria) && (Names(w.objective, CRITERIA_NAMES) ==> !IsHeading(Bullet(w.criteria[0])))
                 else w.criteria == ItemsUnderTitle(TitleLines(w), w.objective)
  {
    if !NoneNames(TitleLines(w), CRITERIA_NAMES) {
      TitleHidesCriteria(w);
    } else if Names(w.objective, CRITERIA_NAMES) && IsHeading(Bullet(w.criteria[0])) {
      FirstBulletHidesCriteria(w);
    } else {
      var m := SectionBullets(w);
      BulletsBack(w.criteria, m);
      NoHeadingBullets(w.criteria);
    }
  }

  /** The criteria section read back lists nothing: the title or the objective names the section, and nothing under
      it is an item. */
  ghost predicate SectionLost(w: WorkItem) {
    if NoneNames(TitleLines(w), CRITERIA_NAMES)
    then w.criteria != [] && Names(w.objective, CRITERIA_NAMES) && IsHeading(Bullet(w.criteria[0]))
    else ItemsUnderTitle(TitleLines(w), w.objective) == []
  }

  lemma LostSection(w: WorkItem)
    requires WellFormed(w) && w.criteria != []
    ensures SectionLost(w) <==> SectionItems(Render(w)) == []
  {
    if !NoneNames(TitleLines(w), CRITERIA_NAMES) {
      TitleHidesCriteria(w);
    } else if Names(w.objective, CRITERIA_NAMES) && IsHeading(Bullet(w.criteria[0])) {
      FirstBulletHidesCriteria(w);
    } else {
      var m := SectionBullets(w);
      BulletsBack(w.criteria, m);
    }
  }

  /** Whatever title, objective and criteria a work item has: what extraction reads back from its print is the criteria
      exactly when there are any, and the section lists them, or it lists nothing and the fallback happens to
      find them in the whole text. So an empty list never comes back. */
  lemma CriteriaRoundTripExact(w: WorkItem)
    requires WellFormed(w)
    ensures CriteriaOf(Render(w)) == w.criteria
            <==> && w.criteria != []
                 && if SectionLost(w) then FallbackCriteria(Render(w)) == w.criteria
                    else if NoneNames(TitleLines(w), CRITERIA_NAMES) then Survive(w.criteria)
                    else w.criteria == ItemsUnderTitle(TitleLines(w), w.objective)
  {
    if w.criteria == [] {
      CriteriaTotal(Render(w));
    } else {
      LostSection(w);
      SectionRoundTripExact(w);
    }
  }
}
