/** The work item model of the intake bridge: its validators, the Markdown it prints, and the round trip
    through the extractor. */
module WorkItemSpec {
  import opened Prelude
  import opened Text
  import opened SpecParser

  // ---------------------------------------------------------------- the model

  /** Enumerated fields are kept as the text they print as. `sourceTitle` and `sourceContent` are the two
      constraints that the printer reads. */
  datatype WorkItem = WorkItem(
    workspaceId: string, kind: string, sourceType: string, sourceRef: Option<string>,
    objective: string, criteria: seq<string>, priority: nat, riskLevel: string, approvalPolicy: string,
    requestedBy: string, sourceTitle: Option<string>, sourceContent: Option<string>)

  /** What validation guarantees about the fields that are read back. */
  ghost predicate WellFormed(w: WorkItem) {
    && w.objective != "" && Spaced(w.objective)
    && CleanItems(w.criteria)
  }

  /** An optional field is normalised, and dropped when nothing is left. */
  function OptionalLine(o: Option<string>): Option<string> {
    if o.None? then None else NonEmptyLine(o.value)
  }

  /** Field validation: `None` is a validation error. */
  function Accept(w: WorkItem): Option<WorkItem> {
    var workspaceId, objective := NonEmptyLine(w.workspaceId), NonEmptyLine(w.objective);
    var requestedBy := NonEmptyLine(w.requestedBy);
    if workspaceId.None? || objective.None? || requestedBy.None? || !(1 <= w.priority <= 100) then None
    else Some(w.(workspaceId := workspaceId.value, objective := objective.value, requestedBy := requestedBy.value,
                 sourceRef := OptionalLine(w.sourceRef), criteria := Validated(w.criteria)))
  }

  lemma NonEmptyLineCanonical(s: string)
    ensures var r := NonEmptyLine(s);
            (r.None? <==> Blank(s)) && (r.Some? ==> r.value != "" && Spaced(r.value) && NonEmptyLine(r.value) == r)
  {
    NormalizeLineCanonical(s);
  }

  /** Validation rejects exactly blank required text and priorities out of range; what it accepts is well formed,
      and validating that again (as assignment does) changes nothing. */
  lemma AcceptCanonical(w: WorkItem)
    ensures Accept(w).None? <==>
                Blank(w.workspaceId) || Blank(w.objective) || Blank(w.requestedBy) || !(1 <= w.priority <= 100)
    ensures Accept(w).Some? ==> WellFormed(Accept(w).value) && Accept(Accept(w).value) == Accept(w)
  {
    NonEmptyLineCanonical(w.workspaceId);
    NonEmptyLineCanonical(w.objective);
    NonEmptyLineCanonical(w.requestedBy);
    if w.sourceRef.Some? { NonEmptyLineCanonical(w.sourceRef.value); }
    ValidationCanonical(w.criteria);
  }

  /** What an accepted item holds: the required texts and the reference normalised, the criteria validated, and
      everything else as it was. */
  lemma AcceptKeeps(w: WorkItem)
    requires Accept(w).Some?
    ensures var a := Accept(w).value;
            && a.workspaceId == NormalizeLine(w.workspaceId) && a.objective == NormalizeLine(w.objective)
            && a.requestedBy == NormalizeLine(w.requestedBy) && a.criteria == Validated(w.criteria)
            && (match w.sourceRef
                case None => a.sourceRef.None?
                case Some(s) => a.sourceRef == if Blank(s) then None else Some(NormalizeLine(s)))
            && a.kind == w.kind && a.sourceType == w.sourceType && a.priority == w.priority
            && a.riskLevel == w.riskLevel && a.approvalPolicy == w.approvalPolicy
            && a.sourceTitle == w.sourceTitle && a.sourceContent == w.sourceContent
  {
    if w.sourceRef.Some? { NormalizeLineCanonical(w.sourceRef.value); }
  }

  // ---------------------------------------------------------------- printing

  const OBJECTIVE_HEADING := "## Objective"
  const CRITERIA_HEADING := "## Acceptance Criteria"
  const CONTEXT_HEADING := "## Context"

  /** `source_title or self.objective`. */
  function Title(w: WorkItem): string {
    if w.sourceTitle.Some? && w.sourceTitle.value != "" then w.sourceTitle.value else w.objective
  }

  function Bullet(item: string): string {
    "- " + item
  }

  function Bullets(items: seq<string>): (bs: seq<string>)
    ensures |bs| == |items| && forall i :: 0 <= i < |items| ==> bs[i] == Bullet(items[i])
  {
    seq(|items|, i requires 0 <= i < |items| => Bullet(items[i]))
  }

  function CriteriaLines(w: WorkItem): seq<string> {
    if w.criteria == [] then [] else [CRITERIA_HEADING] + Bullets(w.criteria) + [""]
  }

  function ContextLines(w: WorkItem): seq<string> {
    ["- Workspace: " + w.workspaceId,
     "- Kind: " + w.kind,
     "- Source Type: " + w.sourceType,
     "- Source Ref: " + (if w.sourceRef.Some? && w.sourceRef.value != "" then w.sourceRef.value else "n/a"),
     "- Requested By: " + w.requestedBy,
     "- Priority: " + Decimal(w.priority),
     "- Risk Level: " + w.riskLevel,
     "- Approval Policy: " + w.approvalPolicy,
     ""]
  }

  function ContentLines(w: WorkItem): seq<string> {
    if w.sourceContent.Some? && w.sourceContent.value != ""
    then ["## Source Content", Strip(w.sourceContent.value), ""]
    else []
  }

  /** The lines printed after the title, up to the context heading. */
  function SpecLines(w: WorkItem): seq<string> {
    ["", OBJECTIVE_HEADING, w.objective, ""] + CriteriaLines(w) + [CONTEXT_HEADING]
  }

  function Render(w: WorkItem): string {
    Strip(Join(["# " + Title(w)] + SpecLines(w) + ContextLines(w) + ContentLines(w))) + "\n"
  }

  /** `render_spec_markdown`. */
  method RenderSpecMarkdown(w: WorkItem) returns (markdown: string)
    ensures markdown == Render(w)
  {
    var lines := ["# " + Title(w), "", OBJECTIVE_HEADING, w.objective, ""];
    ghost var start := lines;
    if w.criteria != [] {
      lines := lines + [CRITERIA_HEADING];
      for k := 0 to |w.criteria|
        invariant lines == start + [CRITERIA_HEADING] + Bullets(w.criteria[..k])
      {
        assert Bullets(w.criteria[..k + 1]) == Bullets(w.criteria[..k]) + [Bullet(w.criteria[k])];
        lines := lines + [Bullet(w.criteria[k])];
      }
      assert w.criteria[..|w.criteria|] == w.criteria;
      lines := lines + [""];
    }
    ghost var withCriteria := start + CriteriaLines(w);
    assert lines == withCriteria;
    lines := lines + [CONTEXT_HEADING] + ContextLines(w);
    if w.sourceContent.Some? && w.sourceContent.value != "" {
      lines := lines + ["## Source Content", Strip(w.sourceContent.value), ""];
    }
    assert lines == withCriteria + [CONTEXT_HEADING] + ContextLines(w) + ContentLines(w);
    ghost var opening := ["", OBJECTIVE_HEADING, w.objective, ""];
    assert start == ["# " + Title(w)] + opening;
    Associate(["# " + Title(w)], opening, CriteriaLines(w), [CONTEXT_HEADING], ContextLines(w), ContentLines(w));
    assert SpecLines(w) == opening + CriteriaLines(w) + [CONTEXT_HEADING];
    markdown := Strip(Join(lines)) + "\n";
  }

  lemma Associate(a: seq<string>, b: seq<string>, c: seq<string>, d: seq<string>, e: seq<string>, f: seq<string>)
    ensures a + (b + c + d) + e + f == a + b + c + d + e + f
  {
  }

  // ---------------------------------------------------------------- printed lines

  /** The lines of the printed title, which may hold line breaks. */
  function TitleLines(w: WorkItem): seq<string> {
    SplitLines("# " + Title(w) + "\n")
  }

  lemma StripAfter(a: string, b: string)
    requires a != "" && !IsSpace(a[0]) && b != "" && !IsSpace(b[0])
    ensures Strip(a + b) == a + StripRight(b)
  {
    assert (a + b)[0] == a[0];
    StripRightKeeps(a, b);
  }

  lemma JoinStart(lines: seq<string>)
    requires lines != [] && lines[0] != ""
    ensures Join(lines) != "" && Join(lines)[0] == lines[0][0]
  {
  }

  lemma UnlinesCons(title: string, spec: seq<string>)
    requires title != ""
    ensures Unlines([title] + spec) == title + ("\n" + Unlines(spec)) && Unlines([title] + spec)[0] == title[0]
  {
    assert ([title] + spec)[1..] == spec;
    assert title + "\n" + Unlines(spec) == title + ("\n" + Unlines(spec));
  }

  lemma Assoc(a: string, b: string, c: string)
    ensures (a + b) + c == a + (b + c)
  {
  }

  /** Stripping joined lines leaves all of them up to a later line with ink as they are. */
  lemma StripPrinted(title: string, spec: seq<string>, rest: seq<string>)
    requires title != "" && !IsSpace(title[0]) && rest != [] && rest[0] != "" && !IsSpace(rest[0][0])
    ensures Strip(Join([title] + spec + rest)) == title + ("\n" + (Unlines(spec) + StripRight(Join(rest))))
  {
    var b := StripRight(Join(rest));
    UnlinesCons(title, spec);
    JoinAppend([title] + spec, rest);
    JoinStart(rest);
    StripAfter(Unlines([title] + spec), Join(rest));
    Assoc(title, "\n" + Unlines(spec), b);
    Assoc("\n", Unlines(spec), b);
  }

  lemma ContextStartsInk(w: WorkItem)
    ensures ContextLines(w) != [] && ContextLines(w)[0] != "" && ContextLines(w)[0][0] == '-'
  {
  }

  /** The printed text: the title, the lines up to the context heading, and what follows them. */
  lemma RenderSplits(w: WorkItem) returns (tail: string)
    ensures Render(w) == "# " + Title(w) + "\n" + (Unlines(SpecLines(w)) + tail)
    ensures tail == StripRight(Join(ContextLines(w) + ContentLines(w))) + "\n"
  {
    var title, spec, rest := "# " + Title(w), SpecLines(w), ContextLines(w) + ContentLines(w);
    Regroup([title] + spec, ContextLines(w), ContentLines(w));
    ContextStartsInk(w);
    StripPrinted(title, spec, rest);
    var b := StripRight(Join(rest));
    tail := b + "\n";
    Assoc(title, "\n" + (Unlines(spec) + b), "\n");
    Assoc("\n", Unlines(spec) + b, "\n");
    Assoc(Unlines(spec), b, "\n");
    Assoc(title, "\n", Unlines(spec) + tail);
  }

  lemma HeadingsOneLine()
    ensures OneLine(OBJECTIVE_HEADING) && OneLine(CRITERIA_HEADING) && OneLine(CONTEXT_HEADING)
  {
  }

  lemma BulletOneLine(item: string)
    requires Spaced(item)
    ensures OneLine(Bullet(item))
  {
  }

  lemma AllOneLineAppend(a: seq<string>, b: seq<string>)
    requires AllOneLine(a) && AllOneLine(b)
    ensures AllOneLine(a + b)
  {
  }

  lemma CriteriaLinesOneLine(w: WorkItem)
    requires WellFormed(w)
    ensures AllOneLine(CriteriaLines(w))
  {
    HeadingsOneLine();
    forall k | 0 <= k < |w.criteria| ensures OneLine(Bullets(w.criteria)[k]) {
      BulletOneLine(w.criteria[k]);
    }
    AllOneLineAppend([CRITERIA_HEADING], Bullets(w.criteria));
    AllOneLineAppend([CRITERIA_HEADING] + Bullets(w.criteria), [""]);
  }

  lemma SpecLinesOneLine(w: WorkItem)
    requires WellFormed(w)
    ensures AllOneLine(SpecLines(w))
  {
    HeadingsOneLine();
    SpacedOneLine(w.objective);
    CriteriaLinesOneLine(w);
    var opening := ["", OBJECTIVE_HEADING, w.objective, ""];
    assert AllOneLine(opening);
    AllOneLineAppend(opening, CriteriaLines(w));
    AllOneLineAppend(opening + CriteriaLines(w), [CONTEXT_HEADING]);
  }

  lemma RenderedLines(w: WorkItem) returns (tail: seq<string>)
    requires WellFormed(w)
    ensures SplitLines(Render(w)) == TitleLines(w) + (SpecLines(w) + tail)
    ensures tail == SplitLines(StripRight(Join(ContextLines(w) + ContentLines(w))) + "\n")
  {
    var rest := RenderSplits(w);
    SplitAtNewline("# " + Title(w), Unlines(SpecLines(w)) + rest);
    SpecLinesOneLine(w);
    SplitUnlines(SpecLines(w), rest);
    tail := SplitLines(rest);
  }

  // ---------------------------------------------------------------- the whole page

  predicate Field(s: string) {
    s != "" && Spaced(s)
  }

  /** Fields as validation and the enumerations leave them: texts of one line with ink at both ends. */
  ghost predicate Printable(w: WorkItem) {
    && WellFormed(w)
    && Field(w.workspaceId) && Field(w.kind) && Field(w.sourceType)
    && Field(w.requestedBy) && Field(w.riskLevel) && Field(w.approvalPolicy)
    && (w.sourceRef.Some? ==> Spaced(w.sourceRef.value))
  }

  lemma OneLineAppend(a: string, b: string)
    requires OneLine(a) && OneLine(b)
    ensures OneLine(a + b)
  {
  }

  lemma LabelsOneLine()
    ensures OneLine("- Workspace: ") && OneLine("- Kind: ") && OneLine("- Source Type: ") && OneLine("- Source Ref: ")
  {
  }

  lemma MoreLabelsOneLine()
    ensures OneLine("- Requested By: ") && OneLine("- Priority: ") && OneLine("- Risk Level: ")
    ensures OneLine("- Approval Policy: ") && OneLine("n/a") && OneLine("## Source Content")
  {
  }

  lemma DecimalOneLine(n: nat)
    ensures OneLine(Decimal(n))
  {
    DecimalPlain(n);
  }

  lemma ContextOneLine(w: WorkItem)
    requires Printable(w)
    ensures AllOneLine(ContextLines(w))
  {
    LabelsOneLine();
    MoreLabelsOneLine();
    SpacedOneLine(w.workspaceId);
    SpacedOneLine(w.kind);
    SpacedOneLine(w.sourceType);
    SpacedOneLine(w.requestedBy);
    SpacedOneLine(w.riskLevel);
    SpacedOneLine(w.approvalPolicy);
    if w.sourceRef.Some? { SpacedOneLine(w.sourceRef.value); }
    DecimalOneLine(w.priority);
    forall k | 0 <= k < |ContextLines(w)| ensures OneLine(ContextLines(w)[k]) {
    }
  }

  predicate EndsInInk(s: string) {
    s != "" && !IsSpace(s[|s| - 1])
  }

  lemma StripRightInk1(a: string, b: string, c: string)
    requires EndsInInk(b) && Blank(c)
    ensures StripRight(a + b + c) == a + b
  {
    StripRightBlank(a + b, c);
  }

  /** Stripping whole lines, the last of which ends in ink, takes off the last newline only. */
  lemma StripUnlines(lines: seq<string>, c: string)
    requires lines != [] && EndsInInk(lines[|lines| - 1]) && Blank(c)
    ensures StripRight(Unlines(lines) + c) + "\n" == Unlines(lines)
  {
    var n := |lines| - 1;
    var last := lines[n];
    assert lines == lines[..n] + [last];
    UnlinesAppend(lines[..n], [last]);
    assert [last][1..] == [] && Unlines([last]) == last + "\n";
    assert Unlines(lines) + c == Unlines(lines[..n]) + last + ("\n" + c);
    StripRightInk1(Unlines(lines[..n]), last, "\n" + c);
    assert Unlines(lines[..n]) + last + "\n" == Unlines(lines);
  }

  lemma {:induction false} LineEndInk(s: string)
    requires EndsInInk(s)
    ensures LineEnd(s + "\n") == LineEnd(s)
  {
    if !IsBreak(s[0]) {
      assert (s + "\n")[1..] == s[1..] + "\n";
      if |s| == 1 {
        assert s[1..] == "" && "" + "\n" == "\n" && LineEnd("\n") == 0;
      } else {
        LineEndInk(s[1..]);
      }
    }
  }

  lemma NewlineBehind(s: string, k: nat)
    requires k <= |s|
    ensures (s + "\n")[..k] == s[..k] && (s + "\n")[k..] == s[k..] + "\n"
  {
  }

  /** The break that ends the first of several lines is followed by ink at the latest at the end. */
  lemma BreakBehind(s: string)
    requires EndsInInk(s) && IsBreak(s[0])
    ensures BreakLength(s) < |s| && BreakLength(s + "\n") == BreakLength(s) && EndsInInk(s[BreakLength(s)..])
  {
    assert |s| > 1;
    assert (s + "\n")[0] == s[0] && (s + "\n")[1] == s[1];
    var b := BreakLength(s);
    assert s[b..][|s| - b - 1] == s[|s| - 1];
  }

  lemma SplitStep(s: string)
    requires s != "" && LineEnd(s) < |s|
    ensures var n := LineEnd(s); SplitLines(s) == [s[..n]] + SplitLines(s[n..][BreakLength(s[n..])..])
  {
    var n := LineEnd(s);
    var b := BreakLength(s[n..]);
    assert s[n..][b..] == s[n + b..];
  }

  lemma LastLine(s: string)
    requires s != "" && LineEnd(s) == |s|
    ensures SplitLines(s + "\n") == [s] && SplitLines(s) == [s]
  {
    LineEndWithin(s);
    LineEndOf(s, "\n");
    NewlineBehind(s, |s|);
    SplitStep(s + "\n");
    assert s[|s|..] + "\n" == "\n" && "\n"[1..] == "";
  }

  lemma InkAtEnd(s: string, n: nat)
    requires n < |s| && EndsInInk(s)
    ensures EndsInInk(s[n..])
  {
    assert s[n..][|s| - n - 1] == s[|s| - 1];
  }

  /** A newline behind ink adds no line. */
  lemma {:induction false} NewlineAdds(s: string)
    requires EndsInInk(s)
    ensures SplitLines(s + "\n") == SplitLines(s)
    decreases |s|
  {
    LineEndWithin(s);
    if LineEnd(s) == |s| {
      LastLine(s);
    } else {
      var n := LineEnd(s);
      var rest := s[n..];
      InkAtEnd(s, n);
      BreakBehind(rest);
      LineEndInk(s);
      SplitStep(s);
      SplitStep(s + "\n");
      NewlineBehind(s, n);
      NewlineBehind(rest, BreakLength(rest));
      NewlineAdds(rest[BreakLength(rest)..]);
    }
  }

  /** Lines with ink at the end of the last, then nothing or a stripped text: how their joined and stripped form
      splits. */
  lemma TailSplits(lines: seq<string>, text: string)
    requires AllOneLine(lines) && lines != [] && EndsInInk(lines[|lines| - 1]) && Trim(text)
    ensures SplitLines(StripRight(Unlines(lines) + (text + "\n")) + "\n") == lines + SplitLines(text)
  {
    if text == "" {
      assert text + "\n" == "\n";
      StripUnlines(lines, "\n");
      SplitUnlines(lines, "");
      assert Unlines(lines) + "" == Unlines(lines);
    } else {
      assert Unlines(lines) + (text + "\n") == Unlines(lines) + text + "\n";
      StripRightInk1(Unlines(lines), text, "\n");
      assert Unlines(lines) + text + "\n" == Unlines(lines) + (text + "\n");
      SplitUnlines(lines, text + "\n");
      NewlineAdds(text);
    }
  }

  /** The lines that name the item's fields. */
  function FieldLines(w: WorkItem): seq<string> {
    ContextLines(w)[..8]
  }

  lemma PolicyEndsInInk(w: WorkItem)
    requires Printable(w)
    ensures EndsInInk(FieldLines(w)[7])
  {
    var s := w.approvalPolicy;
    var line := "- Approval Policy: " + s;
    assert FieldLines(w)[7] == line && line[|line| - 1] == s[|s| - 1];
  }

  /** What follows the context heading, without source content. */
  lemma PlainTail(w: WorkItem)
    requires Printable(w) && (w.sourceContent.None? || w.sourceContent.value == "")
    ensures SplitLines(StripRight(Join(ContextLines(w) + ContentLines(w))) + "\n") == FieldLines(w)
  {
    var lines := FieldLines(w);
    ContextOneLine(w);
    PolicyEndsInInk(w);
    assert ContextLines(w) + ContentLines(w) == lines + [""];
    JoinAppend(lines, [""]);
    StripUnlines(lines, "");
    assert Unlines(lines) + "" == Unlines(lines);
    SplitUnlines(lines, "");
  }

  /** And with it. */
  lemma ContentTail(w: WorkItem)
    requires Printable(w) && w.sourceContent.Some? && w.sourceContent.value != ""
    ensures SplitLines(StripRight(Join(ContextLines(w) + ContentLines(w))) + "\n")
            == FieldLines(w) + ["", "## Source Content"] + SplitLines(Strip(w.sourceContent.value))
  {
    var text := Strip(w.sourceContent.value);
    var lines := FieldLines(w) + ["", "## Source Content"];
    var i, j := StripIsSlice(w.sourceContent.value);
    ContextOneLine(w);
    MoreLabelsOneLine();
    AllOneLineAppend(FieldLines(w), ["", "## Source Content"]);
    assert "## Source Content"[|"## Source Content"| - 1] == 't';
    assert ContextLines(w) + ContentLines(w) == lines + [text, ""];
    JoinAppend(lines, [text, ""]);
    assert [text, ""][1..] == [""] && Join([text, ""]) == text + "\n" + "";
    assert text + "\n" + "" == text + "\n";
    TailSplits(lines, text);
  }

  lemma TitleIs(w: WorkItem)
    ensures TitleLines(w) == SplitLines("# " + (if w.sourceTitle.Some? && w.sourceTitle.value != ""
                                                then w.sourceTitle.value else w.objective) + "\n")
  {
  }

  /** The objective and the criteria, as they are printed. */
  lemma SpecLinesAre(w: WorkItem, bullets: seq<string>)
    requires bullets == Bullets(w.criteria)
    ensures SpecLines(w)
            == ["", "## Objective", w.objective, ""]
               + (if w.criteria == [] then [] else ["## Acceptance Criteria"] + bullets + [""]) + ["## Context"]
  {
  }

  lemma BulletsAre(items: seq<string>, i: nat)
    requires i < |items|
    ensures Bullets(items)[i] == "- " + items[i]
  {
  }

  /** The eight fields. */
  lemma FieldLinesAre(w: WorkItem)
    ensures FieldLines(w) == ["- Workspace: " + w.workspaceId,
                              "- Kind: " + w.kind,
                              "- Source Type: " + w.sourceType,
                              "- Source Ref: " + SourceRefText(w),
                              "- Requested By: " + w.requestedBy,
                              "- Priority: " + Decimal(w.priority),
                              "- Risk Level: " + w.riskLevel,
                              "- Approval Policy: " + w.approvalPolicy]
  {
  }

  function SourceRefText(w: WorkItem): (text: string)
    ensures w.sourceRef.None? || w.sourceRef.value == "" ==> text == "n/a"
    ensures w.sourceRef.Some? && w.sourceRef.value != "" ==> text == w.sourceRef.value
  {
    if w.sourceRef.Some? && w.sourceRef.value != "" then w.sourceRef.value else "n/a"
  }

  /** The lines behind the context heading: the fields, and the source's content, stripped, when there is any. */
  lemma TailAre(w: WorkItem, content: seq<string>)
    requires Printable(w)
    requires content == if w.sourceContent.None? || w.sourceContent.value == "" then []
                        else ["", "## Source Content"] + SplitLines(Strip(w.sourceContent.value))
    ensures SplitLines(StripRight(Join(ContextLines(w) + ContentLines(w))) + "\n") == FieldLines(w) + content
  {
    if w.sourceContent.None? || w.sourceContent.value == "" {
      PlainTail(w);
      assert FieldLines(w) + [] == FieldLines(w);
    } else {
      ContentTail(w);
      Regroup(FieldLines(w), ["", "## Source Content"], SplitLines(Strip(w.sourceContent.value)));
    }
  }

  /** The page that is printed, line by line: the title with its own line breaks, the objective, a bullet for each
      criterion, the eight fields, and the source's content. */
  lemma PrintedPage(w: WorkItem, bullets: seq<string>, criteria: seq<string>, content: seq<string>)
    requires Printable(w)
    requires |bullets| == |w.criteria| && forall i :: 0 <= i < |bullets| ==> bullets[i] == "- " + w.criteria[i]
    requires criteria == if w.criteria == [] then [] else ["## Acceptance Criteria"] + bullets + [""]
    requires content == if w.sourceContent.None? || w.sourceContent.value == "" then []
                        else ["", "## Source Content"] + SplitLines(Strip(w.sourceContent.value))
    ensures SplitLines(Render(w))
            == SplitLines("# " + (if w.sourceTitle.Some? && w.sourceTitle.value != ""
                                  then w.sourceTitle.value else w.objective) + "\n")
               + (["", "## Objective", w.objective, ""] + criteria + ["## Context"]
                  + (["- Workspace: " + w.workspaceId,
                      "- Kind: " + w.kind,
                      "- Source Type: " + w.sourceType,
                      "- Source Ref: " + SourceRefText(w),
                      "- Requested By: " + w.requestedBy,
                      "- Priority: " + Decimal(w.priority),
                      "- Risk Level: " + w.riskLevel,
                      "- Approval Policy: " + w.approvalPolicy]
                     + content))
  {
    forall i | 0 <= i < |bullets| ensures bullets[i] == Bullets(w.criteria)[i] {
      BulletsAre(w.criteria, i);
    }
    assert bullets == Bullets(w.criteria);
    var tail := RenderedLines(w);
    TitleIs(w);
    SpecLinesAre(w, bullets);
    TailAre(w, content);
    FieldLinesAre(w);
  }
}
