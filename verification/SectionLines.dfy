/** The lines of an extracted section: exactly the lines of its block, without surplus blank lines. */
module SectionLines {
  import opened Prelude
  import opened Text
  import opened SpecParser
  import opened TextLaws

  /** What capping runs of newlines does to lines, where `k` newlines have just been kept. */
  function DropRuns(lines: seq<string>, k: nat): seq<string> {
    if lines == [] then []
    else if lines[0] != "" then [lines[0]] + DropRuns(lines[1..], 1)
    else if k >= 2 then DropRuns(lines[1..], k)
    else [""] + DropRuns(lines[1..], k + 1)
  }

  lemma {:induction false} CapLine(line: string, t: string, k: nat)
    requires OneLine(line) && line != ""
    ensures CapNewlines(line + "\n" + t, k) == line + "\n" + CapNewlines(t, 1)
  {
    var s := line + "\n" + t;
    if |line| == 1 {
      assert s[1..] == "\n" + t && ("\n" + t)[1..] == t;
    } else {
      assert s[1..] == line[1..] + "\n" + t;
      CapLine(line[1..], t, 0);
    }
  }

  lemma {:induction false} CapUnlines(lines: seq<string>, k: nat)
    requires AllOneLine(lines)
    ensures CapNewlines(Unlines(lines), k) == Unlines(DropRuns(lines, k))
  {
    if lines != [] {
      var line, rest := lines[0], lines[1..];
      var t := Unlines(rest);
      assert OneLine(line);
      if line != "" {
        CapUnlines(rest, 1);
        CapLine(line, t, k);
        UnlinesOf(line, DropRuns(rest, 1));
      } else {
        assert "" + "\n" + t == "\n" + t && ("\n" + t)[1..] == t;
        if k >= 2 {
          CapUnlines(rest, k);
        } else {
          CapUnlines(rest, k + 1);
          UnlinesOf("", DropRuns(rest, k + 1));
          assert "" + "\n" + Unlines(DropRuns(rest, k + 1)) == "\n" + Unlines(DropRuns(rest, k + 1));
        }
      }
    }
  }

  lemma UnlinesOf(line: string, rest: seq<string>)
    ensures Unlines([line] + rest) == line + "\n" + Unlines(rest)
  {
    assert ([line] + rest)[1..] == rest;
  }

  lemma {:induction false} CapNewlineEnd(s: string, k: nat)
    ensures CapNewlines(s + "\n", k) == CapNewlines(s, k) || CapNewlines(s + "\n", k) == CapNewlines(s, k) + "\n"
  {
    if s == "" {
      assert s + "\n" == "\n" && "\n"[1..] == "";
    } else {
      assert (s + "\n")[1..] == s[1..] + "\n";
      CapNewlineEnd(s[1..], 0);
      CapNewlineEnd(s[1..], k);
      CapNewlineEnd(s[1..], k + 1);
    }
  }

  lemma StripNewlineEnd(s: string)
    ensures Strip(s + "\n") == Strip(s)
  {
    if Blank(s) {
      StripLeftBlank(s, "\n");
      StripLeftBlank(s, "");
      assert s + "" == s;
      assert StripLeft("\n") == "";
    } else {
      StripLeftInk(s, "\n");
      StripLeftInk(s, "");
      assert s + "" == s && StripLeft(s) + "" == StripLeft(s);
      StripRightBlank(StripLeft(s), "\n");
    }
  }

  lemma {:induction false} BlankUnlines(lines: seq<string>)
    requires forall i :: 0 <= i < |lines| ==> Blank(lines[i])
    ensures Blank(Unlines(lines))
  {
    if lines != [] {
      BlankUnlines(lines[1..]);
      assert Blank(lines[0]);
    }
  }

  lemma {:induction false} LastInk(lines: seq<string>) returns (q: nat)
    requires lines != [] && !Blank(lines[0])
    ensures q < |lines| && !Blank(lines[q]) && forall i :: q < i < |lines| ==> Blank(lines[i])
  {
    q := |lines| - 1;
    if Blank(lines[q]) {
      q := LastInk(lines[..q]);
    }
  }

  /** Stripping whole lines on the right cuts the blank lines at the end and the last line's own blanks. */
  lemma StripRightLines(lines: seq<string>) returns (q: nat)
    requires lines != [] && !Blank(lines[0])
    ensures q < |lines| && !Blank(lines[q]) && forall i :: q < i < |lines| ==> Blank(lines[i])
    ensures StripRight(Unlines(lines)) == Unlines(lines[..q]) + StripRight(lines[q])
  {
    q := LastInk(lines);
    var before, line, after := lines[..q], lines[q], lines[q + 1..];
    BlankUnlines(after);
    assert lines == before + ([line] + after);
    UnlinesAppend(before, [line] + after);
    UnlinesOf(line, after);
    var a, b := Unlines(before), "\n" + Unlines(after);
    assert a + (line + "\n" + Unlines(after)) == (a + line) + b;
    StripRightBlank(a + line, b);
    StripRightInk(a, line);
  }

  /** The block's lines with surplus blank ones dropped and the first one's indentation cut. */
  function Kept(block: seq<string>): seq<string>
    requires block != []
  {
    [StripLeft(block[0])] + DropRuns(block[1..], 1)
  }

  lemma SectionTextIs(block: seq<string>)
    requires block != [] && AllOneLine(block) && !Blank(block[0])
    ensures SectionText(block) == StripRight(Unlines(Kept(block)))
  {
    var s, u := Join(block), Unlines(block);
    JoinNewline(block);
    NoReturnUnlines(block);
    CrLfIdentity(s);
    assert ReplaceCr(s) == s;
    CapNewlineEnd(s, 0);
    StripNewlineEnd(CapNewlines(s, 0));
    CapUnlines(block, 0);
    var rest := DropRuns(block[1..], 1);
    UnlinesOf(block[0], rest);
    Plus(block[0], rest);
    StripLeftInk(block[0], "\n" + Unlines(rest));
    Plus(StripLeft(block[0]), rest);
  }

  lemma Plus(line: string, rest: seq<string>)
    ensures Unlines([line] + rest) == line + ("\n" + Unlines(rest))
  {
    UnlinesOf(line, rest);
  }

  lemma {:induction false} JoinNewline(lines: seq<string>)
    requires lines != []
    ensures Join(lines) + "\n" == Unlines(lines)
  {
    if |lines| == 1 {
      assert Unlines(lines[1..]) == "";
    } else {
      JoinNewline(lines[1..]);
      assert (lines[0] + "\n" + Join(lines[1..])) + "\n" == lines[0] + "\n" + (Join(lines[1..]) + "\n");
    }
  }

  lemma {:induction false} NoReturnUnlines(lines: seq<string>)
    requires lines != [] && AllOneLine(lines)
    ensures NoReturn(Join(lines))
  {
    assert OneLine(lines[0]);
    if |lines| > 1 { NoReturnUnlines(lines[1..]); }
  }

  /** The lines of a section's text: the kept lines of its block up to the last one with ink. */
  lemma SectionLinesAre(block: seq<string>) returns (q: nat)
    requires block != [] && AllOneLine(block) && !Blank(block[0])
    ensures q < |Kept(block)| && !Blank(Kept(block)[q]) && forall i :: q < i < |Kept(block)| ==> Blank(Kept(block)[i])
    ensures SplitLines(SectionText(block)) == Kept(block)[..q] + [StripRight(Kept(block)[q])]
  {
    var kept := Kept(block);
    StripLeftInk(block[0], "");
    q := StripRightLines(kept);
    SectionTextIs(block);
    KeptOneLine(block);
    StripRightIsPrefix(kept[q]);
    StripRightInk("", kept[q]);
    assert OneLine(kept[q]);
    SplitUnlines(kept[..q], StripRight(kept[q]));
    SplitOneLine(StripRight(kept[q]));
  }

  lemma {:induction false} DropRunsFrom(lines: seq<string>, k: nat, i: nat)
    requires i < |DropRuns(lines, k)|
    ensures DropRuns(lines, k)[i] in lines
  {
    if lines[0] != "" {
      if i > 0 { DropRunsFrom(lines[1..], 1, i - 1); }
    } else if k >= 2 {
      DropRunsFrom(lines[1..], k, i);
    } else if i > 0 {
      DropRunsFrom(lines[1..], k + 1, i - 1);
    }
  }

  lemma KeptOneLine(block: seq<string>)
    requires block != [] && AllOneLine(block)
    ensures AllOneLine(Kept(block))
  {
    StripLeftIsSuffix(block[0]);
    assert OneLine(block[0]);
    forall i | 0 < i < |Kept(block)| ensures OneLine(Kept(block)[i]) {
      DropRunsFrom(block[1..], 1, i - 1);
    }
  }

  lemma StripStripRight(s: string)
    ensures Strip(StripRight(s)) == Strip(s)
  {
    StripRightIsPrefix(s);
    var t, b := StripRight(s), s[|StripRight(s)|..];
    assert s == t + b;
    if Blank(t) {
      StripLeftBlank(t, b);
      StripLeftBlank(t, "");
      StripLeftBlank(b, "");
      assert t + "" == t && b + "" == b;
    } else {
      StripLeftInk(t, b);
      StripLeftInk(t, "");
      assert t + "" == t && StripLeft(t) + "" == StripLeft(t);
      StripRightBlank(StripLeft(t), b);
    }
  }

  predicate HeadingOnlyFirst(block: seq<string>) {
    forall k :: 0 < k < |block| ==> !IsHeading(block[k])
  }

  lemma KeptFrom(block: seq<string>, k: nat) returns (i: nat)
    requires block != [] && 0 < k < |Kept(block)|
    ensures 0 < i < |block| && Kept(block)[k] == block[i]
  {
    DropRunsFrom(block[1..], 1, k - 1);
    var j :| 0 <= j < |block[1..]| && block[1..][j] == Kept(block)[k];
    i := j + 1;
  }

  /** No line of an extracted section after its first is a heading. */
  lemma {:induction false} NoHeadingInside(body: string, names: set<string>, k: nat)
    requires NamedSection(SplitLines(body), names).Some?
    requires 0 < k < |SplitLines(NamedSection(SplitLines(body), names).value)|
    ensures !IsHeading(SplitLines(NamedSection(SplitLines(body), names).value)[k])
  {
    SplitLinesOneLine(body);
    var block := SectionBlock(SplitLines(body), names);
    var q := SectionLinesAre(block);
    var lines := SplitLines(SectionText(block));
    var i := BlockLine(block, lines, q, k);
    NotFirst(block, i);
    HeadingOfStripped(block[i], lines[k]);
  }

  lemma BlockFacts(lines: seq<string>)
    requires AllOneLine(lines) && Block(lines) != []
    ensures AllOneLine(Block(lines)) && !Blank(Block(lines)[0]) && HeadingOnlyFirst(Block(lines))
  {
    var i, j := BlockIsSlice(lines);
    BlankLineIsBlank(lines[i]);
    forall k | 0 < k < |Block(lines)| ensures !IsHeading(Block(lines)[k]) {
      assert Block(lines)[k] == lines[i + k];
    }
    forall k | 0 <= k < |Block(lines)| ensures OneLine(Block(lines)[k]) {
      assert Block(lines)[k] == lines[i + k];
    }
  }

  lemma EmptySection()
    ensures SectionText([]) == ""
  {
    NormalizeEmpty("");
  }

  lemma {:induction false} SectionBlock(lines: seq<string>, names: set<string>) returns (block: seq<string>)
    requires AllOneLine(lines) && NamedSection(lines, names).Some?
    ensures block != [] && AllOneLine(block) && !Blank(block[0])
            && NamedSection(lines, names) == Some(SectionText(block))
    ensures HeadingOnlyFirst(block)
  {
    var rest := lines[1..];
    if Names(lines[0], names) && SectionText(Block(rest)) != "" {
      block := Block(rest);
      EmptySection();
      BlockFacts(rest);
    } else {
      block := SectionBlock(rest, names);
    }
  }

  lemma BlockLine(block: seq<string>, lines: seq<string>, q: nat, k: nat) returns (i: nat)
    requires block != [] && q < |Kept(block)|
    requires lines == Kept(block)[..q] + [StripRight(Kept(block)[q])] && 0 < k < |lines|
    ensures 0 < i < |block| && Strip(lines[k]) == Strip(block[i])
  {
    i := KeptFrom(block, k);
    StripStripRight(block[i]);
  }

  lemma NotFirst(block: seq<string>, i: nat)
    requires HeadingOnlyFirst(block) && 0 < i < |block|
    ensures !IsHeading(block[i])
  {
  }

  lemma HeadingOfStripped(a: string, b: string)
    requires Strip(a) == Strip(b)
    ensures IsHeading(a) <==> IsHeading(b)
  {
  }

  // ---------------------------------------------------------------- sections of one line

  lemma {:induction false} DropRunsKeepsInk(lines: seq<string>, k: nat, line: string)
    requires line in lines
    ensures Blank(line) || line in DropRuns(lines, k)
  {
    if lines[0] != line {
      DropRunsKeepsInk(lines[1..], 1, line);
      DropRunsKeepsInk(lines[1..], k, line);
      DropRunsKeepsInk(lines[1..], k + 1, line);
    }
  }

  predicate BlankAfterFirst(block: seq<string>) {
    forall k :: 0 < k < |block| ==> Blank(block[k])
  }

  lemma KeptBlank(block: seq<string>, q: nat)
    requires block != [] && q < |Kept(block)| && !Blank(Kept(block)[q])
    requires forall i :: q < i < |Kept(block)| ==> Blank(Kept(block)[i])
    ensures q == 0 <==> BlankAfterFirst(block)
  {
    if q > 0 {
      var i := KeptFrom(block, q);
    } else {
      var rest := DropRuns(block[1..], 1);
      forall x | x in rest ensures Blank(x) {
        var i :| 0 <= i < |rest| && rest[i] == x;
        assert Kept(block)[i + 1] == x;
      }
      forall k | 0 < k < |block| ensures Blank(block[k]) {
        assert block[k] == block[1..][k - 1];
        DropRunsKeepsInk(block[1..], 1, block[k]);
      }
    }
  }

  lemma OneBreak(text: string, line: string, breaks: seq<string>)
    requires Rejoins(text, [line], breaks)
    ensures text == line || (text != "" && IsSpace(text[|text| - 1]))
  {
    if breaks != [] {
      assert Interleave([line][1..], breaks[1..]) == "";
      assert text == line + breaks[0];
      assert LineBreak(breaks[0]);
    }
  }

  lemma SingleLineText(text: string, line: string)
    requires text != "" && Trim(text) && OneLine(line) && line != ""
    ensures SplitLines(text) == [line] <==> text == line
  {
    SplitOneLine(line);
    if SplitLines(text) == [line] {
      var breaks := LinesRejoin(text);
      OneBreak(text, line, breaks);
    }
  }

  lemma OneOf(front: seq<string>, last: string, line: string)
    ensures front + [last] == [line] <==> front == [] && last == line
  {
    if front + [last] == [line] {
      assert (front + [last])[|front|] == last;
    }
  }

  /** A section's text is one given line exactly when its block holds that line, stripped, and blank lines. */
  lemma OneLineSection(block: seq<string>, line: string)
    requires block != [] && AllOneLine(block) && !Blank(block[0])
    requires OneLine(line) && line != ""
    ensures SectionText(block) == line <==> Strip(block[0]) == line && BlankAfterFirst(block)
  {
    var q := SectionLinesAre(block);
    KeptBlank(block, q);
    OneOf(Kept(block)[..q], StripRight(Kept(block)[q]), line);
    JoinNonBlankText(block);
    SingleLineText(SectionText(block), line);
  }

  lemma JoinNonBlankText(block: seq<string>)
    requires block != [] && !Blank(block[0])
    ensures SectionText(block) != "" && Trim(SectionText(block))
  {
    BlankLineIsBlank(block[0]);
    JoinNonBlank(block);
    NormalizeIsNormal(Join(block));
  }
}
