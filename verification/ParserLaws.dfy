/** Declarative readings of the extractor's patterns: headings, list items, paragraphs and sentences. */
module ParserLaws {
  import opened Prelude
  import opened Text
  import opened SpecParser

  // ---------------------------------------------------------------- headings

  predicate AllMarks(s: string) {
    forall i :: 0 <= i < |s| ==> s[i] in {'#', '>', '*', '-'} || IsSpace(s[i])
  }

  lemma {:induction false} DropMarksPrefix(p: string, s: string)
    requires AllMarks(p)
    ensures DropMarks(p + s) == DropMarks(s)
  {
    if p == "" {
      assert p + s == s;
    } else {
      assert (p + s)[1..] == p[1..] + s;
      DropMarksPrefix(p[1..], s);
    }
  }

  lemma StripPadded(name: string, q: string)
    requires name != "" && Trim(name) && Blank(q)
    ensures Strip(name + q) == name
  {
    assert (name + q)[0] == name[0];
    StripRightBlank(name, q);
  }

  /** Decoration does not matter: any marks before a name, blanks after it, and one colon
      directly after it leave the heading the lower-cased name. */
  lemma DecoratedHeading(marks: string, name: string, colon: bool, blanks: string)
    requires AllMarks(marks) && Blank(blanks)
    requires name != "" && Trim(name) && name[0] !in {'#', '>', '*', '-'} && (colon || name[|name| - 1] != ':')
    ensures NormalizeHeading(marks + (name + (if colon then ":" else "") + blanks)) == Lower(name)
  {
    var shown := name + if colon then ":" else "";
    DropMarksPrefix(marks, shown + blanks);
    assert (shown + blanks)[0] == name[0];
    StripPadded(shown, blanks);
    assert DropColon(shown) == name;
  }

  // ---------------------------------------------------------------- list items

  predicate AllDigits(s: string) {
    forall i :: 0 <= i < |s| ==> IsDigit(s[i])
  }

  /** One of `-`, `*`, `+`, or digits and a full stop. */
  predicate Marker(m: string) {
    || m == "-" || m == "*" || m == "+"
    || (|m| > 1 && AllDigits(m[..|m| - 1]) && m[|m| - 1] == '.')
  }

  /** A checkbox with something after it. */
  predicate Checkbox(s: string) {
    |s| > 3 && s[..3] in {"[ ]", "[x]", "[X]"}
  }

  /** What stands behind the optional checkbox. */
  function AfterBox(s: string): string {
    if Checkbox(s) then s[3..] else s
  }

  lemma BoxedMeans(s: string)
    ensures Boxed(s) <==> Checkbox(s)
  {
    if |s| > 3 {
      var b := s[..3];
      assert b[0] == s[0] && b[1] == s[1] && b[2] == s[2];
      assert Boxed(s) ==> b == "[ ]" || b == "[x]" || b == "[X]";
    }
  }

  /** A list item's line, part by part: indentation, marker, gap, and the rest with its optional checkbox. */
  ghost predicate ItemLine(line: string, indent: string, marker: string, gap: string, rest: string) {
    && line == indent + (marker + (gap + rest))
    && Blank(indent) && Marker(marker) && gap != "" && Blank(gap)
    && rest != "" && !IsSpace(rest[0])
  }

  lemma {:induction false} DigitRunOf(d: string, s: string)
    requires AllDigits(d) && s != "" && !IsDigit(s[0])
    ensures DigitRun(d + s) == |d|
  {
    if d == "" {
      assert d + s == s;
    } else {
      assert (d + s)[1..] == d[1..] + s;
      DigitRunOf(d[1..], s);
    }
  }

  lemma MarkerInk(marker: string)
    requires Marker(marker)
    ensures !IsSpace(marker[0])
  {
    if |marker| > 1 {
      assert marker[0] == marker[..|marker| - 1][0];
      DigitIsInk(marker[0]);
    }
  }

  lemma AfterMarkerOf(marker: string, s: string)
    requires Marker(marker)
    ensures AfterMarker(marker + s) == Some(s)
  {
    if |marker| == 1 {
      assert (marker + s)[1..] == s;
    } else {
      var d := marker[..|marker| - 1];
      assert marker + s == d + ("." + s);
      DigitRunOf(d, "." + s);
      assert IsDigit(d[0]);
      assert (marker + s)[|d| + 1..] == s;
    }
  }

  lemma StripLeftGap(gap: string, rest: string)
    requires Blank(gap) && rest != "" && !IsSpace(rest[0])
    ensures StripLeft(gap + rest) == rest
  {
    StripLeftBlank(gap, rest);
  }

  /** What a line of the form of a list item parses to. */
  lemma ItemLineParses(line: string, indent: string, marker: string, gap: string, rest: string)
    requires ItemLine(line, indent, marker, gap, rest)
    ensures ParseItem(line)
            == if Blank(AfterBox(rest)) then None else Some(ListItem(Checkbox(rest), NormalizeLine(AfterBox(rest))))
  {
    BoxedMeans(rest);
    MarkerInk(marker);
    StripLeftGap(indent, marker + (gap + rest));
    AfterMarkerOf(marker, gap + rest);
    StripLeftGap(gap, rest);
    NormalizeLineCanonical(AfterBox(rest));
  }

  lemma {:induction false} DigitRunDigits(s: string)
    ensures DigitRun(s) <= |s| && AllDigits(s[..DigitRun(s)])
  {
    if s != "" && IsDigit(s[0]) {
      DigitRunDigits(s[1..]);
      assert forall i :: 0 < i < DigitRun(s) ==> s[i] == s[1..][i - 1];
    }
  }

  lemma MarkerOf(s: string) returns (marker: string)
    requires AfterMarker(s).Some?
    ensures Marker(marker) && s == marker + AfterMarker(s).value
  {
    if IsBullet(s[0]) {
      marker := s[..1];
    } else {
      DigitRunDigits(s);
      var n := DigitRun(s);
      marker := s[..n + 1];
      assert marker[..n] == s[..n];
    }
  }

  /** A line gives an item exactly when it has the form of a list item with something after its checkbox. */
  lemma ItemExact(line: string)
    ensures ParseItem(line).Some? <==>
              exists indent, marker, gap, rest :: ItemLine(line, indent, marker, gap, rest) && !Blank(AfterBox(rest))
  {
    if ParseItem(line).Some? {
      var indent, marker, gap, rest := FormOf(line);
      ItemLineParses(line, indent, marker, gap, rest);
    }
    if indent, marker, gap, rest :| ItemLine(line, indent, marker, gap, rest) && !Blank(AfterBox(rest)) {
      ItemLineParses(line, indent, marker, gap, rest);
    }
  }

  /** With the checkbox required, a line gives its item exactly when it has one; otherwise it gives it in any case. */
  lemma ItemUnderFlag(line: string, indent: string, marker: string, gap: string, rest: string)
    requires ItemLine(line, indent, marker, gap, rest)
    ensures ItemOf(line, true) == if Checkbox(rest) && !Blank(rest[3..]) then Some(NormalizeLine(rest[3..])) else None
    ensures ItemOf(line, false) == if Blank(AfterBox(rest)) then None else Some(NormalizeLine(AfterBox(rest)))
  {
    ItemLineParses(line, indent, marker, gap, rest);
  }

  lemma GapOf(after: string) returns (gap: string, rest: string)
    requires after != "" && IsSpace(after[0]) && StripLeft(after) != ""
    ensures after == gap + rest && rest == StripLeft(after) && gap != "" && Blank(gap) && !IsSpace(rest[0])
  {
    StripLeftIsSuffix(after);
    rest := StripLeft(after);
    gap := after[..|after| - |rest|];
  }

  lemma IndentOf(line: string) returns (indent: string)
    ensures line == indent + StripLeft(line) && Blank(indent)
  {
    StripLeftIsSuffix(line);
    indent := line[..|line| - |StripLeft(line)|];
  }

  lemma ParsedParts(line: string)
    requires ParseItem(line).Some?
    ensures var after := AfterMarker(StripLeft(line));
            after.Some? && after.value != "" && IsSpace(after.value[0]) && StripLeft(after.value) != ""
  {
    var rest := StripLeft(AfterMarker(StripLeft(line)).value);
    NormalizeLineCanonical(rest);
  }

  lemma FormOf(line: string) returns (indent: string, marker: string, gap: string, rest: string)
    requires ParseItem(line).Some?
    ensures ItemLine(line, indent, marker, gap, rest)
  {
    ParsedParts(line);
    indent := IndentOf(line);
    marker := MarkerOf(StripLeft(line));
    gap, rest := GapOf(AfterMarker(StripLeft(line)).value);
  }

  // ---------------------------------------------------------------- paragraphs and sentences

  function JoinParagraphs(ps: seq<string>): string {
    if ps == [] then ""
    else if |ps| == 1 then ps[0]
    else ps[0] + "\n\n" + JoinParagraphs(ps[1..])
  }

  /** Splitting into paragraphs loses nothing. */
  lemma {:induction false} ParagraphsRejoin(s: string)
    ensures JoinParagraphs(SplitParagraphs(s)) == s
    decreases |s|
  {
    if s == "" {
    } else if |s| > 1 && s[0] == '\n' && s[1] == '\n' {
      ParagraphsRejoin(s[2..]);
      var ps := SplitParagraphs(s[2..]);
      assert ([""] + ps)[1..] == ps;
      assert "" + "\n\n" + s[2..] == s;
    } else {
      ParagraphsRejoin(s[1..]);
      PrependChar(s[0], SplitParagraphs(s[1..]));
    }
  }

  lemma PrependChar(c: char, ps: seq<string>)
    requires ps != []
    ensures JoinParagraphs([[c] + ps[0]] + ps[1..]) == [c] + JoinParagraphs(ps)
  {
    var qs := [[c] + ps[0]] + ps[1..];
    assert qs[1..] == ps[1..];
    if |ps| > 1 {
      assert ([c] + ps[0]) + "\n\n" + JoinParagraphs(ps[1..]) == [c] + (ps[0] + "\n\n" + JoinParagraphs(ps[1..]));
    }
  }

  predicate NoBlankLine(p: string) {
    forall i :: 0 <= i && i + 1 < |p| ==> !(p[i] == '\n' && p[i + 1] == '\n')
  }

  /** A separator is taken as early as possible: no paragraph before the last ends in a newline. */
  lemma {:induction false} ParagraphsEarly(s: string, k: nat)
    requires k < |SplitParagraphs(s)| - 1
    ensures var p := SplitParagraphs(s)[k]; p != "" ==> p[|p| - 1] != '\n'
    decreases |s|
  {
    if |s| > 1 && s[0] == '\n' && s[1] == '\n' {
      if k > 0 { ParagraphsEarly(s[2..], k - 1); }
    } else {
      ParagraphsEarly(s[1..], k);
      if k == 0 && SplitParagraphs(s[1..])[0] == "" {
        FirstEmpty(s[1..]);
      }
    }
  }

  /** An empty paragraph in front of another one stands before a separator. */
  lemma FirstEmpty(s: string)
    requires |SplitParagraphs(s)| > 1 && SplitParagraphs(s)[0] == ""
    ensures |s| > 1 && s[0] == '\n' && s[1] == '\n'
  {
  }

  /** No paragraph holds the separator. */
  lemma {:induction false} ParagraphsPlain(s: string)
    ensures forall k :: 0 <= k < |SplitParagraphs(s)| ==> NoBlankLine(SplitParagraphs(s)[k])
    ensures SplitParagraphs(s)[0] <= s
    decreases |s|
  {
    if s == "" {
    } else if |s| > 1 && s[0] == '\n' && s[1] == '\n' {
      ParagraphsPlain(s[2..]);
    } else {
      ParagraphsPlain(s[1..]);
      var ps := SplitParagraphs(s[1..]);
      var first := [s[0]] + ps[0];
      assert NoBlankLine(ps[0]);
      assert ps[0] != "" ==> ps[0][0] == s[1];
      forall i | 0 <= i && i + 1 < |first| ensures !(first[i] == '\n' && first[i + 1] == '\n') {
        if i > 0 { assert first[i] == ps[0][i - 1] && first[i + 1] == ps[0][i]; }
      }
    }
  }

  function Concat(ss: seq<string>): string {
    if ss == [] then "" else ss[0] + Concat(ss[1..])
  }

  predicate EndsInStop(s: string) {
    s != "" && s[|s| - 1] in {'.', '!', '?'}
  }

  lemma InkCons(c: char, s: string, t: string)
    requires Ink(s) == Ink(t)
    ensures Ink([c] + s) == Ink([c] + t)
  {
    InkAppend([c], s);
    InkAppend([c], t);
  }

  lemma ConcatCons(c: char, ss: seq<string>)
    requires ss != []
    ensures Concat([[c]] + ss) == [c] + Concat(ss) && Concat([[c] + ss[0]] + ss[1..]) == [c] + Concat(ss)
  {
    assert ([[c]] + ss)[1..] == ss && ([[c] + ss[0]] + ss[1..])[1..] == ss[1..];
    assert ([c] + ss[0]) + Concat(ss[1..]) == [c] + Concat(ss);
  }

  /** Splitting into sentences loses only white space. */
  lemma {:induction false} SentencesKeepInk(s: string)
    ensures Ink(Concat(SplitSentences(s))) == Ink(s)
    decreases |s|
  {
    if s != "" {
      var c, rest := s[0], s[1..];
      assert s == [c] + rest;
      if |s| > 1 && IsStop(c) && IsSpace(s[1]) {
        StripLeftIsSuffix(rest);
        var t := StripLeft(rest);
        SentencesKeepInk(t);
        InkStripLeft(rest);
        ConcatCons(c, SplitSentences(t));
        InkCons(c, Concat(SplitSentences(t)), rest);
      } else {
        SentencesKeepInk(rest);
        ConcatCons(c, SplitSentences(rest));
        InkCons(c, Concat(SplitSentences(rest)), rest);
      }
    }
  }

  /** It cuts only after `.`, `!` or `?`: every sentence but the last ends in one of them. */
  lemma {:induction false} SentencesEndInStop(s: string, k: nat)
    requires k < |SplitSentences(s)| - 1
    ensures EndsInStop(SplitSentences(s)[k])
    decreases |s|
  {
    if |s| > 1 && IsStop(s[0]) && IsSpace(s[1]) {
      StripLeftIsSuffix(s[1..]);
      if k > 0 { SentencesEndInStop(StripLeft(s[1..]), k - 1); }
    } else {
      SentencesEndInStop(s[1..], k);
    }
  }

  /** The sentences with the gaps between them. */
  function Woven(ss: seq<string>, gaps: seq<string>): string
    requires |ss| == |gaps| + 1
  {
    if gaps == [] then ss[0] else ss[0] + gaps[0] + Woven(ss[1..], gaps[1..])
  }

  /** No stop is followed by white space. */
  predicate Unbroken(s: string) {
    forall i :: 0 <= i && i + 1 < |s| && s[i] in {'.', '!', '?'} ==> !IsSpace(s[i + 1])
  }

  /** The split at every run of white space behind a stop: sentences without such a place, between gaps of white
      space that are taken whole. */
  ghost predicate SplitAtStops(s: string, ss: seq<string>, gaps: seq<string>) {
    && |ss| == |gaps| + 1 && s == Woven(ss, gaps)
    && (forall k :: 0 <= k < |ss| ==> Unbroken(ss[k]))
    && (forall k :: 0 <= k < |gaps| ==> gaps[k] != "" && Blank(gaps[k]) && EndsInStop(ss[k]))
    && (forall k :: 0 < k < |ss| && ss[k] != "" ==> !IsSpace(ss[k][0]))
  }

  lemma WovenFirst(c: char, s: string, ss: seq<string>, gaps: seq<string>)
    requires SplitAtStops(s, ss, gaps) && (s != "" && c in {'.', '!', '?'} ==> !IsSpace(s[0]))
    ensures SplitAtStops([c] + s, [[c] + ss[0]] + ss[1..], gaps)
  {
    var tt := [[c] + ss[0]] + ss[1..];
    assert tt[1..] == ss[1..];
    if gaps == [] {
      assert Woven(tt, gaps) == [c] + s;
    } else {
      assert Woven(tt, gaps) == ([c] + ss[0]) + gaps[0] + Woven(ss[1..], gaps[1..]);
      assert Woven(tt, gaps) == [c] + s;
    }
    assert ss[0] != "" ==> s != "" && s[0] == ss[0][0];
    forall i | 0 <= i && i + 1 < |tt[0]| && tt[0][i] in {'.', '!', '?'} ensures !IsSpace(tt[0][i + 1]) {
      assert i > 0 ==> tt[0][i] == ss[0][i - 1];
    }
    forall k | 0 <= k < |gaps| ensures EndsInStop(tt[k]) {
      assert k == 0 ==> tt[0][|tt[0]| - 1] == ss[0][|ss[0]| - 1];
    }
  }

  lemma WovenSplit(c: char, gap: string, s: string, ss: seq<string>, gaps: seq<string>)
    requires SplitAtStops(s, ss, gaps) && c in {'.', '!', '?'}
    requires gap != "" && Blank(gap) && (s != "" ==> !IsSpace(s[0]))
    ensures SplitAtStops([c] + gap + s, [[c]] + ss, [gap] + gaps)
  {
    var tt, hs := [[c]] + ss, [gap] + gaps;
    assert tt[1..] == ss && hs[1..] == gaps;
    assert Woven(tt, hs) == [c] + gap + s;
    assert ss[0] != "" ==> s != "" && s[0] == ss[0][0];
    forall k | 0 < k < |tt| && tt[k] != "" ensures !IsSpace(tt[k][0]) {
      assert tt[k] == ss[k - 1];
    }
    forall k | 0 <= k < |hs| ensures hs[k] != "" && Blank(hs[k]) && EndsInStop(tt[k]) {
      assert k > 0 ==> hs[k] == gaps[k - 1] && tt[k] == ss[k - 1];
    }
  }

  /** Sentences and gaps in turn give the text back, and every place to split is used. */
  lemma {:induction false} SentencesExact(s: string) returns (gaps: seq<string>)
    ensures SplitAtStops(s, SplitSentences(s), gaps)
    decreases |s|
  {
    gaps := [];
    if s != "" {
      var c, rest := s[0], s[1..];
      assert s == [c] + rest;
      if |s| > 1 && IsStop(c) && IsSpace(s[1]) {
        StripLeftIsSuffix(rest);
        var t := StripLeft(rest);
        var gap := rest[..|rest| - |t|];
        assert rest == gap + t && s == [c] + gap + t;
        gaps := SentencesExact(t);
        WovenSplit(c, gap, t, SplitSentences(t), gaps);
        gaps := [gap] + gaps;
      } else {
        gaps := SentencesExact(rest);
        WovenFirst(c, rest, SplitSentences(rest), gaps);
      }
    }
  }

  lemma InkStripLeft(s: string)
    ensures Ink(StripLeft(s)) == Ink(s)
  {
    StripLeftIsSuffix(s);
    var n := |s| - |StripLeft(s)|;
    assert s == s[..n] + s[n..];
    InkAppend(s[..n], s[n..]);
    InkEmpty(s[..n]);
  }

  // ---------------------------------------------------------------- obligations

  predicate OccursAt(s: string, t: string, i: nat) {
    i + |t| <= |s| && s[i..i + |t|] == t
  }

  lemma {:induction false} ContainsMeans(s: string, t: string)
    ensures Contains(s, t) <==> exists i: nat :: OccursAt(s, t, i)
  {
    if |t| <= |s| && s != "" {
      var rest := s[1..];
      ContainsMeans(rest, t);
      if i: nat :| OccursAt(s, t, i) && i > 0 {
        assert rest[i - 1..i - 1 + |t|] == s[i..i + |t|];
        assert OccursAt(rest, t, i - 1);
      }
      if i: nat :| OccursAt(rest, t, i) {
        assert s[i + 1..i + 1 + |t|] == rest[i..i + |t|];
        assert OccursAt(s, t, i + 1);
      }
    }
    if Contains(s, t) && s[..|t|] == t {
      assert OccursAt(s, t, 0);
    }
  }

  /** A sentence states an obligation exactly when it is not empty and one of the four tokens occurs
      somewhere in it, whatever the case. */
  lemma ObligationMeans(s: string)
    ensures IsObligation(s) <==>
              && s != ""
              && exists t, i: nat :: t in {"must ", "should ", "need to ", "needs to "} && OccursAt(Lower(s), t, i)
  {
    assert OBLIGATION_TOKENS[0] == "must " && OBLIGATION_TOKENS[1] == "should ";
    assert OBLIGATION_TOKENS[2] == "need to " && OBLIGATION_TOKENS[3] == "needs to ";
    if IsObligation(s) {
      var k :| 0 <= k < |OBLIGATION_TOKENS| && Contains(Lower(s), OBLIGATION_TOKENS[k]);
      ContainsMeans(Lower(s), OBLIGATION_TOKENS[k]);
      assert OBLIGATION_TOKENS[k] in {"must ", "should ", "need to ", "needs to "};
    }
    if t, i: nat :| t in {"must ", "should ", "need to ", "needs to "} && OccursAt(Lower(s), t, i) {
      ContainsMeans(Lower(s), t);
      assert exists k :: 0 <= k < |OBLIGATION_TOKENS| && OBLIGATION_TOKENS[k] == t;
    }
  }

  ghost predicate Stated(ss: seq<string>, t: string) {
    exists k :: 0 <= k < |ss| && Strip(ss[k]) == t
  }

  lemma StatedSnoc(ss: seq<string>, t: string)
    requires ss != []
    ensures Stated(ss, t) <==> Stated(ss[..|ss| - 1], t) || Strip(ss[|ss| - 1]) == t
  {
    var n := |ss| - 1;
    if k :| 0 <= k < n && Strip(ss[..n][k]) == t {
      assert Strip(ss[k]) == t;
    }
    if k :| 0 <= k < n && Strip(ss[k]) == t {
      assert Strip(ss[..n][k]) == t;
    }
  }

  /** The fallback lists the stripped sentences that state an obligation, and nothing else. */
  lemma {:induction false} ObligationExact(ss: seq<string>, t: string)
    ensures t in Obligations(ss) <==> IsObligation(t) && Stated(ss, t)
  {
    if ss != [] {
      ObligationExact(ss[..|ss| - 1], t);
      StatedSnoc(ss, t);
    }
  }
}
