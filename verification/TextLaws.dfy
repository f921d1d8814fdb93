/** Independent readings of the text functions: lines and their breaks, newline conventions, words. */
module TextLaws {
  import opened Text

  // ---------------------------------------------------------------- lines and breaks

  /** A line break: the two-character one, or any break character. */
  predicate LineBreak(b: string) {
    b == "\r\n" || (|b| == 1 && IsBreak(b[0]))
  }

  /** Lines and breaks in turn; the last line may go without a break. */
  function Interleave(lines: seq<string>, breaks: seq<string>): string {
    if lines == [] then ""
    else if breaks == [] then lines[0]
    else lines[0] + breaks[0] + Interleave(lines[1..], breaks[1..])
  }

  /** No carriage return is taken alone when a newline follows it. */
  ghost predicate Whole(lines: seq<string>, breaks: seq<string>) {
    forall i :: 0 <= i && i + 1 < |breaks| && i + 1 < |lines| && breaks[i] == "\r" && lines[i + 1] == "" ==>
        breaks[i + 1] != "\n"
  }

  /** Only the last line may lack a break, when it is not empty. */
  ghost predicate Rejoins(s: string, lines: seq<string>, breaks: seq<string>) {
    && Interleave(lines, breaks) == s
    && (|lines| == |breaks| || (|lines| == |breaks| + 1 && lines[|breaks|] != ""))
    && forall i :: 0 <= i < |breaks| ==> LineBreak(breaks[i])
  }

  lemma RejoinsNext(head: string, b: string, rest: string, lines: seq<string>, breaks: seq<string>)
    requires Rejoins(rest, lines, breaks) && LineBreak(b)
    ensures Rejoins(head + b + rest, [head] + lines, [b] + breaks)
  {
    assert ([head] + lines)[1..] == lines && ([b] + breaks)[1..] == breaks;
  }

  lemma WholeNext(head: string, b: string, rest: string, lines: seq<string>, breaks: seq<string>)
    requires Rejoins(rest, lines, breaks) && Whole(lines, breaks)
    requires b == "\r" && rest != "" ==> rest[0] != '\n'
    ensures Whole([head] + lines, [b] + breaks)
  {
    if b == "\r" && lines != [] && breaks != [] && lines[0] == "" {
      assert rest == breaks[0] + Interleave(lines[1..], breaks[1..]);
    }
  }

  lemma FirstBreak(s: string)
    requires s != "" && IsBreak(s[0])
    ensures var k := BreakLength(s);
            LineBreak(s[..k]) && (s[..k] == "\r" && s[k..] != "" ==> s[k..][0] != '\n')
  {
  }

  /** `splitlines` cuts a text at its breaks and loses nothing else: lines and breaks in turn give the text back,
      no line holds a break character, and "\r\n" is never taken for two breaks. */
  lemma {:induction false} LinesRejoin(s: string) returns (breaks: seq<string>)
    ensures Rejoins(s, SplitLines(s), breaks) && Whole(SplitLines(s), breaks) && AllOneLine(SplitLines(s))
    decreases |s|
  {
    SplitLinesOneLine(s);
    LineEndWithin(s);
    var n := LineEnd(s);
    if n == |s| {
      breaks := [];
    } else {
      var tail := s[n..];
      var k := BreakLength(tail);
      FirstBreak(tail);
      assert s[n + k..] == tail[k..] && s == s[..n] + tail[..k] + tail[k..];
      var more := LinesRejoin(tail[k..]);
      breaks := [tail[..k]] + more;
      RejoinsNext(s[..n], tail[..k], tail[k..], SplitLines(tail[k..]), more);
      WholeNext(s[..n], tail[..k], tail[k..], SplitLines(tail[k..]), more);
    }
  }

  // ---------------------------------------------------------------- newline conventions

  function Terminated(lines: seq<string>, end: string): string {
    if lines == [] then "" else lines[0] + end + Terminated(lines[1..], end)
  }

  lemma {:induction false} CrLfLine(line: string, t: string)
    requires OneLine(line)
    ensures ReplaceCrLf(line + "\r\n" + t) == line + "\n" + ReplaceCrLf(t)
  {
    var s := line + "\r\n" + t;
    if line == "" {
      assert s == "\r\n" + t && s[2..] == t;
      assert "" + "\n" + ReplaceCrLf(t) == "\n" + ReplaceCrLf(t);
    } else {
      assert s[1..] == line[1..] + "\r\n" + t;
      CrLfLine(line[1..], t);
    }
  }

  lemma {:induction false} CrLine(line: string, t: string)
    requires OneLine(line) && (t != "" ==> t[0] != '\n')
    ensures ReplaceCrLf(line + "\r" + t) == line + "\r" + ReplaceCrLf(t)
  {
    var s := line + "\r" + t;
    if line == "" {
      assert s == "\r" + t && s[1..] == t;
      assert "" + "\r" + ReplaceCrLf(t) == "\r" + ReplaceCrLf(t);
    } else {
      assert s[1..] == line[1..] + "\r" + t;
      CrLine(line[1..], t);
    }
  }

  lemma {:induction false} CrLfTerminated(lines: seq<string>)
    requires AllOneLine(lines)
    ensures ReplaceCrLf(Terminated(lines, "\r\n")) == Terminated(lines, "\n")
  {
    if lines != [] {
      assert OneLine(lines[0]);
      CrLfLine(lines[0], Terminated(lines[1..], "\r\n"));
      CrLfTerminated(lines[1..]);
    }
  }

  lemma {:induction false} CrTerminated(lines: seq<string>)
    requires AllOneLine(lines)
    ensures ReplaceCrLf(Terminated(lines, "\r")) == Terminated(lines, "\r")
    ensures Terminated(lines, "\r") != "" ==> Terminated(lines, "\r")[0] != '\n'
  {
    if lines != [] {
      assert OneLine(lines[0]);
      CrTerminated(lines[1..]);
      CrLine(lines[0], Terminated(lines[1..], "\r"));
    }
  }

  lemma CrReplaced(line: string, t: string)
    requires OneLine(line)
    ensures ReplaceCr(line + "\r" + t) == line + "\n" + ReplaceCr(t)
  {
  }

  lemma {:induction false} CrBecomesNewline(lines: seq<string>)
    requires AllOneLine(lines)
    ensures ReplaceCr(Terminated(lines, "\r")) == Terminated(lines, "\n")
  {
    if lines == [] {
      assert ReplaceCr("") == "";
    } else {
      assert OneLine(lines[0]);
      CrBecomesNewline(lines[1..]);
      CrReplaced(lines[0], Terminated(lines[1..], "\r"));
    }
  }

  lemma {:induction false} NewlineTerminated(lines: seq<string>)
    requires AllOneLine(lines)
    ensures NoReturn(Terminated(lines, "\n"))
  {
    if lines != [] {
      assert OneLine(lines[0]);
      NewlineTerminated(lines[1..]);
    }
  }

  /** Normalised text does not depend on the newline convention it came in. */
  lemma NewlineConventions(lines: seq<string>)
    requires AllOneLine(lines)
    ensures NormalizeText(Terminated(lines, "\r\n")) == NormalizeText(Terminated(lines, "\n"))
    ensures NormalizeText(Terminated(lines, "\r")) == NormalizeText(Terminated(lines, "\n"))
  {
    var t := Terminated(lines, "\n");
    CrLfTerminated(lines);
    CrTerminated(lines);
    CrBecomesNewline(lines);
    NewlineTerminated(lines);
    CrLfIdentity(t);
    assert ReplaceCr(t) == t;
  }

  // ---------------------------------------------------------------- words

  function WordLength(s: string): nat {
    if s == "" || IsSpace(s[0]) then 0 else 1 + WordLength(s[1..])
  }

  lemma {:induction false} WordLengthWithin(s: string)
    ensures WordLength(s) <= |s| && forall i :: 0 <= i < WordLength(s) ==> !IsSpace(s[i])
    ensures WordLength(s) < |s| ==> IsSpace(s[WordLength(s)])
  {
    if s != "" && !IsSpace(s[0]) {
      WordLengthWithin(s[1..]);
      assert forall i :: 0 < i < WordLength(s) ==> s[i] == s[1..][i - 1];
    }
  }

  /** `s.split()`: the maximal runs without white space. */
  function Words(s: string): seq<string>
    decreases |s|
  {
    StripLeftIsSuffix(s);
    var t := StripLeft(s);
    if t == "" then []
    else
      WordLengthWithin(t);
      [t[..WordLength(t)]] + Words(t[WordLength(t)..])
  }

  /** `" ".join(words)`. */
  function Unwords(words: seq<string>): string {
    if words == [] then ""
    else if |words| == 1 then words[0]
    else words[0] + " " + Unwords(words[1..])
  }

  predicate NoSpace(w: string) {
    forall i :: 0 <= i < |w| ==> !IsSpace(w[i])
  }

  lemma {:induction false} CollapseWord(w: string, u: string)
    requires NoSpace(w)
    ensures CollapseSpace(w + u, false) == w + CollapseSpace(u, false)
  {
    if w == "" {
      assert w + u == u;
    } else {
      assert (w + u)[1..] == w[1..] + u;
      CollapseWord(w[1..], u);
    }
  }

  lemma {:induction false} CollapseRun(u: string)
    ensures CollapseSpace(u, true) == CollapseSpace(StripLeft(u), false)
  {
    if u != "" && IsSpace(u[0]) { CollapseRun(u[1..]); }
  }

  lemma {:induction false} WordsOfTrimmed(t: string)
    requires t != "" && Trim(t)
    ensures CollapseSpace(t, false) == Unwords(Words(t))
    decreases |t|
  {
    WordLengthWithin(t);
    var n := WordLength(t);
    var w, u := t[..n], t[n..];
    assert t == w + u;
    CollapseWord(w, u);
    if u == "" {
      assert Words(t) == [w];
    } else {
      StripLeftIsSuffix(u);
      var rest := StripLeft(u);
      assert u[|u| - 1] == t[|t| - 1];
      InkAtEnd(u);
      CollapseRun(u[1..]);
      WordsOfTrimmed(rest);
      assert Words(u) == Words(rest) && Words(rest) != [];
      assert w + (" " + CollapseSpace(rest, false)) == w + " " + CollapseSpace(rest, false);
      assert Words(t)[1..] == Words(u);
    }
  }

  lemma InkAtEnd(u: string)
    requires u != "" && IsSpace(u[0]) && !IsSpace(u[|u| - 1])
    ensures var rest := StripLeft(u);
            rest != "" && rest == StripLeft(u[1..]) && |rest| < |u| && Trim(rest) && StripLeft(rest) == rest
  {
    StripLeftIsSuffix(u);
    var rest := StripLeft(u);
    assert u[..|u|] == u;
    assert rest[|rest| - 1] == u[|u| - 1];
  }

  lemma WordsStep(t: string)
    requires t != "" && !IsSpace(t[0])
    ensures WordLength(t) <= |t| && WordLength(t) > 0 && Words(t) == [t[..WordLength(t)]] + Words(t[WordLength(t)..])
  {
    WordLengthWithin(t);
    assert StripLeft(t) == t;
  }

  lemma WordsOfInk(s: string, b: string)
    requires !Blank(s)
    ensures var t := StripLeft(s);
            Words(s + b) == Words(t + b) && t != "" && |t| <= |s| && !IsSpace(t[0])
  {
    StripLeftInk(s, b);
    StripLeftIsSuffix(s);
    assert StripLeft(StripLeft(s) + b) == StripLeft(s) + b;
  }

  lemma WordsOfBlank(b: string)
    requires Blank(b)
    ensures Words(b) == []
  {
    StripLeftBlank(b, "");
    assert b + "" == b;
  }

  lemma {:induction false} WordsAppendBlank(s: string, b: string)
    requires Blank(b)
    ensures Words(s + b) == Words(s)
    decreases |s|
  {
    if Blank(s) {
      WordsOfBlank(s + b);
      WordsOfBlank(s);
    } else {
      var t := StripLeft(s);
      WordsOfInk(s, b);
      WordsOfInk(s, "");
      assert s + "" == s && t + "" == t;
      WordLengthAppend(t, b);
      WordsStep(t);
      WordsStep(t + b);
      var n := WordLength(t);
      assert (t + b)[..n] == t[..n] && (t + b)[n..] == t[n..] + b;
      WordsAppendBlank(t[n..], b);
    }
  }

  lemma {:induction false} WordLengthAppend(t: string, b: string)
    requires Blank(b)
    ensures WordLength(t + b) == WordLength(t)
  {
    if t == "" {
      assert t + b == b;
    } else {
      assert (t + b)[1..] == t[1..] + b;
      WordLengthAppend(t[1..], b);
    }
  }

  lemma WordsPrependBlank(b: string, s: string)
    requires Blank(b)
    ensures Words(b + s) == Words(s)
  {
    StripLeftBlank(b, s);
  }

  /** Normalising a line is splitting it into words and joining them by single blanks. */
  lemma NormalizeLineIsWords(s: string)
    ensures NormalizeLine(s) == Unwords(Words(s))
  {
    var i, j := StripIsSlice(s);
    var t := s[i..j];
    assert s == (s[..i] + t) + s[j..];
    WordsAppendBlank(s[..i] + t, s[j..]);
    WordsPrependBlank(s[..i], t);
    if t != "" { WordsOfTrimmed(t); }
  }
}
