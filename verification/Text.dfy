/** Python's string operations the intake bridge uses, as explicit functions on sequences of characters. */
module Text {
  // ---------------------------------------------------------------- character classes

  /** `str.isspace` of one character, which is also `\s`. */
  predicate IsSpace(c: char) {
    var n := c as int;
    || 0x09 <= n <= 0x0D || 0x1C <= n <= 0x20 || n == 0x85 || n == 0xA0 || n == 0x1680
    || 0x2000 <= n <= 0x200A || n == 0x2028 || n == 0x2029 || n == 0x202F || n == 0x205F || n == 0x3000
  }

  /** The characters at which `str.splitlines` splits. All of them are white space. */
  predicate IsBreak(c: char) {
    var n := c as int;
    0x0A <= n <= 0x0D || 0x1C <= n <= 0x1E || n == 0x85 || n == 0x2028 || n == 0x2029
  }

  /** `\d`. */
  predicate IsDigit(c: char) {
    '0' <= c <= '9' || (c as int >= 0x660 && (WideDigit(c as int) || AstralDigit(c as int)))
  }

  /** The blocks of ten decimal digits of the basic plane, beyond ASCII. */
  predicate WideDigit(n: int) {
    || 0x660 <= n < 0x66a || 0x6f0 <= n < 0x6fa || 0x7c0 <= n < 0x7ca || 0x966 <= n < 0x970 || 0x9e6 <= n < 0x9f0
    || 0xa66 <= n < 0xa70 || 0xae6 <= n < 0xaf0 || 0xb66 <= n < 0xb70 || 0xbe6 <= n < 0xbf0 || 0xc66 <= n < 0xc70
    || 0xce6 <= n < 0xcf0 || 0xd66 <= n < 0xd70 || 0xde6 <= n < 0xdf0 || 0xe50 <= n < 0xe5a || 0xed0 <= n < 0xeda
    || 0xf20 <= n < 0xf2a || 0x1040 <= n < 0x104a || 0x1090 <= n < 0x109a || 0x17e0 <= n < 0x17ea
    || 0x1810 <= n < 0x181a || 0x1946 <= n < 0x1950 || 0x19d0 <= n < 0x19da || 0x1a80 <= n < 0x1a8a
    || 0x1a90 <= n < 0x1a9a || 0x1b50 <= n < 0x1b5a || 0x1bb0 <= n < 0x1bba || 0x1c40 <= n < 0x1c4a
    || 0x1c50 <= n < 0x1c5a || 0xa620 <= n < 0xa62a || 0xa8d0 <= n < 0xa8da || 0xa900 <= n < 0xa90a
    || 0xa9d0 <= n < 0xa9da || 0xa9f0 <= n < 0xa9fa || 0xaa50 <= n < 0xaa5a || 0xabf0 <= n < 0xabfa
    || 0xff10 <= n < 0xff1a
  }

  /** Those of the other planes. */
  predicate AstralDigit(n: int) {
    || 0x104a0 <= n < 0x104aa || 0x10d30 <= n < 0x10d3a || 0x11066 <= n < 0x11070 || 0x110f0 <= n < 0x110fa
    || 0x11136 <= n < 0x11140 || 0x111d0 <= n < 0x111da || 0x112f0 <= n < 0x112fa || 0x11450 <= n < 0x1145a
    || 0x114d0 <= n < 0x114da || 0x11650 <= n < 0x1165a || 0x116c0 <= n < 0x116ca || 0x11730 <= n < 0x1173a
    || 0x118e0 <= n < 0x118ea || 0x11950 <= n < 0x1195a || 0x11c50 <= n < 0x11c5a || 0x11d50 <= n < 0x11d5a
    || 0x11da0 <= n < 0x11daa || 0x16a60 <= n < 0x16a6a || 0x16ac0 <= n < 0x16aca || 0x16b50 <= n < 0x16b5a
    || 0x1d7ce <= n < 0x1d7d8 || 0x1d7d8 <= n < 0x1d7e2 || 0x1d7e2 <= n < 0x1d7ec || 0x1d7ec <= n < 0x1d7f6
    || 0x1d7f6 <= n < 0x1d800 || 0x1e140 <= n < 0x1e14a || 0x1e2f0 <= n < 0x1e2fa || 0x1e950 <= n < 0x1e95a
    || 0x1fbf0 <= n < 0x1fbfa
  }

  /** White space, character by character. */
  lemma SpaceTable(c: char)
    ensures IsSpace(c) <==>
              || c in {'\t', '\n', '\U{B}', '\U{C}', '\r', '\U{1C}', '\U{1D}', '\U{1E}', '\U{1F}'}
              || c in {' ', '\U{85}', '\U{A0}'}
              || c in {'\U{1680}', '\U{2000}', '\U{2001}', '\U{2002}', '\U{2003}', '\U{2004}', '\U{2005}', '\U{2006}'}
              || c in {'\U{2007}', '\U{2008}', '\U{2009}', '\U{200A}', '\U{2028}', '\U{2029}', '\U{202F}', '\U{205F}'}
              || c == '\U{3000}'
    ensures IsBreak(c) <==>
              c in {'\n', '\U{B}', '\U{C}', '\r', '\U{1C}', '\U{1D}', '\U{1E}', '\U{85}', '\U{2028}', '\U{2029}'}
  {
  }

  /** The ASCII digits, and ten digits in each further block. */
  lemma DigitTable(c: char)
    ensures c as int < 0x80 ==> (IsDigit(c) <==> c in {'0', '1', '2', '3', '4', '5', '6', '7', '8', '9'})
    ensures WideDigit(c as int) || AstralDigit(c as int) ==> c as int >= 0x660 && IsDigit(c)
  {
  }

  /** Lower case, letter by letter. */
  lemma LowerTable(i: nat)
    requires i < 26
    ensures LowerChar("ABCDEFGHIJKLMNOPQRSTUVWXYZ"[i]) == "abcdefghijklmnopqrstuvwxyz"[i]
    ensures LowerChar('\U{212A}') == 'k'
  {
    Alphabet(i);
  }

  lemma Alphabet(i: nat)
    requires i < 26
    ensures "ABCDEFGHIJKLMNOPQRSTUVWXYZ"[i] as int == 'A' as int + i
    ensures "abcdefghijklmnopqrstuvwxyz"[i] as int == 'a' as int + i
  {
  }

  /** No other character changes. */
  lemma LowerKeeps(c: char)
    requires c !in "ABCDEFGHIJKLMNOPQRSTUVWXYZ" && c != '\U{212A}'
    ensures LowerChar(c) == c
  {
    if 'A' <= c <= 'Z' {
      Alphabet(c as int - 'A' as int);
      assert false;
    }
  }

  lemma DigitIsInk(c: char)
    requires IsDigit(c)
    ensures !IsSpace(c)
  {
  }

  /** `str.lower` as far as a comparison with ASCII text can tell: besides A to Z, the Kelvin sign is the
      only character whose lower case is one ASCII character. */
  function LowerChar(c: char): char {
    if 'A' <= c <= 'Z' then (c as int + 32) as char
    else if c == '\U{212A}' then 'k'
    else c
  }

  function Lower(s: string): (r: string)
    ensures |r| == |s| && forall i :: 0 <= i < |s| ==> r[i] == LowerChar(s[i])
  {
    seq(|s|, i requires 0 <= i < |s| => LowerChar(s[i]))
  }

  // ---------------------------------------------------------------- strip

  function StripLeft(s: string): string {
    if s != "" && IsSpace(s[0]) then StripLeft(s[1..]) else s
  }

  function StripRight(s: string): string {
    if s != "" && IsSpace(s[|s| - 1]) then StripRight(s[..|s| - 1]) else s
  }

  function Strip(s: string): string {
    StripRight(StripLeft(s))
  }

  /** No white space at either end. */
  predicate Trim(s: string) {
    s != "" ==> !IsSpace(s[0]) && !IsSpace(s[|s| - 1])
  }

  predicate Blank(s: string) {
    forall i :: 0 <= i < |s| ==> IsSpace(s[i])
  }

  lemma {:induction false} StripLeftIsSuffix(s: string)
    ensures |StripLeft(s)| <= |s| && StripLeft(s) == s[|s| - |StripLeft(s)|..]
    ensures Blank(s[..|s| - |StripLeft(s)|])
    ensures StripLeft(s) != "" ==> !IsSpace(StripLeft(s)[0])
  {
    if s != "" && IsSpace(s[0]) {
      StripLeftIsSuffix(s[1..]);
      var k := |s| - |StripLeft(s)|;
      assert s[..k] == [s[0]] + s[1..][..k - 1];
    }
  }

  lemma {:induction false} StripRightIsPrefix(s: string)
    ensures |StripRight(s)| <= |s| && StripRight(s) == s[..|StripRight(s)|]
    ensures Blank(s[|StripRight(s)|..])
    ensures StripRight(s) != "" ==> !IsSpace(StripRight(s)[|StripRight(s)| - 1])
  {
    if s != "" && IsSpace(s[|s| - 1]) {
      var t := s[..|s| - 1];
      StripRightIsPrefix(t);
      assert s[|StripRight(s)|..] == t[|StripRight(s)|..] + [s[|s| - 1]];
    }
  }

  /** `strip` cuts a blank prefix and a blank suffix and nothing else, and what is left is trimmed. */
  lemma StripIsSlice(s: string) returns (i: nat, j: nat)
    ensures i <= j <= |s| && Strip(s) == s[i..j]
    ensures Blank(s[..i]) && Blank(s[j..]) && Trim(Strip(s))
  {
    StripLeftIsSuffix(s);
    i := |s| - |StripLeft(s)|;
    var t := s[i..];
    StripRightIsPrefix(t);
    j := i + |StripRight(t)|;
    assert t[|StripRight(t)|..] == s[j..];
    assert s[i..j] == t[..|StripRight(t)|];
  }

  lemma StripTrimmed(s: string)
    requires Trim(s)
    ensures Strip(s) == s
  {
  }

  /** A suffix of white space goes away. */
  lemma {:induction false} StripRightBlank(s: string, t: string)
    requires Blank(t)
    ensures StripRight(s + t) == StripRight(s)
  {
    if t == "" {
      assert s + t == s;
    } else {
      assert (s + t)[..|s + t| - 1] == s + t[..|t| - 1];
      StripRightBlank(s, t[..|t| - 1]);
    }
  }

  /** A suffix that is not all white space protects what stands before it. */
  lemma {:induction false} StripRightKeeps(s: string, t: string)
    requires t != "" && !IsSpace(t[0])
    ensures StripRight(s + t) == s + StripRight(t) && StripRight(t) != "" && StripRight(t)[0] == t[0]
  {
    var n := |t| - 1;
    if IsSpace(t[n]) {
      assert (s + t)[..|s + t| - 1] == s + t[..n];
      StripRightKeeps(s, t[..n]);
    }
  }

  lemma {:induction false} StripLeftInk(s: string, t: string)
    requires !Blank(s)
    ensures StripLeft(s + t) == StripLeft(s) + t && !Blank(StripLeft(s)) && StripLeft(s)[0] in s
            && !IsSpace(StripLeft(s)[0])
  {
    if IsSpace(s[0]) {
      assert (s + t)[1..] == s[1..] + t;
      StripLeftInk(s[1..], t);
    }
  }

  lemma {:induction false} StripLeftBlank(s: string, t: string)
    requires Blank(s)
    ensures StripLeft(s + t) == StripLeft(t)
  {
    if s == "" {
      assert s + t == t;
    } else {
      assert (s + t)[1..] == s[1..] + t;
      StripLeftBlank(s[1..], t);
    }
  }

  lemma {:induction false} StripRightInk(s: string, t: string)
    requires !Blank(t)
    ensures StripRight(s + t) == s + StripRight(t) && !Blank(StripRight(t))
  {
    var n := |t| - 1;
    if IsSpace(t[n]) {
      assert (s + t)[..|s + t| - 1] == s + t[..n];
      StripRightInk(s, t[..n]);
    }
  }

  // ---------------------------------------------------------------- lines

  function LineEnd(s: string): nat {
    if s == "" || IsBreak(s[0]) then 0 else 1 + LineEnd(s[1..])
  }

  /** `\r\n` is one break. */
  function BreakLength(s: string): nat
    requires s != ""
  {
    if s[0] == '\r' && |s| > 1 && s[1] == '\n' then 2 else 1
  }

  lemma {:induction false} LineEndWithin(s: string)
    ensures LineEnd(s) <= |s|
    ensures forall i :: 0 <= i < LineEnd(s) ==> !IsBreak(s[i])
    ensures LineEnd(s) < |s| ==> IsBreak(s[LineEnd(s)])
  {
    if s != "" && !IsBreak(s[0]) {
      LineEndWithin(s[1..]);
      assert forall i :: 0 < i < LineEnd(s) ==> s[i] == s[1..][i - 1];
    }
  }

  /** `str.splitlines`. */
  function SplitLines(s: string): seq<string>
    decreases |s|
  {
    if s == "" then []
    else
      LineEndWithin(s);
      var n := LineEnd(s);
      if n == |s| then [s] else [s[..n]] + SplitLines(s[n + BreakLength(s[n..])..])
  }

  predicate OneLine(s: string) {
    forall i :: 0 <= i < |s| ==> !IsBreak(s[i])
  }

  lemma {:induction false} LineEndOf(a: string, b: string)
    requires OneLine(a) && b != "" && IsBreak(b[0])
    ensures LineEnd(a + b) == |a|
  {
    if a == "" {
      assert a + b == b;
    } else {
      assert (a + b)[1..] == a[1..] + b;
      LineEndOf(a[1..], b);
    }
  }

  lemma {:induction false} LineEndWhole(a: string)
    requires OneLine(a)
    ensures LineEnd(a) == |a|
  {
    if a != "" { LineEndWhole(a[1..]); }
  }

  lemma SplitFirstLine(a: string, b: string)
    requires OneLine(a)
    ensures SplitLines(a + "\n" + b) == [a] + SplitLines(b)
  {
    var s := a + "\n" + b;
    assert s == a + ("\n" + b);
    LineEndOf(a, "\n" + b);
    assert s[..|a|] == a && s[|a|..] == "\n" + b && s[|a| + 1..] == b;
  }

  lemma SplitOneLine(a: string)
    requires OneLine(a) && a != ""
    ensures SplitLines(a) == [a]
  {
    LineEndWhole(a);
  }

  /** Lines hold no breaks. */
  lemma {:induction false} SplitLinesOneLine(s: string)
    ensures forall k :: 0 <= k < |SplitLines(s)| ==> OneLine(SplitLines(s)[k])
    decreases |s|
  {
    if s != "" {
      LineEndWithin(s);
      var n := LineEnd(s);
      if n < |s| {
        SplitLinesOneLine(s[n + BreakLength(s[n..])..]);
      }
    }
  }

  lemma SplitStep(head: string, tail: string)
    requires OneLine(head) && tail != "" && IsBreak(tail[0])
    ensures SplitLines(head + tail) == [head] + SplitLines(tail[BreakLength(tail)..])
  {
    LineEndOf(head, tail);
    var s, n, k := head + tail, |head|, BreakLength(tail);
    assert s[..n] == head && s[n..] == tail && s[n + k..] == tail[k..];
  }

  /** Whatever the text before it, a newline ends a line: the two sides split independently. */
  lemma {:induction false} SplitAtNewline(a: string, b: string)
    ensures SplitLines(a + "\n" + b) == SplitLines(a + "\n") + SplitLines(b)
    decreases |a|, 2
  {
    LineEndWithin(a);
    var n := LineEnd(a);
    if n == |a| {
      SplitFirstLine(a, b);
      SplitFirstLine(a, "");
      assert a + "\n" + "" == a + "\n";
    } else {
      var head, tail := a[..n], a[n..];
      assert a + "\n" == head + (tail + "\n") && a + "\n" + b == head + (tail + "\n" + b);
      SplitInside(head, tail, b);
    }
  }

  lemma BreakLengthAppend(u: string, b: string)
    requires |u| > 1
    ensures BreakLength(u + b) == BreakLength(u) && (u + b)[0] == u[0] && |u + b| > 1
  {
  }

  lemma DropAppend(u: string, b: string, k: nat)
    requires k <= |u|
    ensures (u + b)[k..] == u[k..] + b
  {
  }

  lemma SplitPrepend(head: string, u: string, b: string, rest: seq<string>, lines: seq<string>)
    requires OneLine(head) && |u| > 1 && IsBreak(u[0])
    requires SplitLines(u[BreakLength(u)..]) == rest && SplitLines(u[BreakLength(u)..] + b) == rest + lines
    ensures SplitLines(head + (u + b)) == SplitLines(head + u) + lines
  {
    var w, k := u + b, BreakLength(u);
    BreakLengthAppend(u, b);
    DropAppend(u, b, k);
    SplitStep(head, u);
    SplitStep(head, w);
    Regroup([head], rest, lines);
  }

  lemma Regroup(a: seq<string>, b: seq<string>, c: seq<string>)
    ensures a + (b + c) == (a + b) + c
  {
  }

  lemma {:induction false} SplitInside(head: string, tail: string, b: string)
    requires OneLine(head) && tail != "" && IsBreak(tail[0])
    ensures SplitLines(head + (tail + "\n" + b)) == SplitLines(head + (tail + "\n")) + SplitLines(b)
    decreases |head| + |tail|, 1
  {
    var u := tail + "\n";
    SplitRest(tail, BreakLength(u), b);
    SplitPrepend(head, u, b, SplitLines(u[BreakLength(u)..]), SplitLines(b));
  }

  lemma {:induction false} SplitRest(tail: string, k: nat, b: string)
    requires 0 < k <= |tail| + 1
    ensures SplitLines((tail + "\n")[k..] + b) == SplitLines((tail + "\n")[k..]) + SplitLines(b)
    decreases |tail|, 0
  {
    var u := tail + "\n";
    if k <= |tail| {
      assert u[k..] == tail[k..] + "\n";
      SplitAtNewline(tail[k..], b);
    } else {
      assert u[k..] == "" && u[k..] + b == b;
    }
  }

  /** Each line followed by a newline. */
  function Unlines(lines: seq<string>): string {
    if lines == [] then "" else lines[0] + "\n" + Unlines(lines[1..])
  }

  predicate AllOneLine(lines: seq<string>) {
    forall k :: 0 <= k < |lines| ==> OneLine(lines[k])
  }

  lemma {:induction false} SplitUnlines(lines: seq<string>, rest: string)
    requires AllOneLine(lines)
    ensures SplitLines(Unlines(lines) + rest) == lines + SplitLines(rest)
  {
    if lines == [] {
      assert Unlines(lines) + rest == rest;
    } else {
      var a, u := lines[0], Unlines(lines[1..]);
      assert OneLine(a);
      assert (a + "\n" + u) + rest == a + "\n" + (u + rest);
      SplitFirstLine(a, u + rest);
      SplitUnlines(lines[1..], rest);
      Regroup([a], lines[1..], SplitLines(rest));
      assert [a] + lines[1..] == lines;
    }
  }

  /** `"\n".join(lines)`. */
  function Join(lines: seq<string>): string {
    if lines == [] then ""
    else if |lines| == 1 then lines[0]
    else lines[0] + "\n" + Join(lines[1..])
  }

  lemma {:induction false} JoinAppend(a: seq<string>, b: seq<string>)
    requires b != []
    ensures Join(a + b) == Unlines(a) + Join(b)
  {
    if a == [] {
      assert a + b == b && Unlines(a) + Join(b) == Join(b);
    } else {
      assert (a + b)[1..] == a[1..] + b;
      JoinAppend(a[1..], b);
    }
  }

  lemma {:induction false} UnlinesAppend(a: seq<string>, b: seq<string>)
    ensures Unlines(a + b) == Unlines(a) + Unlines(b)
  {
    if a == [] {
      assert a + b == b;
    } else {
      assert (a + b)[1..] == a[1..] + b;
      UnlinesAppend(a[1..], b);
    }
  }

  // ---------------------------------------------------------------- newline normalisation

  /** `text.replace("\r\n", "\n")`. */
  function ReplaceCrLf(s: string): string
    decreases |s|
  {
    if s == "" then ""
    else if s[0] == '\r' && |s| > 1 && s[1] == '\n' then "\n" + ReplaceCrLf(s[2..])
    else [s[0]] + ReplaceCrLf(s[1..])
  }

  /** `text.replace("\r", "\n")`. */
  function ReplaceCr(s: string): (r: string)
    ensures |r| == |s| && forall i :: 0 <= i < |s| ==> r[i] == if s[i] == '\r' then '\n' else s[i]
  {
    seq(|s|, i requires 0 <= i < |s| => if s[i] == '\r' then '\n' else s[i])
  }

  /** `re.sub(r"\n{3,}", "\n\n", s)`, where `k` newlines have just been kept. */
  function CapNewlines(s: string, k: nat): string {
    if s == "" then ""
    else if s[0] != '\n' then [s[0]] + CapNewlines(s[1..], 0)
    else if k >= 2 then CapNewlines(s[1..], k)
    else "\n" + CapNewlines(s[1..], k + 1)
  }

  /** `normalize_text`. */
  function NormalizeText(s: string): string {
    Strip(CapNewlines(ReplaceCr(ReplaceCrLf(s)), 0))
  }

  function LeadingNewlines(s: string): nat {
    if s != "" && s[0] == '\n' then 1 + LeadingNewlines(s[1..]) else 0
  }

  /** No run of three newlines. */
  predicate NoTriple(s: string) {
    s == "" || (LeadingNewlines(s) <= 2 && NoTriple(s[1..]))
  }

  lemma {:induction false} NoTripleMeans(s: string, i: nat)
    requires NoTriple(s) && i + 2 < |s|
    ensures !(s[i] == '\n' && s[i + 1] == '\n' && s[i + 2] == '\n')
  {
    if i == 0 {
      assert s[1..][0] == s[1] && s[1..][1..] == s[2..] && s[2..][0] == s[2];
      assert s[2] == '\n' ==> LeadingNewlines(s[2..]) >= 1;
      assert s[1] == '\n' ==> LeadingNewlines(s[1..]) == 1 + LeadingNewlines(s[2..]);
    } else {
      NoTripleMeans(s[1..], i - 1);
    }
  }

  lemma {:induction false} CapNoTriple(s: string, k: nat)
    requires k <= 2
    ensures NoTriple(CapNewlines(s, k)) && k + LeadingNewlines(CapNewlines(s, k)) <= 2
  {
    if s == "" {
    } else if s[0] != '\n' {
      CapNoTriple(s[1..], 0);
      assert CapNewlines(s, k)[1..] == CapNewlines(s[1..], 0);
    } else if k >= 2 {
      CapNoTriple(s[1..], k);
    } else {
      CapNoTriple(s[1..], k + 1);
      assert CapNewlines(s, k)[1..] == CapNewlines(s[1..], k + 1);
    }
  }

  lemma {:induction false} CapIdentity(s: string, k: nat)
    requires NoTriple(s) && k + LeadingNewlines(s) <= 2
    ensures CapNewlines(s, k) == s
  {
    if s != "" {
      if s[0] == '\n' {
        CapIdentity(s[1..], k + 1);
      } else {
        if s[1..] != "" { assert NoTriple(s[1..]); }
        CapIdentity(s[1..], 0);
      }
    }
  }

  lemma SliceOfTail(s: string, i: nat, j: nat)
    requires 0 < i <= j <= |s|
    ensures s[i..j] == s[1..][i - 1..j - 1]
  {
    var a, t := s[i..j], s[1..];
    var b := t[i - 1..j - 1];
    assert |a| == |b| == j - i;
    forall k | 0 <= k < j - i ensures a[k] == b[k] {
      assert a[k] == s[i + k] && b[k] == t[i - 1 + k];
    }
  }

  lemma {:induction false} NoTripleSlice(s: string, i: nat, j: nat)
    requires NoTriple(s) && i <= j <= |s|
    ensures NoTriple(s[i..j])
  {
    if i < j {
      if i == 0 {
        NoTripleSlice(s[1..], 0, j - 1);
        assert s[0..j][1..] == s[1..][0..j - 1];
        LeadingPrefix(s, j);
      } else {
        NoTripleSlice(s[1..], i - 1, j - 1);
        SliceOfTail(s, i, j);
      }
    }
  }

  lemma {:induction false} LeadingPrefix(s: string, j: nat)
    requires j <= |s|
    ensures LeadingNewlines(s[..j]) <= LeadingNewlines(s)
  {
    if j > 0 && s[0] == '\n' {
      LeadingPrefix(s[1..], j - 1);
      assert s[..j][1..] == s[1..][..j - 1];
    }
  }

  predicate NoReturn(s: string) {
    forall i :: 0 <= i < |s| ==> s[i] != '\r'
  }

  lemma {:induction false} CrLfIdentity(s: string)
    requires NoReturn(s)
    ensures ReplaceCrLf(s) == s
  {
    if s != "" { CrLfIdentity(s[1..]); }
  }

  lemma {:induction false} CapNoReturn(s: string, k: nat)
    requires NoReturn(s)
    ensures NoReturn(CapNewlines(s, k))
  {
    if s != "" {
      CapNoReturn(s[1..], 0);
      CapNoReturn(s[1..], k);
      CapNoReturn(s[1..], k + 1);
    }
  }

  /** The fixed points of `normalize_text`. */
  predicate Normal(s: string) {
    NoReturn(s) && NoTriple(s) && Trim(s)
  }

  lemma NormalIsFixed(s: string)
    requires Normal(s)
    ensures NormalizeText(s) == s
  {
    CrLfIdentity(s);
    assert ReplaceCr(s) == s;
    if s != "" { assert LeadingNewlines(s) == 0; }
    CapIdentity(s, 0);
    StripTrimmed(s);
  }

  lemma NormalizeIsNormal(s: string)
    ensures Normal(NormalizeText(s))
  {
    var t := CapNewlines(ReplaceCr(ReplaceCrLf(s)), 0);
    CapNoReturn(ReplaceCr(ReplaceCrLf(s)), 0);
    CapNoTriple(ReplaceCr(ReplaceCrLf(s)), 0);
    var i, j := StripIsSlice(t);
    NoTripleSlice(t, i, j);
  }

  /** The characters that are not white space, in order. */
  function Ink(s: string): string {
    if s == "" then "" else (if IsSpace(s[0]) then "" else [s[0]]) + Ink(s[1..])
  }

  lemma {:induction false} InkAppend(a: string, b: string)
    ensures Ink(a + b) == Ink(a) + Ink(b)
  {
    if a == "" {
      assert a + b == b;
    } else {
      assert (a + b)[1..] == a[1..] + b;
      InkAppend(a[1..], b);
    }
  }

  lemma {:induction false} InkEmpty(s: string)
    ensures Ink(s) == "" <==> Blank(s)
  {
    if s != "" {
      InkEmpty(s[1..]);
      assert forall i :: 0 < i < |s| ==> s[i] == s[1..][i - 1];
    }
  }

  lemma {:induction false} InkCrLf(s: string)
    ensures Ink(ReplaceCrLf(s)) == Ink(s)
    decreases |s|
  {
    if s != "" {
      if s[0] == '\r' && |s| > 1 && s[1] == '\n' {
        InkCrLf(s[2..]);
        assert ReplaceCrLf(s)[1..] == ReplaceCrLf(s[2..]);
        assert s[1..][1..] == s[2..] && s[1..][0] == '\n';
      } else {
        InkCrLf(s[1..]);
        assert ReplaceCrLf(s)[1..] == ReplaceCrLf(s[1..]);
      }
    }
  }

  lemma {:induction false} InkCr(s: string)
    ensures Ink(ReplaceCr(s)) == Ink(s)
  {
    if s != "" {
      InkCr(s[1..]);
      assert ReplaceCr(s)[1..] == ReplaceCr(s[1..]);
    }
  }

  lemma {:induction false} InkCap(s: string, k: nat)
    ensures Ink(CapNewlines(s, k)) == Ink(s)
  {
    if s != "" {
      InkCap(s[1..], 0);
      InkCap(s[1..], k);
      InkCap(s[1..], k + 1);
      if s[0] != '\n' {
        assert CapNewlines(s, k)[1..] == CapNewlines(s[1..], 0);
      } else if k < 2 {
        assert CapNewlines(s, k)[1..] == CapNewlines(s[1..], k + 1);
      }
    }
  }

  lemma InkStrip(s: string)
    ensures Ink(Strip(s)) == Ink(s)
  {
    var i, j := StripIsSlice(s);
    InkEmpty(s[..i]);
    InkEmpty(s[j..]);
    InkAppend(s[..i], s[i..j]);
    InkAppend(s[..i] + s[i..j], s[j..]);
    assert s == s[..i] + s[i..j] + s[j..];
  }

  /** `normalize_text` is idempotent and canonical: no carriage return, no three newlines in a row, nothing blank
      at the ends, and the same ink. A text is left alone exactly when it has that form. */
  lemma NormalizeTextCanonical(s: string)
    ensures NormalizeText(NormalizeText(s)) == NormalizeText(s)
    ensures NoReturn(NormalizeText(s)) && Trim(NormalizeText(s))
    ensures forall i :: 0 <= i && i + 2 < |NormalizeText(s)| ==>
              !(NormalizeText(s)[i] == '\n' && NormalizeText(s)[i + 1] == '\n' && NormalizeText(s)[i + 2] == '\n')
    ensures Ink(NormalizeText(s)) == Ink(s)
    ensures NormalizeText(s) == s <==> Normal(s)
  {
    NormalizeIsNormal(s);
    NormalIsFixed(NormalizeText(s));
    if Normal(s) { NormalIsFixed(s); }
    var n := NormalizeText(s);
    forall i | 0 <= i && i + 2 < |n| ensures !(n[i] == '\n' && n[i + 1] == '\n' && n[i + 2] == '\n') {
      NoTripleMeans(n, i);
    }
    InkCrLf(s);
    InkCr(ReplaceCrLf(s));
    InkCap(ReplaceCr(ReplaceCrLf(s)), 0);
    InkStrip(CapNewlines(ReplaceCr(ReplaceCrLf(s)), 0));
  }

  /** Only blank text normalises to nothing. */
  lemma NormalizeEmpty(s: string)
    ensures NormalizeText(s) == "" <==> Blank(s)
  {
    NormalizeTextCanonical(s);
    InkEmpty(s);
    InkEmpty(NormalizeText(s));
  }

  // ---------------------------------------------------------------- space collapsing

  /** `re.sub(r"\s+", " ", s)`, where `inRun` says that a space for the current run is already out. */
  function CollapseSpace(s: string, inRun: bool): string {
    if s == "" then ""
    else if !IsSpace(s[0]) then [s[0]] + CollapseSpace(s[1..], false)
    else if inRun then CollapseSpace(s[1..], true)
    else " " + CollapseSpace(s[1..], true)
  }

  /** `_normalize_line`. */
  function NormalizeLine(s: string): string {
    CollapseSpace(Strip(s), false)
  }

  /** Trimmed, with single blanks as the only white space. */
  predicate Spaced(s: string) {
    && Trim(s)
    && (forall i :: 0 <= i < |s| && IsSpace(s[i]) ==> s[i] == ' ')
    && (forall i :: 0 <= i && i + 1 < |s| && s[i] == ' ' ==> s[i + 1] != ' ')
  }

  predicate Single(s: string, inRun: bool) {
    && (forall i :: 0 <= i < |s| && IsSpace(s[i]) ==> s[i] == ' ')
    && (forall i :: 0 <= i && i + 1 < |s| && s[i] == ' ' ==> s[i + 1] != ' ')
    && (inRun && s != "" ==> s[0] != ' ')
  }

  lemma {:induction false} CollapseSingle(s: string, inRun: bool)
    ensures Single(CollapseSpace(s, inRun), inRun)
    ensures s != "" && !IsSpace(s[0]) ==> CollapseSpace(s, inRun) != "" && CollapseSpace(s, inRun)[0] == s[0]
  {
    if s != "" {
      CollapseSingle(s[1..], false);
      CollapseSingle(s[1..], true);
    }
  }

  lemma {:induction false} CollapseLast(s: string, inRun: bool)
    requires s != "" && !IsSpace(s[|s| - 1])
    ensures CollapseSpace(s, inRun) != ""
    ensures CollapseSpace(s, inRun)[|CollapseSpace(s, inRun)| - 1] == s[|s| - 1]
  {
    if |s| > 1 {
      CollapseLast(s[1..], false);
      CollapseLast(s[1..], true);
    }
  }

  lemma {:induction false} CollapseIdentity(s: string, inRun: bool)
    requires Single(s, inRun)
    ensures CollapseSpace(s, inRun) == s
  {
    if s != "" {
      assert forall i :: 0 <= i < |s[1..]| ==> s[1..][i] == s[i + 1];
      CollapseIdentity(s[1..], s[0] == ' ');
    }
  }

  lemma {:induction false} InkCollapse(s: string, inRun: bool)
    ensures Ink(CollapseSpace(s, inRun)) == Ink(s)
  {
    if s != "" {
      InkCollapse(s[1..], false);
      InkCollapse(s[1..], true);
      if !IsSpace(s[0]) {
        assert CollapseSpace(s, inRun)[1..] == CollapseSpace(s[1..], false);
      } else if !inRun {
        assert CollapseSpace(s, inRun)[1..] == CollapseSpace(s[1..], true);
      }
    }
  }

  /** `_normalize_line` is idempotent and canonical, keeps the ink, and is empty only for blank text. */
  lemma NormalizeLineCanonical(s: string)
    ensures Spaced(NormalizeLine(s))
    ensures NormalizeLine(s) == s <==> Spaced(s)
    ensures NormalizeLine(NormalizeLine(s)) == NormalizeLine(s)
    ensures Ink(NormalizeLine(s)) == Ink(s)
    ensures NormalizeLine(s) == "" <==> Blank(s)
  {
    LineIsSpaced(s);
    if Spaced(s) { SpacedIsFixed(s); }
    SpacedIsFixed(NormalizeLine(s));
    InkStrip(s);
    InkCollapse(Strip(s), false);
    InkEmpty(s);
    InkEmpty(NormalizeLine(s));
  }

  lemma LineIsSpaced(s: string)
    ensures Spaced(NormalizeLine(s))
  {
    var i, j := StripIsSlice(s);
    CollapseSingle(Strip(s), false);
    if Strip(s) != "" {
      CollapseLast(Strip(s), false);
    }
  }

  lemma SpacedIsFixed(s: string)
    requires Spaced(s)
    ensures NormalizeLine(s) == s
  {
    StripTrimmed(s);
    CollapseIdentity(s, false);
  }

  lemma SpacedOneLine(s: string)
    requires Spaced(s)
    ensures OneLine(s) && NoReturn(s)
  {
  }
}
