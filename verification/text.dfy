/** The Python string operations the call blocker relies on, over ASCII text:
    `str.strip()`, `str.upper()`, `str.startswith`, the `in` substring test,
    `str.split(sep)` and `re.split('[\n\r]+', s)`. */
module Text {
  import opened Results

  /** The characters of the character class `[\n\r]`. */
  predicate IsBreak(c: char) {
    c == '\r' || c == '\n'
  }

  /** ASCII characters for which Python's `str.isspace()` holds: tab, line
      feed, vertical tab, form feed, carriage return, the four information
      separators 0x1c-0x1f, and space. */
  predicate IsSpace(c: char) {
    (9 <= c as int <= 13) || (28 <= c as int <= 32)
  }

  predicate IsLower(c: char) {
    'a' <= c <= 'z'
  }

  /** `str.upper()` on one ASCII character. */
  function UpperChar(c: char): (u: char)
    ensures !IsLower(u)
    ensures IsLower(c) ==> u as int == c as int - 32
    ensures !IsLower(c) ==> u == c
  {
    if IsLower(c) then (c as int - 32) as char else c
  }

  predicate NoBreaks(s: string) {
    forall i :: 0 <= i < |s| ==> !IsBreak(s[i])
  }

  predicate IsUpperCase(s: string) {
    forall i :: 0 <= i < |s| ==> !IsLower(s[i])
  }

  /** `str.upper()`: every lower-case letter replaced by its capital. */
  function Upper(s: string): (u: string)
    ensures |u| == |s|
    ensures forall i :: 0 <= i < |s| ==> u[i] == UpperChar(s[i])
  {
    seq(|s|, i requires 0 <= i < |s| => UpperChar(s[i]))
  }

  lemma UpperIsUpperCase(s: string)
    ensures IsUpperCase(Upper(s))
  {
  }

  /** Upper-casing twice is upper-casing once. */
  lemma UpperIdempotent(s: string)
    ensures Upper(Upper(s)) == Upper(s)
  {
  }

  /** `s.startswith(p)`. */
  predicate StartsWith(s: string, p: string) {
    |p| <= |s| && s[..|p|] == p
  }

  /** `t` occurs in `s` starting at index `j`. */
  predicate OccursAt(s: string, t: string, j: nat) {
    j + |t| <= |s| && s[j..j + |t|] == t
  }

  /** `s.find(t)`: the leftmost index at which `t` occurs in `s`. */
  function Find(s: string, t: string): (r: Option<nat>)
    ensures r.Some? ==> OccursAt(s, t, r.value)
    ensures r.Some? ==> forall j :: 0 <= j < r.value ==> !OccursAt(s, t, j)
    ensures r.None? ==> forall j: nat :: !OccursAt(s, t, j)
    decreases |s|
  {
    if |s| < |t| then None
    else if s[..|t|] == t then Some(0)
    else
      assert !OccursAt(s, t, 0);
      var rest := Find(s[1..], t);
      ShiftOccurrence(s, t);
      match rest
      case None => None
      case Some(i) => Some(i + 1)
  }

  /** An occurrence in `s[1..]` is an occurrence in `s` one place later. */
  lemma ShiftOccurrence(s: string, t: string)
    requires |s| > 0
    ensures forall j: nat :: OccursAt(s[1..], t, j) ==> OccursAt(s, t, j + 1)
    ensures forall j: nat :: 0 < j && OccursAt(s, t, j) ==> OccursAt(s[1..], t, j - 1)
  {
    forall j: nat
      ensures OccursAt(s[1..], t, j) <==> OccursAt(s, t, j + 1)
    {
      if j + |t| <= |s[1..]| {
        assert s[1..][j..j + |t|] == s[j + 1..j + 1 + |t|];
      }
    }
  }

  /** Python's `t in s` for strings: `t` occurs somewhere in `s`. */
  predicate Contains(s: string, t: string) {
    exists j :: 0 <= j <= |s| && OccursAt(s, t, j)
  }

  /** `s.find(t)` finds an occurrence exactly when `t in s`. */
  lemma ContainsMeaning(s: string, t: string)
    ensures Contains(s, t) <==> Find(s, t).Some?
  {
    if Contains(s, t) {
      var j :| 0 <= j <= |s| && OccursAt(s, t, j);
      assert Find(s, t).Some?;
    }
  }

  /** A string containing `t` keeps containing it when text is added around it. */
  lemma {:induction false} ContainsExtended(a: string, s: string, b: string, t: string)
    requires Contains(s, t)
    ensures Contains(a + s + b, t)
  {
    var j :| 0 <= j <= |s| && OccursAt(s, t, j);
    assert (a + s + b)[|a| + j..|a| + j + |t|] == s[j..j + |t|];
    assert OccursAt(a + s + b, t, |a| + j);
  }

  /** Every character of `s` is whitespace. */
  predicate AllSpace(s: string) {
    forall i :: 0 <= i < |s| ==> IsSpace(s[i])
  }

  /** `r` is `s` with a leading run of whitespace dropped, and does not
      start with whitespace itself. */
  predicate LeftTrimmed(r: string, s: string) {
    |r| <= |s| && r == s[|s| - |r|..] && AllSpace(s[..|s| - |r|]) && (|r| > 0 ==> !IsSpace(r[0]))
  }

  /** `r` is `s` with a trailing run of whitespace dropped, and does not
      end with whitespace itself. */
  predicate RightTrimmed(r: string, s: string) {
    |r| <= |s| && r == s[..|r|] && AllSpace(s[|r|..]) && (|r| > 0 ==> !IsSpace(r[|r| - 1]))
  }

  /** `s.lstrip()`: leading whitespace removed. */
  function StripLeft(s: string): (r: string)
    ensures LeftTrimmed(r, s)
    decreases |s|
  {
    if |s| > 0 && IsSpace(s[0]) then
      var r := StripLeft(s[1..]);
      LeftStep(s, r);
      r
    else s
  }

  /** Trimming `s[1..]` trims `s` when `s` starts with whitespace. */
  lemma LeftStep(s: string, r: string)
    requires |s| > 0 && IsSpace(s[0]) && LeftTrimmed(r, s[1..])
    ensures LeftTrimmed(r, s)
  {
    assert s[..|s| - |r|] == [s[0]] + s[1..][..|s| - 1 - |r|];
  }

  /** `s.rstrip()`: trailing whitespace removed. */
  function StripRight(s: string): (r: string)
    ensures RightTrimmed(r, s)
    decreases |s|
  {
    if |s| > 0 && IsSpace(s[|s| - 1]) then
      var r := StripRight(s[..|s| - 1]);
      RightStep(s, r);
      r
    else s
  }

  /** Trimming all but the last character trims `s` when `s` ends with
      whitespace. */
  lemma RightStep(s: string, r: string)
    requires |s| > 0 && IsSpace(s[|s| - 1]) && RightTrimmed(r, s[..|s| - 1])
    ensures RightTrimmed(r, s)
  {
    assert s[|r|..] == s[..|s| - 1][|r|..] + [s[|s| - 1]];
  }

  /** Whitespace strips to nothing. */
  lemma {:induction false} StripBlank(s: string)
    requires AllSpace(s)
    ensures StripLeft(s) == "" && Strip(s) == ""
    decreases |s|
  {
    if |s| > 0 {
      StripBlank(s[1..]);
    }
  }

  /** `r` is the slice of `s` at offset `i` and everything of `s` around it
      is whitespace. */
  predicate TrimmedAt(r: string, s: string, i: nat) {
    && i + |r| <= |s|
    && r == s[i..i + |r|]
    && AllSpace(s[..i])
    && AllSpace(s[i + |r|..])
  }

  /** `s.strip()`: the slice of `s` left when the whitespace at both ends is
      dropped; it neither starts nor ends with whitespace. */
  function Strip(s: string): (r: string)
    ensures exists i: nat :: TrimmedAt(r, s, i)
    ensures |r| > 0 ==> !IsSpace(r[0]) && !IsSpace(r[|r| - 1])
  {
    var l := StripLeft(s);
    TrimBoth(s, l, StripRight(l));
    StripRight(l)
  }

  /** A whitespace-free prefix of a whitespace-free suffix trims `s` at the
      suffix's offset. */
  lemma TrimBoth(s: string, l: string, r: string)
    requires LeftTrimmed(l, s) && RightTrimmed(r, l)
    ensures TrimmedAt(r, s, |s| - |l|)
    ensures |r| > 0 ==> !IsSpace(r[0])
  {
    var i := |s| - |l|;
    assert l[..|r|] == s[i..i + |r|];
    assert l[|r|..] == s[i + |r|..];
    if |r| > 0 {
      assert r[0] == l[0];
    }
  }

  /** Concatenation of a sequence of strings. */
  function Flatten(parts: seq<string>): string {
    if |parts| == 0 then "" else parts[0] + Flatten(parts[1..])
  }

  /** `s` with every `\r` and `\n` removed. */
  function DropBreaks(s: string): (r: string)
    ensures NoBreaks(r)
  {
    if |s| == 0 then ""
    else if IsBreak(s[0]) then DropBreaks(s[1..])
    else [s[0]] + DropBreaks(s[1..])
  }

  /** `r` is the list of lines of `s`: pieces without line breaks that
      concatenate to `s` without its breaks, of which only the first and
      the last can be empty, the first exactly when `s` is empty or starts
      with a break; the empty string has the one line `""`. */
  predicate LinesOf(r: seq<string>, s: string) {
    && |r| >= 1
    && (forall i :: 0 <= i < |r| ==> NoBreaks(r[i]))
    && Flatten(r) == DropBreaks(s)
    && (r[0] == "" <==> |s| == 0 || IsBreak(s[0]))
    && (forall i :: 0 < i < |r| - 1 ==> r[i] != "")
    && (|s| == 0 ==> r == [""])
  }

  /** `re.split('[\n\r]+', s)`: the pieces of `s` between maximal runs of
      line breaks. A break run at the start or the end of `s` yields an
      empty first or last piece, and the empty string yields `[""]`. */
  function SplitLines(s: string): (r: seq<string>)
    ensures LinesOf(r, s)
    decreases |s|
  {
    if |s| == 0 then [""]
    else
      var rest := SplitLines(s[1..]);
      LinesStep(s, rest);
      AddChar(s, rest)
  }

  /** The lines of `s` from the lines of `s[1..]`: a break merges into the
      break run that follows it or starts an empty first line; any other
      character joins the first line. */
  function AddChar(s: string, rest: seq<string>): seq<string>
    requires |s| > 0 && |rest| >= 1
  {
    if IsBreak(s[0]) then
      if |s| > 1 && IsBreak(s[1]) then rest else [""] + rest
    else [[s[0]] + rest[0]] + rest[1..]
  }

  /** Adding a character keeps the list of lines the list of lines. */
  lemma LinesStep(s: string, rest: seq<string>)
    requires |s| > 0 && LinesOf(rest, s[1..])
    ensures LinesOf(AddChar(s, rest), s)
  {
    if !IsBreak(s[0]) {
      LinesAfterChar(s, rest);
    } else if |s| > 1 && IsBreak(s[1]) {
      assert DropBreaks(s) == DropBreaks(s[1..]);
    } else {
      LinesAfterBreak(s, rest);
    }
  }

  /** A break not followed by another starts an empty first line. */
  lemma LinesAfterBreak(s: string, rest: seq<string>)
    requires |s| > 0 && IsBreak(s[0]) && !(|s| > 1 && IsBreak(s[1]))
    requires LinesOf(rest, s[1..])
    ensures LinesOf([""] + rest, s)
  {
    var r := [""] + rest;
    assert DropBreaks(s) == DropBreaks(s[1..]);
    assert r[1..] == rest;
    assert forall i :: 0 < i < |r| ==> r[i] == rest[i - 1];
  }

  /** Any other character joins the first line. */
  lemma LinesAfterChar(s: string, rest: seq<string>)
    requires |s| > 0 && !IsBreak(s[0])
    requires LinesOf(rest, s[1..])
    ensures LinesOf([[s[0]] + rest[0]] + rest[1..], s)
  {
    var r := [[s[0]] + rest[0]] + rest[1..];
    assert DropBreaks(s) == [s[0]] + DropBreaks(s[1..]);
    assert r[1..] == rest[1..];
    assert forall i :: 0 < i < |r| ==> r[i] == rest[i];
    assert NoBreaks(r[0]) by {
      assert forall k :: 0 < k < |r[0]| ==> r[0][k] == rest[0][k - 1];
    }
    assert Flatten(rest) == rest[0] + Flatten(rest[1..]);
    assert Flatten(r) == [s[0]] + rest[0] + Flatten(rest[1..]);
  }

  /** Text without line breaks is a single line. */
  lemma {:induction false} SplitLinesUnbroken(a: string)
    requires NoBreaks(a)
    ensures SplitLines(a) == [a]
    decreases |a|
  {
    if |a| > 0 {
      SplitLinesUnbroken(a[1..]);
      assert [a[0]] + a[1..] == a;
    }
  }

  /** A non-empty run of line breaks: what `[\n\r]+` matches. */
  predicate BreakRun(g: string) {
    |g| > 0 && forall i :: 0 <= i < |g| ==> IsBreak(g[i])
  }

  predicate AllRuns(gaps: seq<string>) {
    forall i :: 0 <= i < |gaps| ==> BreakRun(gaps[i])
  }

  /** Pieces `re.split('[\n\r]+', …)` can return: none holds a break,
      and only the first and the last can be empty. */
  predicate LineList(lines: seq<string>) {
    && |lines| >= 1
    && (forall i :: 0 <= i < |lines| ==> NoBreaks(lines[i]))
    && (forall i :: 0 < i < |lines| - 1 ==> lines[i] != "")
  }

  /** The text made of `lines` with `gaps[i]` between `lines[i]` and
      `lines[i + 1]`. */
  function Weave(lines: seq<string>, gaps: seq<string>): string
    requires |lines| == |gaps| + 1
    decreases |gaps|
  {
    if |gaps| == 0 then lines[0] else lines[0] + gaps[0] + Weave(lines[1..], gaps[1..])
  }

  /** A woven text starts with the first character of the first line and
      ends with the last character of the last line, when those are not
      empty. */
  lemma {:induction false} WeaveEnds(lines: seq<string>, gaps: seq<string>)
    requires |lines| == |gaps| + 1
    ensures |gaps| == 0 ==> Weave(lines, gaps) == lines[0]
    ensures |lines[0]| > 0 ==> |Weave(lines, gaps)| > 0 && Weave(lines, gaps)[0] == lines[0][0]
    ensures var last := lines[|lines| - 1];
      |last| > 0 ==> |Weave(lines, gaps)| > 0 && Weave(lines, gaps)[|Weave(lines, gaps)| - 1] == last[|last| - 1]
    decreases |gaps|
  {
    if |gaps| > 0 {
      WeaveEnds(lines[1..], gaps[1..]);
      assert lines[1..][|lines| - 2] == lines[|lines| - 1];
    }
  }

  /** A line, a run of breaks and text not starting with a break: the line
      is the first piece and the run is dropped whole. */
  lemma {:induction false} SplitLinesAfterRun(a: string, g: string, b: string)
    requires NoBreaks(a) && BreakRun(g)
    requires |b| == 0 || !IsBreak(b[0])
    ensures SplitLines(a + g + b) == [a] + SplitLines(b)
    decreases |a|, |g|
  {
    var s := a + g + b;
    if |a| > 0 {
      assert s[0] == a[0] && s[1..] == a[1..] + g + b;
      SplitLinesAfterRun(a[1..], g, b);
      assert [a[0]] + a[1..] == a;
    } else if |g| > 1 {
      assert s[1..] == a + g[1..] + b;
      assert IsBreak(s[0]) && IsBreak(s[1]);
      SplitLinesAfterRun(a, g[1..], b);
    } else {
      assert s[1..] == b;
      assert IsBreak(s[0]);
    }
  }

  /** Lines woven with any runs of breaks split back into those lines. */
  lemma {:induction false} SplitLinesWoven(lines: seq<string>, gaps: seq<string>)
    requires |lines| == |gaps| + 1 && LineList(lines) && AllRuns(gaps)
    ensures SplitLines(Weave(lines, gaps)) == lines
    decreases |gaps|
  {
    if |gaps| == 0 {
      SplitLinesUnbroken(lines[0]);
    } else {
      var rest := Weave(lines[1..], gaps[1..]);
      assert LineList(lines[1..]) by {
        assert forall i :: 0 <= i < |lines| - 1 ==> lines[1..][i] == lines[i + 1];
      }
      SplitLinesWoven(lines[1..], gaps[1..]);
      WeaveEnds(lines[1..], gaps[1..]);
      assert NoBreaks(lines[1]) && BreakRun(gaps[0]);
      SplitLinesAfterRun(lines[0], gaps[0], rest);
      assert [lines[0]] + lines[1..] == lines;
    }
  }

  /** The runs of breaks `re.split` cuts at: woven back between the lines
      of `s` they give `s` again. */
  predicate CutsOf(gaps: seq<string>, lines: seq<string>, s: string) {
    |lines| == |gaps| + 1 && AllRuns(gaps) && Weave(lines, gaps) == s
  }

  /** Every text is its lines woven with runs of breaks; with
      `SplitLinesWoven` this says `SplitLines` cuts exactly at the maximal
      runs of breaks. */
  lemma {:induction false} SplitLinesCuts(s: string)
    ensures exists gaps :: CutsOf(gaps, SplitLines(s), s)
    decreases |s|
  {
    if |s| == 0 {
      assert SplitLines(s) == [""];
      assert CutsOf([], SplitLines(s), s);
    } else {
      var rest := SplitLines(s[1..]);
      SplitLinesCuts(s[1..]);
      var gs :| CutsOf(gs, rest, s[1..]);
      assert SplitLines(s) == AddChar(s, rest);
      if !IsBreak(s[0]) {
        CutChar(s, rest, gs);
      } else if |s| > 1 && IsBreak(s[1]) {
        CutMerge(s, rest, gs);
      } else {
        CutBreak(s, rest, gs);
      }
    }
  }

  /** A character that is no break joins the first line. */
  lemma CutChar(s: string, rest: seq<string>, gs: seq<string>)
    requires |s| > 0 && !IsBreak(s[0]) && |rest| >= 1 && CutsOf(gs, rest, s[1..])
    ensures CutsOf(gs, AddChar(s, rest), s)
  {
    var r := AddChar(s, rest);
    assert r[1..] == rest[1..];
    assert s == [s[0]] + s[1..];
  }

  /** A break followed by another joins the run that follows it. */
  lemma CutMerge(s: string, rest: seq<string>, gs: seq<string>)
    requires |s| > 1 && IsBreak(s[0]) && IsBreak(s[1])
    requires LinesOf(rest, s[1..]) && CutsOf(gs, rest, s[1..])
    ensures exists gaps :: CutsOf(gaps, AddChar(s, rest), s)
  {
    assert rest[0] == "" && |gs| > 0;
    var gaps := [[s[0]] + gs[0]] + gs[1..];
    assert gaps[1..] == gs[1..];
    assert s == [s[0]] + s[1..];
    assert AddChar(s, rest) == rest;
    assert Weave(rest, gaps) == [s[0]] + Weave(rest, gs);
    assert CutsOf(gaps, AddChar(s, rest), s);
  }

  /** A break followed by no other starts an empty first line. */
  lemma CutBreak(s: string, rest: seq<string>, gs: seq<string>)
    requires |s| > 0 && IsBreak(s[0]) && !(|s| > 1 && IsBreak(s[1]))
    requires |rest| >= 1 && CutsOf(gs, rest, s[1..])
    ensures CutsOf([[s[0]]] + gs, AddChar(s, rest), s)
  {
    var r := AddChar(s, rest);
    var gaps := [[s[0]]] + gs;
    assert r[1..] == rest && gaps[1..] == gs;
    assert s == [s[0]] + s[1..];
  }

  /** Lines without breaks, all but the first non-empty, joined by CR LF
      split back into those lines. */
  lemma SplitLinesJoin(lines: seq<string>)
    requires |lines| >= 1
    requires forall i :: 0 <= i < |lines| ==> NoBreaks(lines[i])
    requires forall i :: 0 < i < |lines| ==> |lines[i]| > 0
    ensures SplitLines(Join(lines, "\r\n")) == lines
  {
    var gaps := seq(|lines| - 1, _ => "\r\n");
    JoinIsWeave(lines, "\r\n", gaps);
    assert BreakRun("\r\n");
    SplitLinesWoven(lines, gaps);
  }

  /** A join is the weave with the separator in every gap. */
  lemma {:induction false} JoinIsWeave(lines: seq<string>, sep: string, gaps: seq<string>)
    requires |lines| == |gaps| + 1
    requires forall i :: 0 <= i < |gaps| ==> gaps[i] == sep
    ensures Join(lines, sep) == Weave(lines, gaps)
    decreases |gaps|
  {
    if |gaps| > 0 {
      JoinIsWeave(lines[1..], sep, gaps[1..]);
    }
  }

  /** Whitespace around text that neither starts nor ends with whitespace
      is what stripping removes. */
  lemma StripPadded(pre: string, t: string, post: string)
    requires AllSpace(pre) && AllSpace(post)
    requires |t| > 0 && !IsSpace(t[0]) && !IsSpace(t[|t| - 1])
    ensures Strip(pre + t + post) == t
  {
    assert pre + t + post == pre + (t + post);
    StripLeftPadded(pre, t + post);
    StripRightPadded(t, post);
  }

  lemma {:induction false} StripLeftPadded(pre: string, t: string)
    requires AllSpace(pre) && |t| > 0 && !IsSpace(t[0])
    ensures StripLeft(pre + t) == t
    decreases |pre|
  {
    if |pre| > 0 {
      assert (pre + t)[0] == pre[0] && (pre + t)[1..] == pre[1..] + t;
      StripLeftPadded(pre[1..], t);
    } else {
      assert pre + t == t;
    }
  }

  lemma {:induction false} StripRightPadded(t: string, post: string)
    requires AllSpace(post) && |t| > 0 && !IsSpace(t[|t| - 1])
    ensures StripRight(t + post) == t
    decreases |post|
  {
    var s := t + post;
    if |post| > 0 {
      assert s[|s| - 1] == post[|post| - 1];
      assert s[..|s| - 1] == t + post[..|post| - 1];
      StripRightPadded(t, post[..|post| - 1]);
    } else {
      assert s == t;
    }
  }

  /** Separator-joined concatenation: the inverse of `SplitOn`. */
  function Join(parts: seq<string>, sep: string): string
    requires |parts| >= 1
  {
    if |parts| == 1 then parts[0] else parts[0] + sep + Join(parts[1..], sep)
  }

  /** A join starts with the first character of the first part and ends
      with the last character of the last part, when those are not empty. */
  lemma {:induction false} JoinEnds(parts: seq<string>, sep: string)
    requires |parts| >= 1
    ensures |parts[0]| > 0 ==> |Join(parts, sep)| > 0 && Join(parts, sep)[0] == parts[0][0]
    ensures var last := parts[|parts| - 1];
      |last| > 0 ==> |Join(parts, sep)| > 0 && Join(parts, sep)[|Join(parts, sep)| - 1] == last[|last| - 1]
    decreases |parts|
  {
    if |parts| > 1 {
      JoinEnds(parts[1..], sep);
      assert parts[1..][|parts| - 2] == parts[|parts| - 1];
    }
  }

  /** Text added to the last part is added to the end of the join. */
  lemma {:induction false} JoinExtendLast(parts: seq<string>, sep: string, x: string, y: string)
    ensures Join(parts + [x + y], sep) == Join(parts + [x], sep) + y
    decreases |parts|
  {
    if |parts| > 0 {
      JoinExtendLast(parts[1..], sep, x, y);
      assert (parts + [x + y])[1..] == parts[1..] + [x + y];
      assert (parts + [x])[1..] == parts[1..] + [x];
    }
  }

  /** `r` is the list of pieces of `s` cut at `sep`: they join back to
      `s`, there is one piece exactly when `sep` does not occur, the first
      piece ends at the leftmost occurrence, and the last holds no `sep`. */
  predicate PiecesOf(r: seq<string>, s: string, sep: string) {
    && |r| >= 1
    && Join(r, sep) == s
    && (|r| == 1 <==> !Contains(s, sep))
    && (|r| > 1 ==> Find(s, sep).Some? && r[0] == s[..Find(s, sep).value])
    && !Contains(r[|r| - 1], sep)
  }

  /** `s.split(sep)`: the pieces between the non-overlapping occurrences of
      `sep`, found left to right. */
  function SplitOn(s: string, sep: string): (r: seq<string>)
    requires |sep| > 0
    ensures PiecesOf(r, s, sep)
    decreases |s|
  {
    match Find(s, sep)
    case None => [s]
    case Some(i) =>
      var rest := SplitOn(s[i + |sep|..], sep);
      JoinFirst(s, sep, i, rest);
      [s[..i]] + rest
  }

  /** Splitting at an occurrence of `sep` at `i`: the piece before it,
      joined to the pieces after it, is `s` again. */
  lemma JoinFirst(s: string, sep: string, i: nat, rest: seq<string>)
    requires Find(s, sep) == Some(i) && PiecesOf(rest, s[i + |sep|..], sep)
    ensures PiecesOf([s[..i]] + rest, s, sep)
  {
    JoinCons(s[..i], rest, sep);
    Slices(s, i, i + |sep|);
  }

  /** Joining a part in front of at least one more. */
  lemma JoinCons(a: string, rest: seq<string>, sep: string)
    requires |rest| >= 1
    ensures var r := [a] + rest;
      && |r| > 1 && r[0] == a && r[|r| - 1] == rest[|rest| - 1]
      && Join(r, sep) == a + sep + Join(rest, sep)
  {
    assert ([a] + rest)[1..] == rest;
  }

  /** A string is the concatenation of its slices at `i` and `j`. */
  lemma Slices(s: string, i: nat, j: nat)
    requires i <= j <= |s|
    ensures s == s[..i] + s[i..j] + s[j..]
  {
    assert s[..i] + s[i..] == s;
    assert s[i..] == s[i..j] + s[j..];
  }
}
