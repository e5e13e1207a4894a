/** Splitting a document's text into lines and each line into tokens.
    A token is a maximal run of whitespace or a maximal run of
    non-whitespace characters; a line without any non-whitespace
    character has no tokens at all. */
module Tokenizer {

  /** The characters Python's `str.isspace` accepts. The same set is what
      `str.strip()` removes and what `\s` matches in a `str` pattern. */
  const SpaceChars: set<char> :=
    {'\t', '\n', '\U{0B}', '\U{0C}', '\r', '\U{1C}', '\U{1D}', '\U{1E}', '\U{1F}', ' ',
     '\U{85}', '\U{A0}', '\U{1680}',
     '\U{2000}', '\U{2001}', '\U{2002}', '\U{2003}', '\U{2004}', '\U{2005}',
     '\U{2006}', '\U{2007}', '\U{2008}', '\U{2009}', '\U{200A}',
     '\U{2028}', '\U{2029}', '\U{202F}', '\U{205F}', '\U{3000}'}

  predicate IsSpace(c: char) {
    c in SpaceChars
  }

  /** `s.strip() != ""`: the string holds at least one non-whitespace character. */
  predicate HasContent(s: string) {
    exists i :: 0 <= i < |s| && !IsSpace(s[i])
  }

  /** A non-empty string made only of whitespace. */
  predicate SpaceRun(t: string) {
    |t| > 0 && forall i :: 0 <= i < |t| ==> IsSpace(t[i])
  }

  /** A non-empty string without any whitespace. */
  predicate WordRun(t: string) {
    |t| > 0 && forall i :: 0 <= i < |t| ==> !IsSpace(t[i])
  }

  /** `"".join(pieces)` */
  function Join(pieces: seq<string>): string {
    if pieces == [] then "" else pieces[0] + Join(pieces[1..])
  }

  lemma {:induction false} JoinAppend(p: seq<string>, q: seq<string>)
    ensures Join(p + q) == Join(p) + Join(q)
  {
    if p != [] {
      assert (p + q)[1..] == p[1..] + q;
      JoinAppend(p[1..], q);
    } else {
      assert p + q == q;
    }
  }

  // ---------------------------------------------------------------------
  // text.split('\n')

  function CountNewlines(text: string): nat {
    if text == "" then 0
    else (if text[0] == '\n' then 1 else 0) + CountNewlines(text[1..])
  }

  /** `text.split('\n')`: always at least one line, possibly empty ones. */
  function SplitLines(text: string): (lines: seq<string>)
    ensures |lines| >= 1
  {
    if text == "" then [""]
    else
      var rest := SplitLines(text[1..]);
      if text[0] == '\n' then [""] + rest
      else [[text[0]] + rest[0]] + rest[1..]
  }

  /** `'\n'.join(lines)`, the inverse of SplitLines. */
  function JoinLines(lines: seq<string>): string
    requires |lines| >= 1
  {
    if |lines| == 1 then lines[0] else lines[0] + "\n" + JoinLines(lines[1..])
  }

  /** Splitting yields one more line than there are line breaks, no line
      holds a line break, and joining the lines with '\n' gives the text back. */
  lemma {:induction false} SplitLinesSpec(text: string)
    ensures |SplitLines(text)| == CountNewlines(text) + 1
    ensures forall i, k :: 0 <= i < |SplitLines(text)| && 0 <= k < |SplitLines(text)[i]|
              ==> SplitLines(text)[i][k] != '\n'
    ensures JoinLines(SplitLines(text)) == text
  {
    SplitLinesCount(text);
    SplitLinesNoBreak(text);
    SplitLinesJoin(text);
  }

  lemma {:induction false} SplitLinesCount(text: string)
    ensures |SplitLines(text)| == CountNewlines(text) + 1
  {
    if text != "" {
      SplitLinesCount(text[1..]);
    }
  }

  lemma {:induction false} SplitLinesNoBreak(text: string)
    ensures forall i, k :: 0 <= i < |SplitLines(text)| && 0 <= k < |SplitLines(text)[i]|
              ==> SplitLines(text)[i][k] != '\n'
  {
    if text != "" {
      var rest := SplitLines(text[1..]);
      SplitLinesNoBreak(text[1..]);
      var lines := SplitLines(text);
      forall i, k | 0 <= i < |lines| && 0 <= k < |lines[i]|
        ensures lines[i][k] != '\n'
      {
        if text[0] == '\n' {
          if i > 0 { assert lines[i] == rest[i - 1]; }
        } else if i == 0 {
          if k > 0 { assert lines[0][k] == rest[0][k - 1]; }
        } else {
          assert lines[i] == rest[i];
        }
      }
    }
  }

  lemma {:induction false} SplitLinesJoin(text: string)
    ensures JoinLines(SplitLines(text)) == text
  {
    if text != "" {
      var rest := SplitLines(text[1..]);
      SplitLinesJoin(text[1..]);
      var lines := SplitLines(text);
      if text[0] == '\n' {
        assert lines[1..] == rest;
        assert JoinLines(lines) == "" + "\n" + JoinLines(rest);
      } else if |rest| == 1 {
        assert JoinLines(lines) == [text[0]] + rest[0];
      } else {
        assert lines[1..] == rest[1..];
        assert JoinLines(lines) == ([text[0]] + rest[0]) + "\n" + JoinLines(rest[1..]);
        assert JoinLines(rest) == rest[0] + "\n" + JoinLines(rest[1..]);
      }
      assert text == [text[0]] + text[1..];
    }
  }

  // ---------------------------------------------------------------------
  // re.split(r'(\s+)', line) followed by dropping the empty pieces

  /** Length of the longest prefix of `s` whose characters are all
      whitespace (`space`) or all non-whitespace (`!space`). */
  function RunLength(s: string, space: bool): (n: nat)
    ensures n <= |s|
    ensures forall i :: 0 <= i < n ==> IsSpace(s[i]) == space
    ensures n < |s| ==> IsSpace(s[n]) != space
  {
    if s == "" || IsSpace(s[0]) != space then 0 else 1 + RunLength(s[1..], space)
  }

  /** `re.split(r'(\s+)', s)`: the pieces between maximal whitespace runs,
      with each run kept (the pattern captures it) between its neighbours.
      Pieces at even positions may be empty; runs at odd positions never are. */
  function SplitOnSpaceRuns(s: string): seq<string>
    decreases |s|
  {
    var w := RunLength(s, false);
    if w == |s| then [s]
    else
      var sp := RunLength(s[w..], true);
      [s[..w], s[w..w + sp]] + SplitOnSpaceRuns(s[w + sp..])
  }

  /** Joining the pieces gives the string back: the split loses nothing. */
  lemma {:induction false} SplitOnSpaceRunsJoin(s: string)
    ensures Join(SplitOnSpaceRuns(s)) == s
    decreases |s|
  {
    var w := RunLength(s, false);
    if w == |s| {
      assert Join([s]) == s + Join([]);
    } else {
      var sp := RunLength(s[w..], true);
      SplitOnSpaceRunsJoin(s[w + sp..]);
      JoinThree(s, w, w + sp, SplitOnSpaceRuns(s[w + sp..]));
    }
  }

  /** Cutting a string at two positions and joining the pieces gives it back. */
  lemma JoinThree(s: string, p: nat, q: nat, rest: seq<string>)
    requires p <= q <= |s|
    requires Join(rest) == s[q..]
    ensures Join([s[..p], s[p..q]] + rest) == s
  {
    JoinAppend([s[..p], s[p..q]], rest);
    assert Join([s[..p], s[p..q]]) == s[..p] + (s[p..q] + Join([]));
    assert s == s[..p] + s[p..q] + s[q..];
  }

  /** `[token for token in pieces if token]` */
  function NonEmpty(pieces: seq<string>): seq<string> {
    if pieces == [] then []
    else (if pieces[0] == "" then [] else [pieces[0]]) + NonEmpty(pieces[1..])
  }

  lemma {:induction false} NonEmptyAppend(p: seq<string>, q: seq<string>)
    ensures NonEmpty(p + q) == NonEmpty(p) + NonEmpty(q)
  {
    if p != [] {
      assert (p + q)[1..] == p[1..] + q;
      NonEmptyAppend(p[1..], q);
    } else {
      assert p + q == q;
    }
  }

  /** The tokens of one line (the body of the loop over lines). A line
      whose `strip()` is empty is replaced by `[""]`, which the filter then
      drops, so it yields no tokens. */
  function TokenizeLine(line: string): seq<string> {
    NonEmpty(if HasContent(line) then SplitOnSpaceRuns(line) else [""])
  }

  /** `tokenize_text`: one token list per line of the text. */
  function TokenizeText(text: string): seq<seq<string>> {
    var lines := SplitLines(text);
    seq(|lines|, i requires 0 <= i < |lines| => TokenizeLine(lines[i]))
  }

  // ---------------------------------------------------------------------
  // Reference definition: the maximal runs of a string

  /** The string cut into maximal runs of one kind of character. */
  function Runs(s: string): seq<string>
    decreases |s|
  {
    if s == "" then []
    else
      var n := RunLength(s, IsSpace(s[0]));
      [s[..n]] + Runs(s[n..])
  }

  /** The maximal runs are non-empty, each of a single kind, alternate in
      kind, and concatenate back to the string. */
  lemma {:induction false} RunsSpec(s: string)
    ensures Join(Runs(s)) == s
    ensures forall k :: 0 <= k < |Runs(s)| ==> SpaceRun(Runs(s)[k]) || WordRun(Runs(s)[k])
    ensures forall k :: 0 <= k < |Runs(s)| - 1 ==> SpaceRun(Runs(s)[k]) != SpaceRun(Runs(s)[k + 1])
    ensures Runs(s) != [] ==> Runs(s)[0][0] == s[0]
  {
    RunsJoin(s);
    RunsKinds(s);
    RunsAlternate(s);
    if s != "" {
      FirstRun(s);
    }
  }

  /** The first run: at least one character, all of the first character's
      kind, and followed (if anything follows) by the other kind. */
  lemma FirstRun(s: string)
    requires s != ""
    ensures var n := RunLength(s, IsSpace(s[0]));
            1 <= n <= |s|
            && Runs(s) == [s[..n]] + Runs(s[n..])
            && (SpaceRun(s[..n]) || WordRun(s[..n]))
            && SpaceRun(s[..n]) == IsSpace(s[0])
            && (n < |s| ==> IsSpace(s[n]) != IsSpace(s[0]))
  {
    var space := IsSpace(s[0]);
    var n := RunLength(s, space);
    var run := s[..n];
    assert n >= 1;
    assert forall i :: 0 <= i < n ==> run[i] == s[i];
    if space {
      assert SpaceRun(run);
    } else {
      assert WordRun(run);
      assert !SpaceRun(run) by { assert !IsSpace(run[0]); }
    }
  }

  lemma {:induction false} RunsJoin(s: string)
    ensures Join(Runs(s)) == s
    decreases |s|
  {
    if s != "" {
      FirstRun(s);
      var n := RunLength(s, IsSpace(s[0]));
      RunsJoin(s[n..]);
      assert Join(Runs(s)) == s[..n] + Join(Runs(s[n..]));
      assert s == s[..n] + s[n..];
    }
  }

  lemma {:induction false} RunsKinds(s: string)
    ensures forall k :: 0 <= k < |Runs(s)| ==> SpaceRun(Runs(s)[k]) || WordRun(Runs(s)[k])
    ensures Runs(s) != [] ==> Runs(s)[0] != "" && SpaceRun(Runs(s)[0]) == IsSpace(s[0])
    decreases |s|
  {
    if s != "" {
      FirstRun(s);
      var n := RunLength(s, IsSpace(s[0]));
      var r, rest := Runs(s), Runs(s[n..]);
      RunsKinds(s[n..]);
      forall k | 0 <= k < |r| ensures SpaceRun(r[k]) || WordRun(r[k]) {
        if k > 0 { assert r[k] == rest[k - 1]; }
      }
    }
  }

  lemma {:induction false} RunsAlternate(s: string)
    ensures forall k :: 0 <= k < |Runs(s)| - 1 ==> SpaceRun(Runs(s)[k]) != SpaceRun(Runs(s)[k + 1])
    decreases |s|
  {
    if s != "" {
      FirstRun(s);
      var n := RunLength(s, IsSpace(s[0]));
      var r, rest := Runs(s), Runs(s[n..]);
      RunsAlternate(s[n..]);
      RunsKinds(s[n..]);
      forall k | 0 <= k < |r| - 1 ensures SpaceRun(r[k]) != SpaceRun(r[k + 1]) {
        if k == 0 {
          assert r[1] == rest[0];
          assert s[n..][0] == s[n];
        } else {
          assert r[k] == rest[k - 1] && r[k + 1] == rest[k];
        }
      }
    }
  }

  /** Splitting on whitespace runs and dropping the empty pieces gives
      exactly the maximal runs. */
  lemma {:induction false} SplitThenFilterIsRuns(s: string)
    ensures NonEmpty(SplitOnSpaceRuns(s)) == Runs(s)
    decreases |s|
  {
    if RunLength(s, false) == |s| {
      SplitThenFilterWord(s);
    } else {
      var w, sp := SplitUnfold(s);
      SplitThenFilterIsRuns(s[w + sp..]);
      SplitThenFilterStep(s, w, sp);
    }
  }

  /** One step of the split: the word piece, the whitespace run after it,
      then the split of the rest. */
  lemma SplitUnfold(s: string) returns (w: nat, sp: nat)
    requires RunLength(s, false) < |s|
    ensures w == RunLength(s, false) && sp == RunLength(s[w..], true)
    ensures w < w + sp <= |s|
    ensures SplitOnSpaceRuns(s) == [s[..w], s[w..w + sp]] + SplitOnSpaceRuns(s[w + sp..])
  {
    w := RunLength(s, false);
    sp := RunLength(s[w..], true);
  }

  /** A string without whitespace is one piece, and its only run. */
  lemma SplitThenFilterWord(s: string)
    requires RunLength(s, false) == |s|
    ensures NonEmpty(SplitOnSpaceRuns(s)) == Runs(s)
  {
    assert SplitOnSpaceRuns(s) == [s];
    NonEmptySingle(s);
    if s != "" {
      RunsUnfold(s, false);
      assert s[|s|..] == "" && s[..|s|] == s;
    }
  }

  /** A word piece and the whitespace run after it, filtered, are the
      first runs of the string. */
  lemma SplitThenFilterStep(s: string, w: nat, sp: nat)
    requires w == RunLength(s, false) < |s|
    requires sp == RunLength(s[w..], true)
    requires SplitOnSpaceRuns(s) == [s[..w], s[w..w + sp]] + SplitOnSpaceRuns(s[w + sp..])
    requires NonEmpty(SplitOnSpaceRuns(s[w + sp..])) == Runs(s[w + sp..])
    ensures NonEmpty(SplitOnSpaceRuns(s)) == Runs(s)
  {
    var t := s[w + sp..];
    var word, space := s[..w], s[w..w + sp];
    NonEmptyAppend([word, space], SplitOnSpaceRuns(t));
    NonEmptyAppend([word], [space]);
    NonEmptySingle(word);
    NonEmptySingle(space);
    SpaceRunsUnfold(s, w, sp);
    assert NonEmpty(SplitOnSpaceRuns(s)) == NonEmpty([word]) + [space] + Runs(t);
    assert Runs(s[w..]) == [space] + Runs(t);
    if w > 0 {
      RunsUnfold(s, false);
      assert Runs(s) == [word] + Runs(s[w..]);
    } else {
      assert s[w..] == s;
    }
  }

  /** The first maximal run of a string, then the runs of the rest. */
  lemma RunsUnfold(s: string, space: bool)
    requires s != "" && IsSpace(s[0]) == space
    ensures Runs(s) == [s[..RunLength(s, space)]] + Runs(s[RunLength(s, space)..])
  {
  }

  /** The runs from a whitespace run at `w` on. */
  lemma SpaceRunsUnfold(s: string, w: nat, sp: nat)
    requires w < |s| && IsSpace(s[w])
    requires sp == RunLength(s[w..], true)
    ensures w + sp <= |s|
    ensures Runs(s[w..]) == [s[w..w + sp]] + Runs(s[w + sp..])
  {
    var u := s[w..];
    RunsUnfold(u, true);
    assert u[..sp] == s[w..w + sp] && u[sp..] == s[w + sp..];
  }

  lemma NonEmptySingle(x: string)
    ensures NonEmpty([x]) == if x == "" then [] else [x]
  {
    assert [x][1..] == [];
  }

  /** A line with non-whitespace content becomes its maximal runs:
      non-empty tokens, each all whitespace or all non-whitespace,
      alternating in kind, that concatenate back to the line. A line
      whose `strip()` is empty yields no token. */
  lemma TokenizeLineSpec(line: string)
    ensures !HasContent(line) ==> TokenizeLine(line) == []
    ensures HasContent(line) ==> TokenizeLine(line) == Runs(line)
    ensures Join(TokenizeLine(line)) == (if HasContent(line) then line else "")
    ensures forall k :: 0 <= k < |TokenizeLine(line)| ==>
              SpaceRun(TokenizeLine(line)[k]) || WordRun(TokenizeLine(line)[k])
    ensures forall k :: 0 <= k < |TokenizeLine(line)| - 1 ==>
              SpaceRun(TokenizeLine(line)[k]) != SpaceRun(TokenizeLine(line)[k + 1])
  {
    if HasContent(line) {
      SplitThenFilterIsRuns(line);
      RunsSpec(line);
    } else {
      assert NonEmpty([""]) == [] + NonEmpty([]);
    }
  }

  /** The text yields (number of line breaks) + 1 token lists, the whole
      empty text yields one empty list, and every token is non-empty. */
  lemma TokenizeTextSpec(text: string)
    ensures |TokenizeText(text)| == CountNewlines(text) + 1
    ensures text == "" ==> TokenizeText(text) == [[]]
    ensures forall i, k :: 0 <= i < |TokenizeText(text)| && 0 <= k < |TokenizeText(text)[i]|
              ==> TokenizeText(text)[i][k] != ""
  {
    SplitLinesSpec(text);
    var lines := SplitLines(text);
    forall i, k | 0 <= i < |lines| && 0 <= k < |TokenizeText(text)[i]|
      ensures TokenizeText(text)[i][k] != ""
    {
      TokenizeLineSpec(lines[i]);
    }
    if text == "" {
      TokenizeLineSpec("");
    }
  }
}
