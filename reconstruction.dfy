/** `reconstruct_lines`: cutting one labelled stream back into lines, using
    only how many tokens each original line had. */
module Reconstruction {
  import opened Alignment

  /** The tokens absorbed into a line after its quota: `token in [' ', '\t']`. */
  predicate Absorbable(token: string) {
    token == " " || token == "\t"
  }

  /** The lines laid end to end. */
  function Concat(lines: seq<seq<Entry>>): seq<Entry> {
    if lines == [] then [] else Concat(lines[..|lines| - 1]) + lines[|lines| - 1]
  }

  /** Position in the stream just after line `i`. */
  function End(lines: seq<seq<Entry>>, i: nat): nat
    requires i < |lines|
  {
    |Concat(lines[..i + 1])|
  }

  lemma ConcatSnoc(lines: seq<seq<Entry>>, line: seq<Entry>)
    ensures Concat(lines + [line]) == Concat(lines) + line
  {
    assert (lines + [line])[..|lines|] == lines;
  }

  lemma PlaceholdersSnoc(n: nat)
    ensures Placeholders(n + 1) == Placeholders(n) + [Placeholder]
  {
  }

  /** The body of the loop over the original lines: take `quota` entries
      from `start` on, padding with `('', 'missing')` once the stream is
      exhausted, then every immediately following `' '` or `'\t'` entry.
      The line is the stream from `start` to `next` followed only by
      padding, it holds at least its quota and beyond it only absorbed
      entries, and the entry at `next` could not have been absorbed. */
  method TakeLine(aligned: seq<Entry>, start: nat, quota: nat)
    returns (line: seq<Entry>, next: nat)
    requires start <= |aligned|
    ensures start <= next <= |aligned|
    ensures |line| >= quota && |line| >= next - start
    ensures line == aligned[start..next] + Placeholders(|line| - (next - start))
    ensures |line| > next - start ==> next == |aligned|
    ensures forall k :: quota <= k < |line| ==> Absorbable(line[k].token)
    ensures next < |aligned| ==> !Absorbable(aligned[next].token)
  {
    line, next := [], start;
    ghost var padded := 0;
    for t := 0 to quota
      invariant |line| == t
      invariant start <= next <= |aligned|
      invariant line == aligned[start..next] + Placeholders(padded)
      invariant padded > 0 ==> next == |aligned|
    {
      if next < |aligned| {
        assert aligned[start..next + 1] == aligned[start..next] + [aligned[next]];
        line := line + [aligned[next]];
        next := next + 1;
      } else {
        PlaceholdersSnoc(padded);
        line := line + [Placeholder];
        padded := padded + 1;
      }
    }
    while next < |aligned| && Absorbable(aligned[next].token)
      invariant start <= next <= |aligned|
      invariant |line| >= quota
      invariant forall k :: quota <= k < |line| ==> Absorbable(line[k].token)
      invariant line == aligned[start..next] + Placeholders(padded)
      invariant padded > 0 ==> next == |aligned|
      decreases |aligned| - next
    {
      assert aligned[start..next + 1] == aligned[start..next] + [aligned[next]];
      line := line + [aligned[next]];
      next := next + 1;
    }
  }

  /** `lines` is how `reconstruct_lines` lays `aligned` out over the
      original lines: one line per original line and at most one more;
      the lines laid end to end are the stream followed only by padding;
      padding and an extra line never both occur; the extra line is there
      exactly when entries remain after the original lines; each original
      line holds its quota and beyond it only `' '`/`'\t'` entries; and the
      entry that follows an original line in the stream is never one that
      could have been absorbed. These facts determine `lines` completely. */
  predicate LaidOut(aligned: seq<Entry>, original: seq<seq<string>>, lines: seq<seq<Entry>>) {
    |original| <= |lines| <= |original| + 1
    && |Concat(lines)| >= |aligned|
    && Concat(lines) == aligned + Placeholders(|Concat(lines)| - |aligned|)
    && (|Concat(lines)| > |aligned| ==> |lines| == |original|)
    && (|lines| == |original| + 1 <==> |Concat(lines[..|original|])| < |aligned|)
    && (forall i :: 0 <= i < |original| ==> |lines[i]| >= |original[i]|)
    && (forall i, k :: 0 <= i < |original| && |original[i]| <= k < |lines[i]|
          ==> Absorbable(lines[i][k].token))
    && (forall i :: 0 <= i < |original| && End(lines, i) < |aligned|
          ==> !Absorbable(aligned[End(lines, i)].token))
  }

  /** Each original line gets exactly its original number of entries
      (padded with `('', 'missing')` once the stream is exhausted), then
      every immediately following `' '` or `'\t'` entry; whatever is left
      after the last original line becomes one extra line. */
  method ReconstructLines(aligned: seq<Entry>, original: seq<seq<string>>)
    returns (lines: seq<seq<Entry>>)
    ensures LaidOut(aligned, original, lines)
  {
    lines := [];
    var index := 0;
    ghost var padded: nat := 0;
    for li := 0 to |original|
      invariant |lines| == li
      invariant LinesSoFar(aligned, original, lines, index, padded)
    {
      var lineTokens, next := TakeLine(aligned, index, |original[li]|);
      LinesSoFarStep(aligned, original, lines, index, padded, lineTokens, next);
      padded := padded + (|lineTokens| - (next - index));
      lines := lines + [lineTokens];
      index := next;
    }
    if index < |aligned| {
      ghost var before := lines;
      ConcatSnoc(lines, aligned[index..]);
      lines := lines + [aligned[index..]];
      assert lines[..|original|] == before;
      assert Placeholders(padded) == [];
      assert aligned[..index] + aligned[index..] == aligned;
      forall i | 0 <= i < |original| ensures End(lines, i) == End(before, i) {
        assert lines[..i + 1] == before[..i + 1];
      }
    } else {
      assert lines[..|original|] == lines;
      assert aligned[..index] == aligned;
      assert |Concat(lines)| - |aligned| == padded;
    }
  }

  /** The loop invariant of `ReconstructLines` after the first `|lines|`
      original lines: the lines so far lay out the stream up to `index`
      followed by `padded` placeholders, each holds its quota and beyond
      it only absorbable entries, and the entry after each line could not
      have been absorbed. */
  ghost predicate LinesSoFar(aligned: seq<Entry>, original: seq<seq<string>>,
                             lines: seq<seq<Entry>>, index: nat, padded: nat)
  {
    |lines| <= |original| && index <= |aligned|
    && Concat(lines) == aligned[..index] + Placeholders(padded)
    && (padded > 0 ==> index == |aligned|)
    && (forall i :: 0 <= i < |lines| ==> |lines[i]| >= |original[i]|)
    && (forall i, k :: 0 <= i < |lines| && |original[i]| <= k < |lines[i]|
          ==> Absorbable(lines[i][k].token))
    && (forall i :: 0 <= i < |lines| && End(lines, i) < |aligned|
          ==> !Absorbable(aligned[End(lines, i)].token))
  }

  /** One pass of the loop body keeps `LinesSoFar`. */
  lemma LinesSoFarStep(aligned: seq<Entry>, original: seq<seq<string>>, lines: seq<seq<Entry>>,
                       index: nat, padded: nat, line: seq<Entry>, next: nat)
    requires LinesSoFar(aligned, original, lines, index, padded)
    requires |lines| < |original|
    requires index <= next <= |aligned|
    requires |line| >= |original[|lines|]| && |line| >= next - index
    requires line == aligned[index..next] + Placeholders(|line| - (next - index))
    requires |line| > next - index ==> next == |aligned|
    requires forall k :: |original[|lines|]| <= k < |line| ==> Absorbable(line[k].token)
    requires next < |aligned| ==> !Absorbable(aligned[next].token)
    ensures LinesSoFar(aligned, original, lines + [line], next, padded + (|line| - (next - index)))
  {
    var extra: nat := |line| - (next - index);
    var after := lines + [line];
    AppendLine(aligned, index, padded, next, extra, Concat(lines), line);
    ConcatSnoc(lines, line);
    assert Concat(after) == aligned[..next] + Placeholders(padded + extra);
    forall i | 0 <= i < |after| ensures |after[i]| >= |original[i]| {
      if i < |lines| { assert after[i] == lines[i]; }
    }
    forall i, k | 0 <= i < |after| && |original[i]| <= k < |after[i]|
      ensures Absorbable(after[i][k].token)
    {
      if i < |lines| { assert after[i] == lines[i]; }
    }
    forall i | 0 <= i < |after| && End(after, i) < |aligned|
      ensures !Absorbable(aligned[End(after, i)].token)
    {
      if i < |lines| {
        assert after[..i + 1] == lines[..i + 1];
        assert End(after, i) == End(lines, i);
      } else {
        assert after[..i + 1] == after;
        assert End(after, i) == next + padded + extra;
        assert padded + extra == 0;
      }
    }
  }

  /** Appending a taken line keeps "the stream so far, then padding". */
  lemma AppendLine(aligned: seq<Entry>, index: nat, padded: nat, next: nat, extra: nat,
                   done: seq<Entry>, line: seq<Entry>)
    requires index <= next <= |aligned|
    requires done == aligned[..index] + Placeholders(padded)
    requires padded > 0 ==> index == |aligned|
    requires line == aligned[index..next] + Placeholders(extra)
    requires extra > 0 ==> next == |aligned|
    ensures done + line == aligned[..next] + Placeholders(padded + extra)
  {
    if padded > 0 {
      assert next == index;
      assert aligned[index..next] == [];
      assert Placeholders(padded) + Placeholders(extra) == Placeholders(padded + extra);
    } else {
      assert aligned[..index] + aligned[index..next] == aligned[..next];
    }
  }

  /** An entry of a line sits in the lines laid end to end, at the line's
      offset plus its own position. */
  lemma {:induction false} ConcatIndex(lines: seq<seq<Entry>>, i: nat, k: nat)
    requires i < |lines| && k < |lines[i]|
    ensures |Concat(lines[..i])| + k < |Concat(lines)|
    ensures Concat(lines)[|Concat(lines[..i])| + k] == lines[i][k]
    decreases |lines|
  {
    var n := |lines| - 1;
    assert lines[..n] + [lines[n]] == lines;
    ConcatSnoc(lines[..n], lines[n]);
    if i < n {
      assert lines[..n][..i] == lines[..i];
      ConcatIndex(lines[..n], i, k);
      ConcatPrefixShorter(lines[..n], i);
    } else {
      assert lines[..i] == lines[..n];
    }
  }

  lemma {:induction false} ConcatPrefixShorter(lines: seq<seq<Entry>>, i: nat)
    requires i <= |lines|
    ensures |Concat(lines[..i])| <= |Concat(lines)|
    decreases |lines|
  {
    if i < |lines| {
      var n := |lines| - 1;
      assert lines[..n] + [lines[n]] == lines;
      ConcatSnoc(lines[..n], lines[n]);
      assert lines[..n][..i] == lines[..i];
      ConcatPrefixShorter(lines[..n], i);
    } else {
      assert lines[..i] == lines;
    }
  }

  /** Entry `k` of line `i` is the stream entry at the line's offset plus
      `k`, or a `('', 'missing')` placeholder past the end of the stream. */
  lemma LaidEntry(aligned: seq<Entry>, original: seq<seq<string>>, lines: seq<seq<Entry>>, i: nat, k: nat)
    requires LaidOut(aligned, original, lines)
    requires i < |lines| && k < |lines[i]|
    ensures |Concat(lines[..i])| + k < |aligned| ==> lines[i][k] == aligned[|Concat(lines[..i])| + k]
    ensures |Concat(lines[..i])| + k >= |aligned| ==> lines[i][k] == Placeholder
  {
    ConcatIndex(lines, i, k);
    var p := |Concat(lines[..i])| + k;
    var pad := |Concat(lines)| - |aligned|;
    if p >= |aligned| {
      assert Concat(lines)[p] == Placeholders(pad)[p - |aligned|];
    }
  }

  /** The entries a line absorbed beyond its quota come from the stream,
      never from the padding after it. */
  lemma ExtrasInStream(aligned: seq<Entry>, original: seq<seq<string>>, lines: seq<seq<Entry>>, i: nat, k: nat)
    requires LaidOut(aligned, original, lines)
    requires i < |original| && |original[i]| <= k < |lines[i]|
    ensures |Concat(lines[..i])| + k < |aligned|
  {
    LaidEntry(aligned, original, lines, i, k);
    assert Absorbable(lines[i][k].token);
  }

  /** A stream laid out over a single original line whose quota is the
      whole stream comes back as exactly that one line: no padding, since
      padding is never absorbed, and no extra line. */
  lemma LaidSingleLine(aligned: seq<Entry>, original: seq<seq<string>>, lines: seq<seq<Entry>>)
    requires LaidOut(aligned, original, lines)
    requires |original| == 1 && |original[0]| == |aligned|
    ensures lines == [aligned]
  {
    LaidOneLine(aligned, original, lines);
    var pad := |lines[0]| - |aligned|;
    assert lines[..0] == [];
    if pad > 0 {
      ExtrasInStream(aligned, original, lines, 0, |aligned|);
      assert false;
    }
    assert Placeholders(0) == [] && aligned + [] == aligned;
    assert lines[0] == aligned;
  }

  /** A single original line whose quota is the whole stream leaves
      nothing for an extra line. */
  lemma LaidOneLine(aligned: seq<Entry>, original: seq<seq<string>>, lines: seq<seq<Entry>>)
    requires LaidOut(aligned, original, lines)
    requires |original| == 1 && |original[0]| == |aligned|
    ensures lines == [lines[0]]
    ensures lines[0] == aligned + Placeholders(|lines[0]| - |aligned|)
  {
    var line := lines[0];
    assert lines[..1] == [line] && [] + [line] == [line];
    ConcatSnoc([], line);
    assert |lines| == 1;
    assert lines == [line];
  }

  /** What holds of every entry of the lines laid end to end holds of
      every entry of every line. */
  lemma EntriesOfLines(lines: seq<seq<Entry>>, P: Entry -> bool)
    requires forall j :: 0 <= j < |Concat(lines)| ==> P(Concat(lines)[j])
    ensures forall i, k :: 0 <= i < |lines| && 0 <= k < |lines[i]| ==> P(lines[i][k])
  {
    forall i, k | 0 <= i < |lines| && 0 <= k < |lines[i]| ensures P(lines[i][k]) {
      ConcatIndex(lines, i, k);
    }
  }
}
