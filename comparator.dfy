/** `compare_documents`: flatten both token lists, label them from the
    edit script, and cut each labelled stream back into lines. The edit
    script is a parameter: it stands for what `SequenceMatcher` computes. */
module Comparator {
  import opened Tokenizer
  import opened Alignment
  import opened Reconstruction
  import opened Analysis

  /** `len([t for t in tokens if t.strip()])`: the words of a token sequence. */
  function ContentCount(tokens: seq<string>): nat {
    if tokens == [] then 0
    else ContentCount(tokens[..|tokens| - 1]) + (if HasContent(tokens[|tokens| - 1]) then 1 else 0)
  }

  /** Both documents become aligned lines: each side is its labelled
      stream (`Label1`/`Label2` of the edit script) laid out over that
      document's original lines, so there is at least one line per
      original line and at most one more. With non-empty tokens (what the tokenizer
      produces), each side's entries without the `''` ones are exactly that
      document's tokens in order, so its word count is unchanged; document
      1 never carries `added`, document 2 carries `missing` only on `''`
      placeholders; and when every opcode is `equal`, every word on both
      sides is `same` and both sides have as many words. */
  method CompareDocuments(doc1: seq<seq<string>>, doc2: seq<seq<string>>, ops: seq<Opcode>)
    returns (aligned1: seq<seq<Entry>>, aligned2: seq<seq<Entry>>)
    requires WellFormed(ops, Flatten(doc1), Flatten(doc2))
    ensures InRange(ops, Flatten(doc1), Flatten(doc2))
    ensures LaidOut(Label1(ops, Flatten(doc1), Flatten(doc2)), doc1, aligned1)
    ensures LaidOut(Label2(ops, Flatten(doc1), Flatten(doc2)), doc2, aligned2)
    ensures |doc1| <= |aligned1| <= |doc1| + 1 && |doc2| <= |aligned2| <= |doc2| + 1
    ensures NonEmptyTokens(doc1) ==> Originals(Concat(aligned1)) == Flatten(doc1)
    ensures NonEmptyTokens(doc2) ==> Originals(Concat(aligned2)) == Flatten(doc2)
    ensures NonEmptyTokens(doc1) ==> TotalWords(aligned1) == ContentCount(Flatten(doc1))
    ensures NonEmptyTokens(doc2) ==> TotalWords(aligned2) == ContentCount(Flatten(doc2))
    ensures NonEmptyTokens(doc1) ==> NoAdded(aligned1)
    ensures NonEmptyTokens(doc2) ==>
              forall i, k :: 0 <= i < |aligned2| && 0 <= k < |aligned2[i]| && aligned2[i][k].status == Missing
                ==> aligned2[i][k].token == ""
    ensures (forall k :: 0 <= k < |ops| ==> ops[k].tag == Equal) ==>
              AllWordsSame(aligned1) && AllWordsSame(aligned2) && TotalWords(aligned1) == TotalWords(aligned2)
  {
    var flat1, flat2 := Flatten(doc1), Flatten(doc2);
    var stream1, stream2 := LabelOpcodes(flat1, flat2, ops);
    aligned1 := ReconstructLines(stream1, doc1);
    aligned2 := ReconstructLines(stream2, doc2);
    BothLaid(doc1, doc2, ops, stream1, stream2, aligned1, aligned2);
  }

  /** A mixed script pins the result down: for `a b` against `a c` with
      `equal` over `a ` and `replace` of `b` by `c`, document 1's side is
      the single line `a`/same, `' '`/same, `b`/different. */
  lemma MixedScriptLaidOut(aligned1: seq<seq<Entry>>)
    requires LaidOut(Label1([Opcode(Equal, 0, 2, 0, 2), Opcode(Replace, 2, 3, 2, 3)],
                            ["a", " ", "b"], ["a", " ", "c"]),
                     [["a", " ", "b"]], aligned1)
    ensures aligned1 == [[Entry("a", Same), Entry(" ", Same), Entry("b", Different)]]
  {
    var op0, op1 := Opcode(Equal, 0, 2, 0, 2), Opcode(Replace, 2, 3, 2, 3);
    var ops := [op0, op1];
    var a, b := ["a", " ", "b"], ["a", " ", "c"];
    assert ops[..1] == [op0] && [op0][..0] == [];
    assert a[0..2] == ["a", " "] && a[2..3] == ["b"];
    assert Emit1(op0, a) == Mark(["a", " "], Same) == [Entry("a", Same), Entry(" ", Same)];
    assert Emit1(op1, a) == Mark(["b"], Different) == [Entry("b", Different)];
    assert Label1([op0], a, b) == Label1([], a, b) + Emit1(op0, a);
    assert Label1(ops, a, b) == Label1([op0], a, b) + Emit1(op1, a)
        == [Entry("a", Same), Entry(" ", Same), Entry("b", Different)];
    LaidSingleLine(Label1(ops, a, b), [["a", " ", "b"]], aligned1);
  }

  /** What `CompareDocuments` promises about its two results, from each
      being its labelled stream followed only by padding. */
  lemma BothLaid(doc1: seq<seq<string>>, doc2: seq<seq<string>>, ops: seq<Opcode>,
                 stream1: seq<Entry>, stream2: seq<Entry>,
                 aligned1: seq<seq<Entry>>, aligned2: seq<seq<Entry>>)
    requires WellFormed(ops, Flatten(doc1), Flatten(doc2))
    requires InRange(ops, Flatten(doc1), Flatten(doc2))
    requires stream1 == Label1(ops, Flatten(doc1), Flatten(doc2))
    requires stream2 == Label2(ops, Flatten(doc1), Flatten(doc2))
    requires LaidOut(stream1, doc1, aligned1)
    requires LaidOut(stream2, doc2, aligned2)
    ensures NonEmptyTokens(doc1) ==> Originals(Concat(aligned1)) == Flatten(doc1)
    ensures NonEmptyTokens(doc2) ==> Originals(Concat(aligned2)) == Flatten(doc2)
    ensures NonEmptyTokens(doc1) ==> TotalWords(aligned1) == ContentCount(Flatten(doc1))
    ensures NonEmptyTokens(doc2) ==> TotalWords(aligned2) == ContentCount(Flatten(doc2))
    ensures NonEmptyTokens(doc1) ==> NoAdded(aligned1)
    ensures NonEmptyTokens(doc2) ==>
              forall i, k :: 0 <= i < |aligned2| && 0 <= k < |aligned2[i]| && aligned2[i][k].status == Missing
                ==> aligned2[i][k].token == ""
    ensures (forall k :: 0 <= k < |ops| ==> ops[k].tag == Equal) ==>
              AllWordsSame(aligned1) && AllWordsSame(aligned2) && TotalWords(aligned1) == TotalWords(aligned2)
  {
    Document1Laid(doc1, doc2, ops, aligned1);
    Document2Laid(doc1, doc2, ops, aligned2);
    EqualLaid(Flatten(doc1), Flatten(doc2), ops, stream1, stream2, aligned1, aligned2);
  }

  /** With only `equal` opcodes both labelled streams are the same run of
      `same` entries, so both sides have only `same` words, equally many. */
  lemma EqualLaid(a: seq<string>, b: seq<string>, ops: seq<Opcode>,
                  stream1: seq<Entry>, stream2: seq<Entry>,
                  aligned1: seq<seq<Entry>>, aligned2: seq<seq<Entry>>)
    requires WellFormed(ops, a, b)
    requires stream1 == Label1(ops, a, b) && stream2 == Label2(ops, a, b)
    requires |Concat(aligned1)| >= |stream1|
    requires Concat(aligned1) == stream1 + Placeholders(|Concat(aligned1)| - |stream1|)
    requires |Concat(aligned2)| >= |stream2|
    requires Concat(aligned2) == stream2 + Placeholders(|Concat(aligned2)| - |stream2|)
    ensures (forall k :: 0 <= k < |ops| ==> ops[k].tag == Equal) ==>
              AllWordsSame(aligned1) && AllWordsSame(aligned2) && TotalWords(aligned1) == TotalWords(aligned2)
  {
    if forall k :: 0 <= k < |ops| ==> ops[k].tag == Equal {
      AllEqualIsSame(ops, a, b);
      SameLaid(stream1, aligned1);
      SameLaid(stream2, aligned2);
      PaddedStream(aligned1, stream1);
      PaddedStream(aligned2, stream2);
    }
  }

  /** Document 1's labelled stream, laid out as lines followed only by
      padding: with non-empty tokens, the lines keep the document's tokens
      and word count and carry no `added` entry. */
  lemma Document1Laid(doc1: seq<seq<string>>, doc2: seq<seq<string>>, ops: seq<Opcode>,
                      lines: seq<seq<Entry>>)
    requires WellFormed(ops, Flatten(doc1), Flatten(doc2))
    requires InRange(ops, Flatten(doc1), Flatten(doc2))
    requires |Concat(lines)| >= |Label1(ops, Flatten(doc1), Flatten(doc2))|
    requires Concat(lines) == Label1(ops, Flatten(doc1), Flatten(doc2))
               + Placeholders(|Concat(lines)| - |Label1(ops, Flatten(doc1), Flatten(doc2))|)
    ensures NonEmptyTokens(doc1) ==> Originals(Concat(lines)) == Flatten(doc1)
    ensures NonEmptyTokens(doc1) ==> TotalWords(lines) == ContentCount(Flatten(doc1))
    ensures NonEmptyTokens(doc1) ==> NoAdded(lines)
  {
    if NonEmptyTokens(doc1) {
      var flat1, flat2 := Flatten(doc1), Flatten(doc2);
      var stream := Label1(ops, flat1, flat2);
      FlattenNonEmpty(doc1);
      LabelKeepsDocument1(ops, flat1, flat2);
      Label1Statuses(ops, flat1, flat2);
      PaddedStream(lines, stream);
      PaddedStreamEntries(lines, stream, (e: Entry) => e.status != Added);
    }
  }

  /** Document 2's labelled stream, laid out as lines followed only by
      padding: with non-empty tokens, the lines keep the document's tokens
      and word count and carry `missing` only on `''` entries. */
  lemma Document2Laid(doc1: seq<seq<string>>, doc2: seq<seq<string>>, ops: seq<Opcode>,
                      lines: seq<seq<Entry>>)
    requires WellFormed(ops, Flatten(doc1), Flatten(doc2))
    requires InRange(ops, Flatten(doc1), Flatten(doc2))
    requires |Concat(lines)| >= |Label2(ops, Flatten(doc1), Flatten(doc2))|
    requires Concat(lines) == Label2(ops, Flatten(doc1), Flatten(doc2))
               + Placeholders(|Concat(lines)| - |Label2(ops, Flatten(doc1), Flatten(doc2))|)
    ensures NonEmptyTokens(doc2) ==> Originals(Concat(lines)) == Flatten(doc2)
    ensures NonEmptyTokens(doc2) ==> TotalWords(lines) == ContentCount(Flatten(doc2))
    ensures NonEmptyTokens(doc2) ==>
              forall i, k :: 0 <= i < |lines| && 0 <= k < |lines[i]| && lines[i][k].status == Missing
                ==> lines[i][k].token == ""
  {
    if NonEmptyTokens(doc2) {
      var flat1, flat2 := Flatten(doc1), Flatten(doc2);
      var stream := Label2(ops, flat1, flat2);
      FlattenNonEmpty(doc2);
      LabelKeepsDocument2(ops, flat1, flat2);
      Label2Statuses(ops, flat1, flat2);
      PaddedStream(lines, stream);
      PaddedStreamEntries(lines, stream, (e: Entry) => e.status == Missing ==> e.token == "");
    }
  }

  /** A stream of `same` entries, laid out as lines followed only by
      padding, has only `same` words. */
  lemma SameLaid(stream: seq<Entry>, lines: seq<seq<Entry>>)
    requires forall j :: 0 <= j < |stream| ==> stream[j].status == Same
    requires |Concat(lines)| >= |stream|
    requires Concat(lines) == stream + Placeholders(|Concat(lines)| - |stream|)
    ensures AllWordsSame(lines)
  {
    PaddedStreamEntries(lines, stream, (e: Entry) => e.status == Same || e == Placeholder);
    SameOrPlaceholder(lines);
  }

  /** Lines made of `same` entries and placeholders have only `same` words. */
  lemma SameOrPlaceholder(lines: seq<seq<Entry>>)
    requires forall i, k :: 0 <= i < |lines| && 0 <= k < |lines[i]|
               ==> lines[i][k].status == Same || lines[i][k] == Placeholder
    ensures AllWordsSame(lines)
  {
    assert !IsWord(Placeholder);
    forall i | 0 <= i < |lines| ensures WordsSame(lines[i]) {
    }
  }

  /** Lines that lay out a stream followed only by padding keep the
      stream's non-`''` tokens and its word count. */
  lemma PaddedStream(lines: seq<seq<Entry>>, stream: seq<Entry>)
    requires |Concat(lines)| >= |stream|
    requires Concat(lines) == stream + Placeholders(|Concat(lines)| - |stream|)
    ensures Originals(Concat(lines)) == Originals(stream)
    ensures TotalWords(lines) == ContentCount(Originals(stream))
  {
    var pad := |Concat(lines)| - |stream|;
    OriginalsAppend(stream, Placeholders(pad));
    OriginalsPlaceholders(pad);
    WordsOfLines(lines);
    WordsAppend(stream, Placeholders(pad));
    WordsOfPlaceholders(pad);
    WordsAreContent(stream);
  }

  /** What holds of every stream entry and of the placeholder holds of
      every entry of lines that lay out the stream followed by padding. */
  lemma PaddedStreamEntries(lines: seq<seq<Entry>>, stream: seq<Entry>, P: Entry -> bool)
    requires |Concat(lines)| >= |stream|
    requires Concat(lines) == stream + Placeholders(|Concat(lines)| - |stream|)
    requires forall j :: 0 <= j < |stream| ==> P(stream[j])
    requires P(Placeholder)
    ensures forall i, k :: 0 <= i < |lines| && 0 <= k < |lines[i]| ==> P(lines[i][k])
  {
    StreamThenPadding(stream, |Concat(lines)| - |stream|, P);
    EntriesOfLines(lines, P);
  }

  /** What holds of every stream entry and of the placeholder holds of the
      stream followed by padding. */
  lemma StreamThenPadding(stream: seq<Entry>, n: nat, P: Entry -> bool)
    requires forall j :: 0 <= j < |stream| ==> P(stream[j])
    requires P(Placeholder)
    ensures forall j :: 0 <= j < |stream + Placeholders(n)| ==> P((stream + Placeholders(n))[j])
  {
  }

  lemma {:induction false} WordsAppend(x: seq<Entry>, y: seq<Entry>)
    ensures LineWords(x + y) == LineWords(x) + LineWords(y)
    decreases |y|
  {
    if y == [] {
      assert x + y == x;
    } else {
      assert (x + y)[..|x + y| - 1] == x + y[..|y| - 1];
      WordsAppend(x, y[..|y| - 1]);
    }
  }

  lemma {:induction false} WordsOfPlaceholders(n: nat)
    ensures LineWords(Placeholders(n)) == 0
  {
    if n > 0 {
      assert Placeholders(n)[..n - 1] == Placeholders(n - 1);
      WordsOfPlaceholders(n - 1);
      assert !IsWord(Placeholder);
    }
  }

  /** Summing the words line by line counts the words of the lines laid
      end to end. */
  lemma {:induction false} WordsOfLines(lines: seq<seq<Entry>>)
    ensures TotalWords(lines) == LineWords(Concat(lines))
  {
    if lines != [] {
      WordsOfLines(lines[..|lines| - 1]);
      WordsAppend(Concat(lines[..|lines| - 1]), lines[|lines| - 1]);
    }
  }

  /** The `''` entries are never words, so the words of a stream are the
      words among its non-`''` tokens. */
  lemma {:induction false} WordsAreContent(s: seq<Entry>)
    ensures LineWords(s) == ContentCount(Originals(s))
  {
    if s != [] {
      var n := |s| - 1;
      WordsAreContent(s[..n]);
      ContentAppend(Originals(s[..n]), if s[n].token == "" then [] else [s[n].token]);
      if s[n].token == "" {
        assert !IsWord(s[n]);
      } else {
        assert ContentCount([s[n].token]) == ContentCount([]) + (if HasContent(s[n].token) then 1 else 0);
      }
    }
  }

  lemma {:induction false} ContentAppend(x: seq<string>, y: seq<string>)
    ensures ContentCount(x + y) == ContentCount(x) + ContentCount(y)
    decreases |y|
  {
    if y == [] {
      assert x + y == x;
    } else {
      assert (x + y)[..|x + y| - 1] == x + y[..|y| - 1];
      ContentAppend(x, y[..|y| - 1]);
    }
  }

  /** A line whose words are all `same` has no difference on either side. */
  lemma SameLineNoDifferences(line: seq<Entry>)
    requires WordsSame(line)
    ensures !Doc1HasDiff(line) && !Doc2HasDiff(line)
  {
    NoWordWith(line, Different);
    NoWordWith(line, Missing);
    NoWordWith(line, Added);
  }

  lemma {:induction false} NoWordWith(line: seq<Entry>, s: Status)
    requires WordsSame(line)
    requires s != Same
    ensures !HasWordWith(line, s)
  {
    if line != [] {
      var init := line[..|line| - 1];
      assert WordsSame(init) by {
        forall k | 0 <= k < |init| && IsWord(init[k]) ensures init[k].status == Same {
          assert init[k] == line[k];
        }
      }
      NoWordWith(init, s);
    }
  }

  /** `compare_documents` followed by `calculate_analytics` and
      `analyze_line_differences` on an edit script made only of `equal`
      opcodes (what comparing a document with itself yields): no added,
      removed or modified words, 100% similarity, and no line reported. */
  method CompareIdentical(doc1: seq<seq<string>>, doc2: seq<seq<string>>, ops: seq<Opcode>)
    returns (analytics: Analytics, differences: LineDifferences)
    requires WellFormed(ops, Flatten(doc1), Flatten(doc2))
    requires forall k :: 0 <= k < |ops| ==> ops[k].tag == Equal
    ensures analytics.addedWords == 0 && analytics.removedWords == 0 && analytics.modifiedWords == 0
    ensures analytics.similarity.numerator == analytics.similarity.denominator
    ensures differences.added == differences.removed == differences.modified == []
  {
    var aligned1, aligned2 := CompareDocuments(doc1, doc2, ops);
    analytics := CalculateAnalytics(aligned1, aligned2);
    differences := AnalyzeLineDifferences(aligned1, aligned2);
    IdenticalAnalytics(aligned1, aligned2);
    NothingClassified(aligned1, aligned2, Max(|aligned1|, |aligned2|));
  }

  /** Documents whose words are all `same` have no line classified. */
  lemma NothingClassified(doc1: seq<seq<Entry>>, doc2: seq<seq<Entry>>, n: nat)
    requires AllWordsSame(doc1) && AllWordsSame(doc2)
    ensures ReplacedLines(doc1, doc2, n) == [] && ModifiedLines(doc1, doc2, n) == []
  {
    ClassifiedLinesOrdered(doc1, doc2, n);
    forall m | 1 <= m <= n
      ensures m !in ReplacedLines(doc1, doc2, n) && m !in ModifiedLines(doc1, doc2, n)
    {
      ClassifiedLine(doc1, doc2, n, m);
      var line1, line2 := LineAt(doc1, m - 1), LineAt(doc2, m - 1);
      assert WordsSame(line1) && WordsSame(line2);
      SameLineNoDifferences(line1);
      SameLineNoDifferences(line2);
    }
    NoMemberEmpty(ReplacedLines(doc1, doc2, n), n);
    NoMemberEmpty(ModifiedLines(doc1, doc2, n), n);
  }

  /** A list of numbers from `1..n` that holds none of them is empty. */
  lemma NoMemberEmpty(xs: seq<nat>, n: nat)
    requires forall x :: x in xs ==> 1 <= x <= n
    requires forall m :: 1 <= m <= n ==> m !in xs
    ensures xs == []
  {
    if xs != [] {
      FirstIsMember(xs);
      assert false;
    }
  }

  lemma FirstIsMember(xs: seq<nat>)
    requires xs != []
    ensures xs[0] in xs
  {
  }

}
