/** Line-level classification (`analyze_line_differences`) and word counts
    (`calculate_analytics`) over the two reconstructed documents. Both look
    only at words: entries whose token has non-whitespace content. */
module Analysis {
  import opened Tokenizer
  import opened Alignment

  /** `token.strip()` is non-empty. */
  predicate IsWord(e: Entry) {
    HasContent(e.token)
  }

  /** Some word of the line carries status `s`:
      `any(status == s for token, status in line if token.strip())`. */
  predicate HasWordWith(line: seq<Entry>, s: Status) {
    line != [] &&
    (HasWordWith(line[..|line| - 1], s) || (IsWord(line[|line| - 1]) && line[|line| - 1].status == s))
  }

  /** Line `n` of a document, or `[]` past its end. */
  function LineAt(lines: seq<seq<Entry>>, n: nat): seq<Entry> {
    if n < |lines| then lines[n] else []
  }

  /** `doc1_has_diff`: a word of document 1's line is `different` or `missing`. */
  predicate Doc1HasDiff(line: seq<Entry>) {
    HasWordWith(line, Different) || HasWordWith(line, Missing)
  }

  /** `doc2_has_diff`: a word of document 2's line is `different` or `added`. */
  predicate Doc2HasDiff(line: seq<Entry>) {
    HasWordWith(line, Different) || HasWordWith(line, Added)
  }

  /** A line reported both as removed and as added: document 1 lost words
      and document 2 gained words there, and no word of document 1's line
      is `different`. */
  predicate SplitChange(line1: seq<Entry>, line2: seq<Entry>) {
    HasWordWith(line1, Missing) && HasWordWith(line2, Added) && !HasWordWith(line1, Different)
  }

  predicate StrictlyIncreasing(xs: seq<nat>) {
    forall i, j :: 0 <= i < j < |xs| ==> xs[i] < xs[j]
  }

  /** The three lists of 1-based line numbers. */
  datatype LineDifferences = LineDifferences(added: seq<nat>, removed: seq<nat>, modified: seq<nat>)

  function Max(x: nat, y: nat): nat {
    if x >= y then x else y
  }

  /** The line numbers among `1..n` reported as both removed and added. */
  function ReplacedLines(doc1: seq<seq<Entry>>, doc2: seq<seq<Entry>>, n: nat): seq<nat> {
    if n == 0 then []
    else ReplacedLines(doc1, doc2, n - 1)
         + (if SplitChange(LineAt(doc1, n - 1), LineAt(doc2, n - 1)) then [n] else [])
  }

  /** The line numbers among `1..n` with a difference on either side that
      are not reported as removed and added. */
  function ModifiedLines(doc1: seq<seq<Entry>>, doc2: seq<seq<Entry>>, n: nat): seq<nat> {
    if n == 0 then []
    else ModifiedLines(doc1, doc2, n - 1)
         + (if (Doc1HasDiff(LineAt(doc1, n - 1)) || Doc2HasDiff(LineAt(doc2, n - 1)))
               && !SplitChange(LineAt(doc1, n - 1), LineAt(doc2, n - 1))
            then [n] else [])
  }

  /** `analyze_line_differences`. A line goes to `removed` exactly when it
      goes to `added`, and to `modified` when it has a difference on either
      side but is not one of those; a line without any differing word
      appears nowhere, and a line that only lost words on document 1's
      side is `modified`. The lists come out strictly increasing and within
      `1..max(len(doc1), len(doc2))`, so `sorted(set(...))` leaves them as
      they are. */
  method AnalyzeLineDifferences(doc1: seq<seq<Entry>>, doc2: seq<seq<Entry>>)
    returns (r: LineDifferences)
    ensures r.added == r.removed == ReplacedLines(doc1, doc2, Max(|doc1|, |doc2|))
    ensures r.modified == ModifiedLines(doc1, doc2, Max(|doc1|, |doc2|))
    ensures StrictlyIncreasing(r.added) && StrictlyIncreasing(r.modified)
    ensures forall x :: x in r.added ==> 1 <= x <= Max(|doc1|, |doc2|)
    ensures forall x :: x in r.modified ==> 1 <= x <= Max(|doc1|, |doc2|)
    ensures forall x :: x in r.modified ==> x !in r.added
    ensures forall n :: 1 <= n <= Max(|doc1|, |doc2|) ==>
              (n in r.added <==> SplitChange(LineAt(doc1, n - 1), LineAt(doc2, n - 1)))
    ensures forall n :: 1 <= n <= Max(|doc1|, |doc2|) ==>
              (n in r.added || n in r.modified
               <==> Doc1HasDiff(LineAt(doc1, n - 1)) || Doc2HasDiff(LineAt(doc2, n - 1)))
    ensures forall n :: 1 <= n <= Max(|doc1|, |doc2|)
              && HasWordWith(LineAt(doc1, n - 1), Missing) && !HasWordWith(LineAt(doc2, n - 1), Added)
              ==> n in r.modified
  {
    var added: seq<nat>, removed: seq<nat>, modified: seq<nat> := [], [], [];
    var maxLines := Max(|doc1|, |doc2|);
    for lineNum := 0 to maxLines
      invariant added == removed == ReplacedLines(doc1, doc2, lineNum)
      invariant modified == ModifiedLines(doc1, doc2, lineNum)
    {
      var line1 := if lineNum < |doc1| then doc1[lineNum] else [];
      var line2 := if lineNum < |doc2| then doc2[lineNum] else [];
      assert line1 == LineAt(doc1, lineNum) && line2 == LineAt(doc2, lineNum);
      ScanStep(doc1, doc2, lineNum);
      var has1Diff := Doc1HasDiff(line1);
      var has2Diff := Doc2HasDiff(line2);
      var has1Missing := HasWordWith(line1, Missing);
      var has2Added := HasWordWith(line2, Added);
      if has1Missing && has2Added {
        if !HasWordWith(line1, Different) {
          if has1Missing {
            removed := removed + [lineNum + 1];
          }
          if has2Added {
            added := added + [lineNum + 1];
          }
        } else {
          modified := modified + [lineNum + 1];
        }
      } else if has1Diff || has2Diff {
        modified := modified + [lineNum + 1];
      }
    }
    r := LineDifferences(added, removed, modified);
    ClassifiedLinesSpec(doc1, doc2, maxLines);
  }

  /** One more line of the scan appends at most one number to each list. */
  lemma ScanStep(doc1: seq<seq<Entry>>, doc2: seq<seq<Entry>>, k: nat)
    ensures ReplacedLines(doc1, doc2, k + 1) == ReplacedLines(doc1, doc2, k)
              + (if SplitChange(LineAt(doc1, k), LineAt(doc2, k)) then [k + 1] else [])
    ensures ModifiedLines(doc1, doc2, k + 1) == ModifiedLines(doc1, doc2, k)
              + (if (Doc1HasDiff(LineAt(doc1, k)) || Doc2HasDiff(LineAt(doc2, k)))
                    && !SplitChange(LineAt(doc1, k), LineAt(doc2, k))
                 then [k + 1] else [])
  {
  }

  /** The classified line numbers up to `n`: both lists strictly
      increasing, within `1..n`, disjoint, `ReplacedLines` holding exactly
      the split changes and the two together exactly the lines with a
      difference on either side. */
  lemma ClassifiedLinesSpec(doc1: seq<seq<Entry>>, doc2: seq<seq<Entry>>, n: nat)
    ensures StrictlyIncreasing(ReplacedLines(doc1, doc2, n))
    ensures StrictlyIncreasing(ModifiedLines(doc1, doc2, n))
    ensures forall x :: x in ReplacedLines(doc1, doc2, n) ==> 1 <= x <= n
    ensures forall x :: x in ModifiedLines(doc1, doc2, n) ==> 1 <= x <= n
    ensures forall x :: x in ModifiedLines(doc1, doc2, n) ==> x !in ReplacedLines(doc1, doc2, n)
    ensures forall m :: 1 <= m <= n ==>
              (m in ReplacedLines(doc1, doc2, n) <==> SplitChange(LineAt(doc1, m - 1), LineAt(doc2, m - 1)))
    ensures forall m :: 1 <= m <= n ==>
              (m in ReplacedLines(doc1, doc2, n) || m in ModifiedLines(doc1, doc2, n)
               <==> Doc1HasDiff(LineAt(doc1, m - 1)) || Doc2HasDiff(LineAt(doc2, m - 1)))
  {
    ClassifiedLinesOrdered(doc1, doc2, n);
    forall m | 1 <= m <= n
      ensures m in ReplacedLines(doc1, doc2, n) <==> SplitChange(LineAt(doc1, m - 1), LineAt(doc2, m - 1))
      ensures m in ReplacedLines(doc1, doc2, n) || m in ModifiedLines(doc1, doc2, n)
              <==> Doc1HasDiff(LineAt(doc1, m - 1)) || Doc2HasDiff(LineAt(doc2, m - 1))
    {
      ClassifiedLine(doc1, doc2, n, m);
    }
  }

  /** Both lists are strictly increasing, within `1..n` and disjoint. */
  lemma {:induction false} ClassifiedLinesOrdered(doc1: seq<seq<Entry>>, doc2: seq<seq<Entry>>, n: nat)
    ensures StrictlyIncreasing(ReplacedLines(doc1, doc2, n))
    ensures StrictlyIncreasing(ModifiedLines(doc1, doc2, n))
    ensures forall x :: x in ReplacedLines(doc1, doc2, n) ==> 1 <= x <= n
    ensures forall x :: x in ModifiedLines(doc1, doc2, n) ==> 1 <= x <= n
    ensures forall x :: x in ModifiedLines(doc1, doc2, n) ==> x !in ReplacedLines(doc1, doc2, n)
  {
    if n > 0 {
      ClassifiedLinesOrdered(doc1, doc2, n - 1);
      var rep, mod := ReplacedLines(doc1, doc2, n - 1), ModifiedLines(doc1, doc2, n - 1);
      var line1, line2 := LineAt(doc1, n - 1), LineAt(doc2, n - 1);
      assert n !in rep && n !in mod;
      if SplitChange(line1, line2) {
        AppendIncreasing(rep, n);
        assert ReplacedLines(doc1, doc2, n) == rep + [n];
        assert ModifiedLines(doc1, doc2, n) == mod + [] == mod;
      } else if Doc1HasDiff(line1) || Doc2HasDiff(line2) {
        AppendIncreasing(mod, n);
        assert ReplacedLines(doc1, doc2, n) == rep + [] == rep;
        assert ModifiedLines(doc1, doc2, n) == mod + [n];
      } else {
        assert ReplacedLines(doc1, doc2, n) == rep + [] == rep;
        assert ModifiedLines(doc1, doc2, n) == mod + [] == mod;
      }
    }
  }

  /** Line `m` is in `ReplacedLines` exactly when it is a split change,
      and in one of the two lists exactly when it has a difference. */
  lemma {:induction false} ClassifiedLine(doc1: seq<seq<Entry>>, doc2: seq<seq<Entry>>, n: nat, m: nat)
    requires 1 <= m <= n
    ensures m in ReplacedLines(doc1, doc2, n) <==> SplitChange(LineAt(doc1, m - 1), LineAt(doc2, m - 1))
    ensures m in ReplacedLines(doc1, doc2, n) || m in ModifiedLines(doc1, doc2, n)
            <==> Doc1HasDiff(LineAt(doc1, m - 1)) || Doc2HasDiff(LineAt(doc2, m - 1))
  {
    if m == n {
      ClassifiedLast(doc1, doc2, n);
    } else {
      ClassifiedLine(doc1, doc2, n - 1, m);
      ClassifiedEarlier(doc1, doc2, n, m);
    }
  }

  /** Line `n` is classified by the last step of the scan. */
  lemma ClassifiedLast(doc1: seq<seq<Entry>>, doc2: seq<seq<Entry>>, n: nat)
    requires 1 <= n
    ensures n in ReplacedLines(doc1, doc2, n) <==> SplitChange(LineAt(doc1, n - 1), LineAt(doc2, n - 1))
    ensures n in ReplacedLines(doc1, doc2, n) || n in ModifiedLines(doc1, doc2, n)
            <==> Doc1HasDiff(LineAt(doc1, n - 1)) || Doc2HasDiff(LineAt(doc2, n - 1))
  {
    var rep, mod := ReplacedLines(doc1, doc2, n - 1), ModifiedLines(doc1, doc2, n - 1);
    var line1, line2 := LineAt(doc1, n - 1), LineAt(doc2, n - 1);
    var split := SplitChange(line1, line2);
    var diff := Doc1HasDiff(line1) || Doc2HasDiff(line2);
    assert ReplacedLines(doc1, doc2, n) == rep + (if split then [n] else []);
    assert ModifiedLines(doc1, doc2, n) == mod + (if diff && !split then [n] else []);
    MemberSnoc(rep, n, split, n);
    MemberSnoc(mod, n, diff && !split, n);
    ClassifiedLinesOrdered(doc1, doc2, n - 1);
    assert n !in rep && n !in mod;
  }

  /** A later step of the scan does not change where an earlier line went. */
  lemma ClassifiedEarlier(doc1: seq<seq<Entry>>, doc2: seq<seq<Entry>>, n: nat, m: nat)
    requires 1 <= m < n
    requires m in ReplacedLines(doc1, doc2, n - 1) <==> SplitChange(LineAt(doc1, m - 1), LineAt(doc2, m - 1))
    requires m in ReplacedLines(doc1, doc2, n - 1) || m in ModifiedLines(doc1, doc2, n - 1)
             <==> Doc1HasDiff(LineAt(doc1, m - 1)) || Doc2HasDiff(LineAt(doc2, m - 1))
    ensures m in ReplacedLines(doc1, doc2, n) <==> SplitChange(LineAt(doc1, m - 1), LineAt(doc2, m - 1))
    ensures m in ReplacedLines(doc1, doc2, n) || m in ModifiedLines(doc1, doc2, n)
            <==> Doc1HasDiff(LineAt(doc1, m - 1)) || Doc2HasDiff(LineAt(doc2, m - 1))
  {
    var rep, mod := ReplacedLines(doc1, doc2, n - 1), ModifiedLines(doc1, doc2, n - 1);
    var line1, line2 := LineAt(doc1, n - 1), LineAt(doc2, n - 1);
    var split := SplitChange(line1, line2);
    var diff := Doc1HasDiff(line1) || Doc2HasDiff(line2);
    assert ReplacedLines(doc1, doc2, n) == rep + (if split then [n] else []);
    assert ModifiedLines(doc1, doc2, n) == mod + (if diff && !split then [n] else []);
    MemberSnoc(rep, n, split, m);
    MemberSnoc(mod, n, diff && !split, m);
  }

  /** Membership in a list that may have had one value appended. */
  lemma MemberSnoc(xs: seq<nat>, v: nat, c: bool, m: nat)
    ensures m in xs + (if c then [v] else []) <==> m in xs || (c && m == v)
  {
  }

  lemma AppendIncreasing(xs: seq<nat>, v: nat)
    requires StrictlyIncreasing(xs)
    requires forall x :: x in xs ==> x < v
    ensures StrictlyIncreasing(xs + [v])
  {
    forall i, j | 0 <= i < j < |xs + [v]| ensures (xs + [v])[i] < (xs + [v])[j] {
      assert xs[i] in xs;
    }
  }

  // ---------------------------------------------------------------------
  // calculate_analytics

  /** `len([t for t, s in line if t.strip()])` */
  function LineWords(line: seq<Entry>): nat {
    if line == [] then 0
    else LineWords(line[..|line| - 1]) + (if IsWord(line[|line| - 1]) then 1 else 0)
  }

  /** `len([t for t, s in line if t.strip() and s == status])` */
  function LineWordsWith(line: seq<Entry>, status: Status): nat {
    if line == [] then 0
    else LineWordsWith(line[..|line| - 1], status)
         + (if IsWord(line[|line| - 1]) && line[|line| - 1].status == status then 1 else 0)
  }

  /** `sum(LineWords(line) for line in lines)` */
  function TotalWords(lines: seq<seq<Entry>>): nat {
    if lines == [] then 0 else TotalWords(lines[..|lines| - 1]) + LineWords(lines[|lines| - 1])
  }

  /** `sum(LineWordsWith(line, status) for line in lines)` */
  function TotalWordsWith(lines: seq<seq<Entry>>, status: Status): nat {
    if lines == [] then 0
    else TotalWordsWith(lines[..|lines| - 1], status) + LineWordsWith(lines[|lines| - 1], status)
  }

  /** Similarity as the exact percentage `100 * numerator / denominator`;
      the source rounds this to one decimal place. */
  datatype Percentage = Percentage(numerator: nat, denominator: nat)

  datatype Analytics = Analytics(
    totalWords: nat,
    addedWords: nat,
    removedWords: nat,
    modifiedWords: nat,
    similarity: Percentage)

  /** `calculate_analytics`. The total is the larger document's word count,
      the similarity is document 1's `same` words over that total (100%
      when there are no words at all), and it never exceeds 100%. */
  function CalculateAnalytics(doc1: seq<seq<Entry>>, doc2: seq<seq<Entry>>): (r: Analytics)
    ensures r.totalWords == Max(TotalWords(doc1), TotalWords(doc2))
    ensures r.similarity.denominator > 0
    ensures r.similarity.numerator <= r.similarity.denominator
    ensures r.totalWords == 0 ==> r.similarity == Percentage(1, 1)
    ensures r.totalWords > 0 ==> r.similarity == Percentage(TotalWordsWith(doc1, Same), r.totalWords)
  {
    var total1 := TotalWords(doc1);
    var total2 := TotalWords(doc2);
    var same := TotalWordsWith(doc1, Same);
    var total := Max(total1, total2);
    WordsWithinTotal(doc1, Same);
    Analytics(
      total,
      TotalWordsWith(doc2, Added),
      TotalWordsWith(doc1, Missing),
      TotalWordsWith(doc1, Different),
      if total > 0 then Percentage(same, total) else Percentage(1, 1))
  }

  /** A line's words split by status. */
  lemma {:induction false} LineWordsPartition(line: seq<Entry>)
    ensures LineWords(line) == LineWordsWith(line, Same) + LineWordsWith(line, Different)
                               + LineWordsWith(line, Missing) + LineWordsWith(line, Added)
  {
    if line != [] {
      LineWordsPartition(line[..|line| - 1]);
    }
  }

  /** A document's words split by status. */
  lemma {:induction false} TotalWordsPartition(lines: seq<seq<Entry>>)
    ensures TotalWords(lines) == TotalWordsWith(lines, Same) + TotalWordsWith(lines, Different)
                                 + TotalWordsWith(lines, Missing) + TotalWordsWith(lines, Added)
  {
    if lines != [] {
      TotalWordsPartition(lines[..|lines| - 1]);
      LineWordsPartition(lines[|lines| - 1]);
    }
  }

  /** The words of one status never outnumber all words. */
  lemma WordsWithinTotal(lines: seq<seq<Entry>>, status: Status)
    ensures TotalWordsWith(lines, status) <= TotalWords(lines)
  {
    TotalWordsPartition(lines);
  }

  /** No entry of any line is `added`. */
  predicate NoAdded(lines: seq<seq<Entry>>) {
    forall i, k :: 0 <= i < |lines| && 0 <= k < |lines[i]| ==> lines[i][k].status != Added
  }

  lemma {:induction false} LineNoAddedWords(line: seq<Entry>)
    requires forall k :: 0 <= k < |line| ==> line[k].status != Added
    ensures LineWordsWith(line, Added) == 0
  {
    if line != [] {
      LineNoAddedWords(line[..|line| - 1]);
    }
  }

  lemma {:induction false} NoAddedWords(lines: seq<seq<Entry>>)
    requires NoAdded(lines)
    ensures TotalWordsWith(lines, Added) == 0
  {
    if lines != [] {
      NoAddedWords(lines[..|lines| - 1]);
      LineNoAddedWords(lines[|lines| - 1]);
    }
  }

  /** On document 1, which carries no `added` entry, the `same`, modified
      and removed word counts add up to its total word count, and the
      `same` words never exceed the reported total. */
  lemma Document1Partition(doc1: seq<seq<Entry>>, doc2: seq<seq<Entry>>)
    requires NoAdded(doc1)
    ensures var r := CalculateAnalytics(doc1, doc2);
            TotalWordsWith(doc1, Same) + r.modifiedWords + r.removedWords == TotalWords(doc1)
            && TotalWordsWith(doc1, Same) <= r.totalWords
  {
    TotalWordsPartition(doc1);
    NoAddedWords(doc1);
  }

  /** Every word of the line is `same`. */
  predicate WordsSame(line: seq<Entry>) {
    forall k :: 0 <= k < |line| && IsWord(line[k]) ==> line[k].status == Same
  }

  /** Every word of every line is `same`. */
  predicate AllWordsSame(lines: seq<seq<Entry>>) {
    forall i :: 0 <= i < |lines| ==> WordsSame(lines[i])
  }

  lemma {:induction false} LineAllSame(line: seq<Entry>)
    requires WordsSame(line)
    ensures LineWordsWith(line, Same) == LineWords(line)
  {
    if line != [] {
      assert WordsSame(line[..|line| - 1]) by {
        forall k | 0 <= k < |line| - 1 && IsWord(line[k])
          ensures line[..|line| - 1][k].status == Same
        {
          assert line[..|line| - 1][k] == line[k];
        }
      }
      LineAllSame(line[..|line| - 1]);
    }
  }

  lemma {:induction false} TotalAllSame(lines: seq<seq<Entry>>)
    requires AllWordsSame(lines)
    ensures TotalWordsWith(lines, Same) == TotalWords(lines)
  {
    if lines != [] {
      assert AllWordsSame(lines[..|lines| - 1]) by {
        forall i | 0 <= i < |lines| - 1 ensures WordsSame(lines[i]) {
          assert lines[..|lines| - 1][i] == lines[i];
        }
      }
      TotalAllSame(lines[..|lines| - 1]);
      LineAllSame(lines[|lines| - 1]);
    }
  }

  /** Two documents whose words are all `same` and equally many: no added,
      removed or modified words, and 100% similarity. */
  lemma IdenticalAnalytics(doc1: seq<seq<Entry>>, doc2: seq<seq<Entry>>)
    requires AllWordsSame(doc1) && AllWordsSame(doc2)
    requires TotalWords(doc1) == TotalWords(doc2)
    ensures var r := CalculateAnalytics(doc1, doc2);
            r.addedWords == 0 && r.removedWords == 0 && r.modifiedWords == 0
            && r.similarity.numerator == r.similarity.denominator
  {
    TotalAllSame(doc1);
    TotalAllSame(doc2);
    TotalWordsPartition(doc1);
    TotalWordsPartition(doc2);
  }
}
