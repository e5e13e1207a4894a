/** Labelling the two flattened token streams from an edit script.
    The edit script (what `difflib.SequenceMatcher.get_opcodes` returns)
    is an input here, constrained by `WellFormed`. */
module Alignment {

  datatype Status = Same | Different | Missing | Added

  /** A `(token, status)` pair of a labelled stream. */
  datatype Entry = Entry(token: string, status: Status)

  datatype Tag = Equal | Replace | Delete | Insert

  /** `(tag, i1, i2, j1, j2)`: the range `i1..i2` of document 1 and the
      range `j1..j2` of document 2. */
  datatype Opcode = Opcode(tag: Tag, i1: nat, i2: nat, j1: nat, j2: nat)

  /** The `('', 'missing')` entry that stands in for a token of the other side. */
  const Placeholder := Entry("", Missing)

  /** `[token for line in lines for token in line]` */
  function Flatten(lines: seq<seq<string>>): seq<string> {
    if lines == [] then [] else lines[0] + Flatten(lines[1..])
  }

  /** Every token of every line is a non-empty string. */
  predicate NonEmptyTokens(lines: seq<seq<string>>) {
    forall i, k :: 0 <= i < |lines| && 0 <= k < |lines[i]| ==> lines[i][k] != ""
  }

  /** Flattening keeps every token, so it keeps them all non-empty. */
  lemma {:induction false} FlattenNonEmpty(lines: seq<seq<string>>)
    requires NonEmptyTokens(lines)
    ensures forall k :: 0 <= k < |Flatten(lines)| ==> Flatten(lines)[k] != ""
  {
    if lines != [] {
      FlattenNonEmpty(lines[1..]);
      var rest := Flatten(lines[1..]);
      forall k | 0 <= k < |Flatten(lines)| ensures Flatten(lines)[k] != "" {
        if k >= |lines[0]| {
          assert Flatten(lines)[k] == rest[k - |lines[0]|];
        }
      }
    }
  }

  // ---------------------------------------------------------------------
  // Well-formed edit scripts

  /** One opcode's ranges lie inside documents of `na` and `nb` tokens
      and have the shape its tag demands. */
  predicate Fits(op: Opcode, na: nat, nb: nat) {
    op.i1 <= op.i2 <= na && op.j1 <= op.j2 <= nb &&
    match op.tag
    case Equal => op.i2 - op.i1 == op.j2 - op.j1
    case Replace => true
    case Delete => op.j1 == op.j2
    case Insert => op.i1 == op.i2
  }

  /** The opcodes start at 0 on both sides and each one starts where the
      previous one ended. */
  predicate Chained(ops: seq<Opcode>, na: nat, nb: nat) {
    (forall k :: 0 <= k < |ops| ==> Fits(ops[k], na, nb)) &&
    (|ops| > 0 ==> ops[0].i1 == 0 && ops[0].j1 == 0) &&
    (forall k :: 0 <= k < |ops| - 1 ==> ops[k].i2 == ops[k + 1].i1 && ops[k].j2 == ops[k + 1].j1)
  }

  /** The two ranges of every `equal` opcode hold the same tokens. */
  predicate EqualsAgree(ops: seq<Opcode>, a: seq<string>, b: seq<string>) {
    forall k :: 0 <= k < |ops| && ops[k].tag == Equal
                && ops[k].i1 <= ops[k].i2 <= |a| && ops[k].j1 <= ops[k].j2 <= |b|
      ==> a[ops[k].i1..ops[k].i2] == b[ops[k].j1..ops[k].j2]
  }

  /** Where the covered part of document 1 ends. */
  function IEnd(ops: seq<Opcode>): nat {
    if ops == [] then 0 else ops[|ops| - 1].i2
  }

  /** Where the covered part of document 2 ends. */
  function JEnd(ops: seq<Opcode>): nat {
    if ops == [] then 0 else ops[|ops| - 1].j2
  }

  /** The ranges tile `0..|a|` and `0..|b|` in order, each range has the
      shape its tag demands, and `equal` ranges hold equal tokens. */
  predicate WellFormed(ops: seq<Opcode>, a: seq<string>, b: seq<string>) {
    Chained(ops, |a|, |b|) && IEnd(ops) == |a| && JEnd(ops) == |b| && EqualsAgree(ops, a, b)
  }

  lemma AgreePrefix(ops: seq<Opcode>, a: seq<string>, b: seq<string>, n: nat)
    requires EqualsAgree(ops, a, b) && n <= |ops|
    ensures EqualsAgree(ops[..n], a, b)
  {
  }

  lemma ChainedPrefix(ops: seq<Opcode>, na: nat, nb: nat, n: nat)
    requires Chained(ops, na, nb) && n <= |ops|
    ensures Chained(ops[..n], na, nb)
  {
  }

  // ---------------------------------------------------------------------
  // What one opcode contributes to each side

  /** `[(token, s) for token in tokens]` */
  function Mark(tokens: seq<string>, s: Status): seq<Entry> {
    seq(|tokens|, k requires 0 <= k < |tokens| => Entry(tokens[k], s))
  }

  /** `[('', 'missing') for _ in range(n)]` */
  function Placeholders(n: nat): seq<Entry> {
    seq(n, _ => Placeholder)
  }

  /** `range(hi - lo)` has this many elements (none when `hi < lo`). */
  function Width(lo: nat, hi: nat): nat {
    if lo <= hi then hi - lo else 0
  }

  /** The entries the opcode appends to `aligned_doc1`. */
  function Emit1(op: Opcode, a: seq<string>): seq<Entry>
    requires op.i1 <= op.i2 <= |a|
  {
    match op.tag
    case Equal => Mark(a[op.i1..op.i2], Same)
    case Replace => Mark(a[op.i1..op.i2], Different)
    case Delete => Mark(a[op.i1..op.i2], Missing)
    case Insert => Placeholders(Width(op.j1, op.j2))
  }

  /** The entries the opcode appends to `aligned_doc2`. */
  function Emit2(op: Opcode, b: seq<string>): seq<Entry>
    requires op.j1 <= op.j2 <= |b|
  {
    match op.tag
    case Equal => Mark(b[op.j1..op.j2], Same)
    case Replace => Mark(b[op.j1..op.j2], Different)
    case Delete => Placeholders(Width(op.i1, op.i2))
    case Insert => Mark(b[op.j1..op.j2], Added)
  }

  predicate InRange(ops: seq<Opcode>, a: seq<string>, b: seq<string>) {
    forall k :: 0 <= k < |ops| ==> ops[k].i1 <= ops[k].i2 <= |a| && ops[k].j1 <= ops[k].j2 <= |b|
  }

  /** `aligned_doc1` after the opcodes `ops` have been processed. */
  function Label1(ops: seq<Opcode>, a: seq<string>, b: seq<string>): seq<Entry>
    requires InRange(ops, a, b)
  {
    if ops == [] then [] else Label1(ops[..|ops| - 1], a, b) + Emit1(ops[|ops| - 1], a)
  }

  /** `aligned_doc2` after the opcodes `ops` have been processed. */
  function Label2(ops: seq<Opcode>, a: seq<string>, b: seq<string>): seq<Entry>
    requires InRange(ops, a, b)
  {
    if ops == [] then [] else Label2(ops[..|ops| - 1], a, b) + Emit2(ops[|ops| - 1], b)
  }

  /** Total length of the insert ranges. */
  function InsertedLength(ops: seq<Opcode>): nat {
    if ops == [] then 0
    else InsertedLength(ops[..|ops| - 1])
         + (if ops[|ops| - 1].tag == Insert then Width(ops[|ops| - 1].j1, ops[|ops| - 1].j2) else 0)
  }

  /** Total length of the delete ranges. */
  function DeletedLength(ops: seq<Opcode>): nat {
    if ops == [] then 0
    else DeletedLength(ops[..|ops| - 1])
         + (if ops[|ops| - 1].tag == Delete then Width(ops[|ops| - 1].i1, ops[|ops| - 1].i2) else 0)
  }

  /** How much longer the document-1 side of the replace ranges is than
      their document-2 side. */
  function ReplaceImbalance(ops: seq<Opcode>): int {
    if ops == [] then 0
    else ReplaceImbalance(ops[..|ops| - 1])
         + (if ops[|ops| - 1].tag == Replace
            then (ops[|ops| - 1].i2 - ops[|ops| - 1].i1) - (ops[|ops| - 1].j2 - ops[|ops| - 1].j1)
            else 0)
  }

  /** The tokens of the entries whose token is not `''`, in order. */
  function Originals(s: seq<Entry>): seq<string> {
    if s == [] then []
    else Originals(s[..|s| - 1]) + (if s[|s| - 1].token == "" then [] else [s[|s| - 1].token])
  }

  // ---------------------------------------------------------------------
  // The labelling loop

  /** The loop over the opcodes in `compare_documents`: each opcode extends
      both labelled streams. */
  method LabelOpcodes(a: seq<string>, b: seq<string>, ops: seq<Opcode>)
    returns (aligned1: seq<Entry>, aligned2: seq<Entry>)
    requires WellFormed(ops, a, b)
    ensures InRange(ops, a, b)
    ensures aligned1 == Label1(ops, a, b) && aligned2 == Label2(ops, a, b)
    ensures |aligned1| == |a| + InsertedLength(ops)
    ensures |aligned2| == |b| + DeletedLength(ops)
    ensures (forall k :: 0 <= k < |a| ==> a[k] != "") ==> Originals(aligned1) == a
    ensures (forall k :: 0 <= k < |b| ==> b[k] != "") ==> Originals(aligned2) == b
  {
    aligned1, aligned2 := [], [];
    for n := 0 to |ops|
      invariant InRange(ops[..n], a, b)
      invariant aligned1 == Label1(ops[..n], a, b)
      invariant aligned2 == Label2(ops[..n], a, b)
    {
      var op := ops[n];
      match op.tag {
        case Equal =>
          aligned1 := aligned1 + Mark(a[op.i1..op.i2], Same);
          aligned2 := aligned2 + Mark(b[op.j1..op.j2], Same);
        case Replace =>
          aligned1 := aligned1 + Mark(a[op.i1..op.i2], Different);
          aligned2 := aligned2 + Mark(b[op.j1..op.j2], Different);
        case Delete =>
          aligned1 := aligned1 + Mark(a[op.i1..op.i2], Missing);
          aligned2 := aligned2 + Placeholders(Width(op.i1, op.i2));
        case Insert =>
          aligned1 := aligned1 + Placeholders(Width(op.j1, op.j2));
          aligned2 := aligned2 + Mark(b[op.j1..op.j2], Added);
      }
      LabelStep(ops, a, b, n);
    }
    assert ops[..|ops|] == ops;
    LabelFacts(ops, a, b);
  }

  /** Processing opcode `n` appends its emitted entries to both streams. */
  lemma LabelStep(ops: seq<Opcode>, a: seq<string>, b: seq<string>, n: nat)
    requires WellFormed(ops, a, b) && n < |ops|
    requires InRange(ops[..n], a, b)
    ensures InRange(ops[..n + 1], a, b)
    ensures Label1(ops[..n + 1], a, b) == Label1(ops[..n], a, b) + Emit1(ops[n], a)
    ensures Label2(ops[..n + 1], a, b) == Label2(ops[..n], a, b) + Emit2(ops[n], b)
  {
    assert ops[..n + 1][..n] == ops[..n];
  }

  /** The lengths and originals of both labelled streams, gathered for `LabelOpcodes`. */
  lemma LabelFacts(ops: seq<Opcode>, a: seq<string>, b: seq<string>)
    requires WellFormed(ops, a, b)
    ensures InRange(ops, a, b)
    ensures |Label1(ops, a, b)| == |a| + InsertedLength(ops)
    ensures |Label2(ops, a, b)| == |b| + DeletedLength(ops)
    ensures (forall k :: 0 <= k < |a| ==> a[k] != "") ==> Originals(Label1(ops, a, b)) == a
    ensures (forall k :: 0 <= k < |b| ==> b[k] != "") ==> Originals(Label2(ops, a, b)) == b
  {
    LabelLengths(ops, a, b);
    if forall k :: 0 <= k < |a| ==> a[k] != "" {
      LabelKeepsDocument1(ops, a, b);
    }
    if forall k :: 0 <= k < |b| ==> b[k] != "" {
      LabelKeepsDocument2(ops, a, b);
    }
  }

  // ---------------------------------------------------------------------
  // Properties of the labelled streams

  lemma {:induction false} OriginalsAppend(x: seq<Entry>, y: seq<Entry>)
    ensures Originals(x + y) == Originals(x) + Originals(y)
    decreases |y|
  {
    if y == [] {
      assert x + y == x;
    } else {
      assert (x + y)[..|x + y| - 1] == x + y[..|y| - 1];
      OriginalsAppend(x, y[..|y| - 1]);
    }
  }

  lemma {:induction false} OriginalsMark(tokens: seq<string>, s: Status)
    requires forall k :: 0 <= k < |tokens| ==> tokens[k] != ""
    ensures Originals(Mark(tokens, s)) == tokens
    decreases |tokens|
  {
    if tokens != [] {
      var n := |tokens| - 1;
      assert Mark(tokens, s)[..n] == Mark(tokens[..n], s);
      OriginalsMark(tokens[..n], s);
      assert tokens == tokens[..n] + [tokens[n]];
    }
  }

  lemma {:induction false} OriginalsPlaceholders(n: nat)
    ensures Originals(Placeholders(n)) == []
  {
    if n > 0 {
      assert Placeholders(n)[..n - 1] == Placeholders(n - 1);
      OriginalsPlaceholders(n - 1);
    }
  }

  /** The ranges of a chained script are contiguous, so their lengths add
      up to where the script ends. */
  lemma {:induction false} SpanTelescopes(ops: seq<Opcode>, na: nat, nb: nat)
    requires Chained(ops, na, nb)
    ensures IEnd(ops) == Span1(ops) && JEnd(ops) == Span2(ops)
  {
    if ops != [] {
      var n := |ops| - 1;
      ChainedPrefix(ops, na, nb, n);
      SpanTelescopes(ops[..n], na, nb);
      if n > 0 {
        assert ops[..n][n - 1] == ops[n - 1];
      }
    }
  }

  /** Sum of the document-1 range lengths. */
  function Span1(ops: seq<Opcode>): nat {
    if ops == [] then 0 else Span1(ops[..|ops| - 1]) + Width(ops[|ops| - 1].i1, ops[|ops| - 1].i2)
  }

  /** Sum of the document-2 range lengths. */
  function Span2(ops: seq<Opcode>): nat {
    if ops == [] then 0 else Span2(ops[..|ops| - 1]) + Width(ops[|ops| - 1].j1, ops[|ops| - 1].j2)
  }

  /** `|aligned_doc1| = |flat_doc1| + total insert length` and
      `|aligned_doc2| = |flat_doc2| + total delete length`; the two
      streams differ in length by the replace ranges' imbalance, so they
      have the same length only when that imbalance is zero. */
  lemma {:induction false} LabelLengths(ops: seq<Opcode>, a: seq<string>, b: seq<string>)
    requires WellFormed(ops, a, b)
    ensures InRange(ops, a, b)
    ensures |Label1(ops, a, b)| == |a| + InsertedLength(ops)
    ensures |Label2(ops, a, b)| == |b| + DeletedLength(ops)
    ensures |Label1(ops, a, b)| - |Label2(ops, a, b)| == ReplaceImbalance(ops)
  {
    SpanTelescopes(ops, |a|, |b|);
    LabelLengthsChained(ops, a, b);
  }

  lemma {:induction false} LabelLengthsChained(ops: seq<Opcode>, a: seq<string>, b: seq<string>)
    requires Chained(ops, |a|, |b|)
    ensures InRange(ops, a, b)
    ensures |Label1(ops, a, b)| == Span1(ops) + InsertedLength(ops)
    ensures |Label2(ops, a, b)| == Span2(ops) + DeletedLength(ops)
    ensures |Label1(ops, a, b)| - |Label2(ops, a, b)| == ReplaceImbalance(ops)
  {
    if ops != [] {
      var n := |ops| - 1;
      ChainedPrefix(ops, |a|, |b|, n);
      LabelLengthsChained(ops[..n], a, b);
      assert Fits(ops[n], |a|, |b|);
      EmitLengths(ops[n], a, b);
      assert Label1(ops, a, b) == Label1(ops[..n], a, b) + Emit1(ops[n], a);
      assert Label2(ops, a, b) == Label2(ops[..n], a, b) + Emit2(ops[n], b);
    }
  }

  /** What one opcode adds to each stream's length. */
  lemma EmitLengths(op: Opcode, a: seq<string>, b: seq<string>)
    requires Fits(op, |a|, |b|)
    ensures |Emit1(op, a)| == Width(op.i1, op.i2) + (if op.tag == Insert then Width(op.j1, op.j2) else 0)
    ensures |Emit2(op, b)| == Width(op.j1, op.j2) + (if op.tag == Delete then Width(op.i1, op.i2) else 0)
    ensures |Emit1(op, a)| - |Emit2(op, b)|
            == if op.tag == Replace then (op.i2 - op.i1) - (op.j2 - op.j1) else 0
  {
  }

  /** Dropping the `''` entries from `aligned_doc1` gives back document 1's
      flat tokens in order (for the chained prefix processed so far). */
  lemma {:induction false} LabelKeepsPrefix1(ops: seq<Opcode>, a: seq<string>, b: seq<string>)
    requires Chained(ops, |a|, |b|)
    requires forall k :: 0 <= k < |a| ==> a[k] != ""
    ensures InRange(ops, a, b) && IEnd(ops) <= |a|
    ensures Originals(Label1(ops, a, b)) == a[..IEnd(ops)]
  {
    if ops != [] {
      var n := |ops| - 1;
      var op := ops[n];
      ChainedPrefix(ops, |a|, |b|, n);
      LabelKeepsPrefix1(ops[..n], a, b);
      assert IEnd(ops[..n]) == op.i1 by {
        if n > 0 { assert ops[..n][n - 1] == ops[n - 1]; }
      }
      assert Fits(op, |a|, |b|);
      assert Label1(ops, a, b) == Label1(ops[..n], a, b) + Emit1(op, a);
      Emit1Originals(op, a);
      OriginalsExtend(Label1(ops[..n], a, b), Emit1(op, a), a, op.i1, op.i2);
    }
  }

  /** A stream whose tokens are a prefix of `a`, extended by entries
      whose tokens are the next range of `a`, has the longer prefix. */
  lemma OriginalsExtend(prev: seq<Entry>, next: seq<Entry>, a: seq<string>, lo: nat, hi: nat)
    requires lo <= hi <= |a|
    requires Originals(prev) == a[..lo] && Originals(next) == a[lo..hi]
    ensures Originals(prev + next) == a[..hi]
  {
    OriginalsAppend(prev, next);
    SlicesJoin(a, lo, hi);
  }

  lemma SlicesJoin(a: seq<string>, lo: nat, hi: nat)
    requires lo <= hi <= |a|
    ensures a[..lo] + a[lo..hi] == a[..hi]
  {
  }

  /** One opcode puts document 1's tokens of its range, in order, into
      `aligned_doc1` (an `insert` has an empty range there). */
  lemma Emit1Originals(op: Opcode, a: seq<string>)
    requires op.i1 <= op.i2 <= |a|
    requires op.tag == Insert ==> op.i1 == op.i2
    requires forall k :: 0 <= k < |a| ==> a[k] != ""
    ensures Originals(Emit1(op, a)) == a[op.i1..op.i2]
  {
    if op.tag == Insert {
      OriginalsPlaceholders(Width(op.j1, op.j2));
    } else {
      OriginalsMark(a[op.i1..op.i2], match op.tag case Equal => Same case Replace => Different case _ => Missing);
    }
  }

  /** Dropping the `''` entries from `aligned_doc2` gives back document 2's
      flat tokens in order (for the chained prefix processed so far). */
  lemma {:induction false} LabelKeepsPrefix2(ops: seq<Opcode>, a: seq<string>, b: seq<string>)
    requires Chained(ops, |a|, |b|)
    requires forall k :: 0 <= k < |b| ==> b[k] != ""
    ensures InRange(ops, a, b) && JEnd(ops) <= |b|
    ensures Originals(Label2(ops, a, b)) == b[..JEnd(ops)]
  {
    if ops != [] {
      var n := |ops| - 1;
      var op := ops[n];
      ChainedPrefix(ops, |a|, |b|, n);
      LabelKeepsPrefix2(ops[..n], a, b);
      assert JEnd(ops[..n]) == op.j1 by {
        if n > 0 { assert ops[..n][n - 1] == ops[n - 1]; }
      }
      assert Fits(op, |a|, |b|);
      assert Label2(ops, a, b) == Label2(ops[..n], a, b) + Emit2(op, b);
      Emit2Originals(op, b);
      OriginalsExtend(Label2(ops[..n], a, b), Emit2(op, b), b, op.j1, op.j2);
    }
  }

  /** One opcode puts document 2's tokens of its range, in order, into
      `aligned_doc2` (a `delete` has an empty range there). */
  lemma Emit2Originals(op: Opcode, b: seq<string>)
    requires op.j1 <= op.j2 <= |b|
    requires op.tag == Delete ==> op.j1 == op.j2
    requires forall k :: 0 <= k < |b| ==> b[k] != ""
    ensures Originals(Emit2(op, b)) == b[op.j1..op.j2]
  {
    if op.tag == Delete {
      OriginalsPlaceholders(Width(op.i1, op.i2));
    } else {
      OriginalsMark(b[op.j1..op.j2], match op.tag case Equal => Same case Replace => Different case _ => Added);
    }
  }

  /** Every token of document 1 appears once in `aligned_doc1`, in order:
      dropping the `''` entries gives exactly the flat token sequence. */
  lemma LabelKeepsDocument1(ops: seq<Opcode>, a: seq<string>, b: seq<string>)
    requires WellFormed(ops, a, b)
    requires forall k :: 0 <= k < |a| ==> a[k] != ""
    ensures InRange(ops, a, b)
    ensures Originals(Label1(ops, a, b)) == a
  {
    LabelKeepsPrefix1(ops, a, b);
    assert a[..|a|] == a;
  }

  /** Every token of document 2 appears once in `aligned_doc2`, in order. */
  lemma LabelKeepsDocument2(ops: seq<Opcode>, a: seq<string>, b: seq<string>)
    requires WellFormed(ops, a, b)
    requires forall k :: 0 <= k < |b| ==> b[k] != ""
    ensures InRange(ops, a, b)
    ensures Originals(Label2(ops, a, b)) == b
  {
    LabelKeepsPrefix2(ops, a, b);
    assert b[..|b|] == b;
  }

  /** The statuses the document-1 side can carry: never `added`, and a
      `''` token only as a `missing` placeholder. */
  predicate Side1Statuses(s: seq<Entry>) {
    forall k :: 0 <= k < |s| ==> s[k].status != Added && (s[k].token == "" ==> s[k] == Placeholder)
  }

  /** On the document-2 side `missing` entries are exactly the `''` placeholders. */
  predicate Side2Statuses(s: seq<Entry>) {
    forall k :: 0 <= k < |s| ==> (s[k].status == Missing <==> s[k] == Placeholder)
  }

  /** Number of `''` entries. */
  function CountEmpty(s: seq<Entry>): nat {
    if s == [] then 0 else CountEmpty(s[..|s| - 1]) + (if s[|s| - 1].token == "" then 1 else 0)
  }

  lemma {:induction false} CountEmptyAppend(x: seq<Entry>, y: seq<Entry>)
    ensures CountEmpty(x + y) == CountEmpty(x) + CountEmpty(y)
    decreases |y|
  {
    if y == [] {
      assert x + y == x;
    } else {
      assert (x + y)[..|x + y| - 1] == x + y[..|y| - 1];
      CountEmptyAppend(x, y[..|y| - 1]);
    }
  }

  lemma {:induction false} CountEmptyMark(tokens: seq<string>, s: Status)
    requires forall k :: 0 <= k < |tokens| ==> tokens[k] != ""
    ensures CountEmpty(Mark(tokens, s)) == 0
    decreases |tokens|
  {
    if tokens != [] {
      assert Mark(tokens, s)[..|tokens| - 1] == Mark(tokens[..|tokens| - 1], s);
      CountEmptyMark(tokens[..|tokens| - 1], s);
    }
  }

  lemma {:induction false} CountEmptyPlaceholders(n: nat)
    ensures CountEmpty(Placeholders(n)) == n
  {
    if n > 0 {
      assert Placeholders(n)[..n - 1] == Placeholders(n - 1);
      CountEmptyPlaceholders(n - 1);
    }
  }

  lemma Side1Append(x: seq<Entry>, y: seq<Entry>)
    requires Side1Statuses(x) && Side1Statuses(y)
    ensures Side1Statuses(x + y)
  {
    assert forall k :: |x| <= k < |x + y| ==> (x + y)[k] == y[k - |x|];
  }

  lemma Side2Append(x: seq<Entry>, y: seq<Entry>)
    requires Side2Statuses(x) && Side2Statuses(y)
    ensures Side2Statuses(x + y)
  {
    assert forall k :: |x| <= k < |x + y| ==> (x + y)[k] == y[k - |x|];
  }

  /** What one opcode adds to document 1's side keeps its discipline. */
  lemma Emit1Statuses(op: Opcode, a: seq<string>)
    requires op.i1 <= op.i2 <= |a|
    requires forall k :: 0 <= k < |a| ==> a[k] != ""
    ensures Side1Statuses(Emit1(op, a))
    ensures CountEmpty(Emit1(op, a)) == if op.tag == Insert then Width(op.j1, op.j2) else 0
  {
    match op.tag {
      case Equal => CountEmptyMark(a[op.i1..op.i2], Same);
      case Replace => CountEmptyMark(a[op.i1..op.i2], Different);
      case Delete => CountEmptyMark(a[op.i1..op.i2], Missing);
      case Insert => CountEmptyPlaceholders(Width(op.j1, op.j2));
    }
  }

  /** What one opcode adds to document 2's side keeps its discipline. */
  lemma Emit2Statuses(op: Opcode, b: seq<string>)
    requires op.j1 <= op.j2 <= |b|
    requires forall k :: 0 <= k < |b| ==> b[k] != ""
    ensures Side2Statuses(Emit2(op, b))
    ensures CountEmpty(Emit2(op, b)) == if op.tag == Delete then Width(op.i1, op.i2) else 0
  {
    match op.tag {
      case Equal => CountEmptyMark(b[op.j1..op.j2], Same);
      case Replace => CountEmptyMark(b[op.j1..op.j2], Different);
      case Delete => CountEmptyPlaceholders(Width(op.i1, op.i2));
      case Insert => CountEmptyMark(b[op.j1..op.j2], Added);
    }
  }

  /** Status discipline of `aligned_doc1`: only `same`, `different` and
      `missing`, its `''` entries are `missing` placeholders, and there are
      exactly as many of them as the insert ranges are long. */
  lemma {:induction false} Label1Statuses(ops: seq<Opcode>, a: seq<string>, b: seq<string>)
    requires InRange(ops, a, b)
    requires forall k :: 0 <= k < |a| ==> a[k] != ""
    ensures Side1Statuses(Label1(ops, a, b))
    ensures CountEmpty(Label1(ops, a, b)) == InsertedLength(ops)
  {
    if ops != [] {
      var n := |ops| - 1;
      assert InRange(ops[..n], a, b);
      Label1Statuses(ops[..n], a, b);
      Emit1Statuses(ops[n], a);
      Side1Append(Label1(ops[..n], a, b), Emit1(ops[n], a));
      CountEmptyAppend(Label1(ops[..n], a, b), Emit1(ops[n], a));
    }
  }

  /** Status discipline of `aligned_doc2`: an entry is `missing` exactly
      when it is a `''` placeholder, and there are as many placeholders as
      the delete ranges are long. */
  lemma {:induction false} Label2Statuses(ops: seq<Opcode>, a: seq<string>, b: seq<string>)
    requires InRange(ops, a, b)
    requires forall k :: 0 <= k < |b| ==> b[k] != ""
    ensures Side2Statuses(Label2(ops, a, b))
    ensures CountEmpty(Label2(ops, a, b)) == DeletedLength(ops)
  {
    if ops != [] {
      var n := |ops| - 1;
      assert InRange(ops[..n], a, b);
      Label2Statuses(ops[..n], a, b);
      Emit2Statuses(ops[n], b);
      Side2Append(Label2(ops[..n], a, b), Emit2(ops[n], b));
      CountEmptyAppend(Label2(ops[..n], a, b), Emit2(ops[n], b));
    }
  }

  lemma {:induction false} MarkAppend(x: seq<string>, y: seq<string>, s: Status)
    ensures Mark(x + y, s) == Mark(x, s) + Mark(y, s)
  {
  }

  /** If every opcode is `equal`, the two documents have the same flat
      tokens and both streams are those tokens, all labelled `same`. */
  lemma AllEqualIsSame(ops: seq<Opcode>, a: seq<string>, b: seq<string>)
    requires WellFormed(ops, a, b)
    requires forall k :: 0 <= k < |ops| ==> ops[k].tag == Equal
    ensures InRange(ops, a, b)
    ensures a == b
    ensures Label1(ops, a, b) == Label2(ops, a, b) == Mark(a, Same)
  {
    AllEqualStream1(ops, a, b);
    AllEqualStream2(ops, a, b);
    AllEqualTokens(ops, a, b);
    assert a[..|a|] == a && b[..|b|] == b;
  }

  /** Dropping the last opcode of a chained script leaves a chained script
      that ends where the last opcode starts. */
  lemma DropLast(ops: seq<Opcode>, na: nat, nb: nat)
    requires Chained(ops, na, nb) && ops != []
    ensures Chained(ops[..|ops| - 1], na, nb)
    ensures Fits(ops[|ops| - 1], na, nb)
    ensures IEnd(ops[..|ops| - 1]) == ops[|ops| - 1].i1
    ensures JEnd(ops[..|ops| - 1]) == ops[|ops| - 1].j1
  {
    var n := |ops| - 1;
    ChainedPrefix(ops, na, nb, n);
    if n > 0 { assert ops[..n][n - 1] == ops[n - 1]; }
  }

  /** With only `equal` opcodes, `aligned_doc1` is the covered prefix of
      document 1, all `same`. */
  lemma {:induction false} AllEqualStream1(ops: seq<Opcode>, a: seq<string>, b: seq<string>)
    requires Chained(ops, |a|, |b|)
    requires forall k :: 0 <= k < |ops| ==> ops[k].tag == Equal
    ensures InRange(ops, a, b) && IEnd(ops) <= |a|
    ensures Label1(ops, a, b) == Mark(a[..IEnd(ops)], Same)
  {
    if ops != [] {
      var n := |ops| - 1;
      var op, init := ops[n], ops[..n];
      DropLast(ops, |a|, |b|);
      assert forall k :: 0 <= k < |init| ==> init[k].tag == Equal;
      AllEqualStream1(init, a, b);
      assert op.tag == Equal;
      assert Label1(ops, a, b) == Label1(init, a, b) + Mark(a[op.i1..op.i2], Same);
      MarkAppend(a[..op.i1], a[op.i1..op.i2], Same);
      SlicesJoin(a, op.i1, op.i2);
    }
  }

  /** With only `equal` opcodes, `aligned_doc2` is the covered prefix of
      document 2, all `same`. */
  lemma {:induction false} AllEqualStream2(ops: seq<Opcode>, a: seq<string>, b: seq<string>)
    requires Chained(ops, |a|, |b|)
    requires forall k :: 0 <= k < |ops| ==> ops[k].tag == Equal
    ensures InRange(ops, a, b) && JEnd(ops) <= |b|
    ensures Label2(ops, a, b) == Mark(b[..JEnd(ops)], Same)
  {
    if ops != [] {
      var n := |ops| - 1;
      var op, init := ops[n], ops[..n];
      DropLast(ops, |a|, |b|);
      assert forall k :: 0 <= k < |init| ==> init[k].tag == Equal;
      AllEqualStream2(init, a, b);
      assert op.tag == Equal;
      assert Label2(ops, a, b) == Label2(init, a, b) + Mark(b[op.j1..op.j2], Same);
      MarkAppend(b[..op.j1], b[op.j1..op.j2], Same);
      SlicesJoin(b, op.j1, op.j2);
    }
  }

  /** With only `equal` opcodes, the covered prefixes of the two
      documents hold the same tokens. */
  lemma {:induction false} AllEqualTokens(ops: seq<Opcode>, a: seq<string>, b: seq<string>)
    requires Chained(ops, |a|, |b|) && EqualsAgree(ops, a, b)
    requires forall k :: 0 <= k < |ops| ==> ops[k].tag == Equal
    ensures IEnd(ops) <= |a| && JEnd(ops) <= |b|
    ensures a[..IEnd(ops)] == b[..JEnd(ops)]
  {
    if ops != [] {
      var n := |ops| - 1;
      var op, init := ops[n], ops[..n];
      DropLast(ops, |a|, |b|);
      AgreePrefix(ops, a, b, n);
      assert forall k :: 0 <= k < |init| ==> init[k].tag == Equal;
      AllEqualTokens(init, a, b);
      assert a[op.i1..op.i2] == b[op.j1..op.j2];
      SlicesJoin(a, op.i1, op.i2);
      SlicesJoin(b, op.j1, op.j2);
    }
  }
}
