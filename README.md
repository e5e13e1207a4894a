# Word document comparator: the comparison engine

This project models the comparison engine of the xsukax Word Document
Comparator. The engine is a pipeline over plain strings and lists:

1. `tokenize_text` cuts each document's text into lines and each line into
   maximal whitespace and non-whitespace runs (module `Tokenizer`).
2. `compare_documents` flattens both token lists. It then walks the edit
   opcodes (`equal`, `replace`, `delete`, `insert`) and builds two labelled
   streams of `(token, status)` entries (module `Alignment`).
3. The nested `reconstruct_lines` cuts each labelled stream back into lines.
   It uses only the number of tokens each original line had (module
   `Reconstruction`). Module `Comparator` puts stages 2 and 3 together.
4. `analyze_line_differences` sorts line numbers into `added`, `removed` and
   `modified`. `calculate_analytics` counts words by status (module
   `Analysis`).

Both documents are plain values. The loops that grow lists step by step are
methods with loop invariants, proved against specification functions:
- the opcode loop;
- the cursor walk of `reconstruct_lines`;
- the line scan of `analyze_line_differences`.

`tokenize_text` and `calculate_analytics` are functions.

The edit script comes from `difflib.SequenceMatcher`. Here it is a parameter,
constrained by `Alignment.WellFormed`:
- the ranges tile both flattened documents in order;
- `equal` ranges have equal widths and hold equal tokens;
- `delete` ranges are empty on document 2;
- `insert` ranges are empty on document 1.

Whitespace is the character set of Python's `str.isspace`. `str.strip()`
removes that same set, and `\s` matches it in a `str` pattern.

Behaviour of the code worth knowing:
- **Blank lines have no tokens.** A blank or whitespace-only line gets the
  list `['']` at xsukax-Word-Document-Comparator.py:379. The empty-token
  filter at :380 drops that `''` again, so the line has no tokens and the
  empty text tokenizes to `[[]]`.
- **The streams can differ in length.** Each `replace` range at :397-399
  adds `i2 - i1` entries to document 1's stream and `j2 - j1` to document
  2's. The two streams have the same length exactly when the replace
  ranges' imbalances sum to zero, in particular when every replace range
  has equal sides (`Alignment.LabelLengths`).
- **Insert placeholders are `missing`.** The placeholder an insert puts on
  document 1's side (:404) carries status `missing`.
- **Lost words alone make a line `modified`.** Lines go into `removed` and
  `added` together, in the same branch (:476-481). A line whose only change
  is lost words on document 1's side fails the test at :476 and is
  `modified` (:484-485). So is a line whose only change is new words on
  document 2's side, because the placeholders opposite them are not words.
- **Only `' '` and `'\t'` are absorbed.** After a line's quota,
  `reconstruct_lines` absorbs only entries whose token is exactly `' '` or
  `'\t'` (:421-422). It does not absorb other whitespace runs or `''`
  placeholders.

## Model

| member | source | states |
|---|---|---|
| Tokenizer.SplitLinesSpec | xsukax-Word-Document-Comparator.py:376 | `text.split('\n')` gives one more line than the text has line breaks. No line holds a line break, and joining the lines with `'\n'` gives the text back. |
| Tokenizer.RunLength | xsukax-Word-Document-Comparator.py:379 | The length of the longest prefix made of one kind of character: every character before it has that kind, and the character at it (if any) has the other kind. |
| Tokenizer.SplitOnSpaceRunsJoin | xsukax-Word-Document-Comparator.py:379 | `re.split(r'(\s+)', line)` loses nothing: its pieces, separators included, concatenate back to the line. |
| Tokenizer.SplitThenFilterIsRuns | xsukax-Word-Document-Comparator.py:379-380 | Splitting on whitespace runs and then dropping the empty pieces gives exactly the maximal runs of the line. |
| Tokenizer.RunsSpec | xsukax-Word-Document-Comparator.py:379-380 | The maximal runs concatenate to the line. Each run is non-empty and all whitespace or all non-whitespace. Neighbouring runs are of different kinds, and the first run starts with the line's first character. |
| Tokenizer.TokenizeLineSpec | xsukax-Word-Document-Comparator.py:379-381 | A line without content yields `[]`. A line with content yields its maximal runs: non-empty, one kind each, alternating, and concatenating back to the line. |
| Tokenizer.TokenizeTextSpec | xsukax-Word-Document-Comparator.py:374-382 | `tokenize_text` returns (number of `'\n'`) + 1 token lists, the empty text gives `[[]]`, and no token is empty. |
| Alignment.FlattenNonEmpty | xsukax-Word-Document-Comparator.py:386-387 | Flattening the per-line token lists keeps every token, so non-empty tokens stay non-empty. |
| Alignment.LabelOpcodes | xsukax-Word-Document-Comparator.py:393-405 | The opcode loop builds `aligned_doc1` of length `|flat_doc1|` + total insert width and `aligned_doc2` of length `|flat_doc2|` + total delete width. When tokens are non-empty, dropping the `''` entries from each stream gives back that document's flat tokens in order. |
| Alignment.LabelLengths | xsukax-Word-Document-Comparator.py:393-405 | Length of each stream as above. The two lengths differ by exactly the sum of the replace ranges' imbalances (`i2 - i1` minus `j2 - j1`), so they are equal exactly when that sum is zero. |
| Alignment.LabelKeepsDocument1 | xsukax-Word-Document-Comparator.py:394-404 | Every token of document 1 appears once in `aligned_doc1`, in order: the non-`''` entries are exactly `flat_doc1`. |
| Alignment.LabelKeepsDocument2 | xsukax-Word-Document-Comparator.py:394-405 | Every token of document 2 appears once in `aligned_doc2`, in order: the non-`''` entries are exactly `flat_doc2`. |
| Alignment.Label1Statuses | xsukax-Word-Document-Comparator.py:395-404 | `aligned_doc1` never carries `added`. Its `''` entries are `('', 'missing')` placeholders, and there are as many of them as the insert ranges are wide. |
| Alignment.Label2Statuses | xsukax-Word-Document-Comparator.py:396-405 | An entry of `aligned_doc2` is `missing` exactly when it is a `''` placeholder. There are as many placeholders as the delete ranges are wide. |
| Alignment.AllEqualIsSame | xsukax-Word-Document-Comparator.py:394-396 | With only `equal` opcodes, the two flat documents are equal and both streams are those tokens, all `same`. |
| Reconstruction.TakeLine | xsukax-Word-Document-Comparator.py:412-425 | One original line takes at least its token count from the cursor on, padding with `('', 'missing')` once the stream runs out. Beyond the quota it holds only `' '`/`'\t'` entries, and the entry at the new cursor is not one that could have been absorbed. |
| Reconstruction.LaidEntry | xsukax-Word-Document-Comparator.py:411-430 | In a laid-out result, entry `k` of line `i` is the stream entry at that line's offset plus `k`, or a `('', 'missing')` placeholder past the end of the stream. |
| Reconstruction.ExtrasInStream | xsukax-Word-Document-Comparator.py:418-425 | The entries a line absorbed beyond its quota come from the stream itself, never from the `('', 'missing')` padding. |
| Reconstruction.LaidSingleLine | xsukax-Word-Document-Comparator.py:411-432 | A stream laid out over one original line whose token count equals the stream's length comes back as exactly that one line, with no padding and no extra line. |
| Reconstruction.ReconstructLines | xsukax-Word-Document-Comparator.py:407-432 | The result is `LaidOut` over the stream and the original lines. There is one line per original line plus at most one more. That extra line is present exactly when entries remain after the original lines. The lines laid end to end are the stream followed only by padding, and padding and an extra line never both occur. Each original line holds its quota and beyond it only `' '`/`'\t'` entries, and the entry after it could not have been absorbed. |
| Analysis.AnalyzeLineDifferences | xsukax-Word-Document-Comparator.py:458-491 | `added` equals `removed`. Both lists are strictly increasing and within `1..max(len(doc1), len(doc2))`, and `modified` is disjoint from them. A line is in `added` exactly when document 1 lost words, document 2 gained words and no document-1 word is `different`. A line is in some list exactly when it has a differing word on either side. A line that only lost words is `modified`. |
| Analysis.ClassifiedLinesSpec | xsukax-Word-Document-Comparator.py:466-491 | The lists the scan builds up to line `n` are ordered, in range and disjoint, and hold exactly the lines each classification describes. So `sorted(set(...))` leaves them as they are. |
| Analysis.ClassifiedLinesOrdered | xsukax-Word-Document-Comparator.py:466-485 | Up to line `n` both lists are strictly increasing, within `1..n`, and disjoint. |
| Analysis.ClassifiedLine | xsukax-Word-Document-Comparator.py:470-485 | Line `m` is in the added/removed list exactly when it is a split change. It is in one of the lists exactly when either side has a differing word. |
| Analysis.CalculateAnalytics | xsukax-Word-Document-Comparator.py:493-513 | The total is the larger document's word count. The similarity is document 1's `same` words over that total, or 100% when there are no words, and it never exceeds 100%. |
| Analysis.TotalWordsPartition | xsukax-Word-Document-Comparator.py:495-502 | A document's words split exactly into its `same`, `different`, `missing` and `added` words. |
| Analysis.WordsWithinTotal | xsukax-Word-Document-Comparator.py:498-503 | The words of any one status never outnumber all words. |
| Analysis.Document1Partition | xsukax-Word-Document-Comparator.py:495-503 | On a document-1 side without `added` entries, `same` + modified + removed words equal its total word count, and `same_words <= total_words`. |
| Analysis.IdenticalAnalytics | xsukax-Word-Document-Comparator.py:493-513 | Two documents whose words are all `same` and equally many give zero added, removed and modified words and 100% similarity. |
| Comparator.CompareDocuments | xsukax-Word-Document-Comparator.py:384-437 | Each side is its labelled stream (`Label1`/`Label2` of the edit script) laid out over that document's original lines, as `Reconstruction.LaidOut` describes. Each side gets between its original line count and one more. The lines laid end to end are the stream followed only by padding. Each original line holds its quota and beyond it only `' '`/`'\t'` entries, and the extra line is there exactly when entries remain. With non-empty tokens, each side's non-`''` entries are exactly that document's tokens in order, so its word count is unchanged. Document 1 never carries `added`, and document 2 is `missing` only on `''` placeholders. With only `equal` opcodes every word on both sides is `same`, and the sides have equally many words. |
| Comparator.MixedScriptLaidOut | xsukax-Word-Document-Comparator.py:393-432 | For `a b` against `a c` under `equal` then `replace`, document 1's side is exactly the one line `a`/same, `' '`/same, `b`/different. |
| Comparator.SameLineNoDifferences | xsukax-Word-Document-Comparator.py:470-471 | A line whose words are all `same` has no difference on either side. |
| Comparator.NothingClassified | xsukax-Word-Document-Comparator.py:466-485 | When every word of both documents is `same`, no line is classified at all. |
| Comparator.CompareIdentical | xsukax-Word-Document-Comparator.py:493-505 | Comparing under an all-`equal` edit script gives zero added, removed and modified words, 100% similarity, and three empty line lists. |

## Left out

- The HTML template, its CSS and its JavaScript (xsukax-Word-Document-Comparator.py:20-356) are user interface, not comparison logic.
- `extract_text_from_docx` (:358-372) calls into python-docx and docx2txt. The text of each document is a parameter instead.
- `difflib.SequenceMatcher` (:389, :393) is library code. Its opcodes are an input constrained by `Alignment.WellFormed`. No claim is made that they are minimal, or symmetric when the documents are swapped. So the symmetry "removed words of (doc1, doc2) equal added words of (doc2, doc1)" is not modelled.
- `generate_html_content` (:439-456) is markup rendering and escaping.
- The Flask routes (:515-561) are request validation and JSON framing.
- `pythoncom.CoInitialize`, `print` and `app.run` (:563-575) are process setup and I/O.
- Analysis.CalculateAnalytics: the similarity is the exact fraction `same_words / total_words` as a numerator and denominator, reported as 100% when there are no words. The float division and `round(..., 1)` are not modelled.
- Comparator.CompareDocuments: the order and count properties are stated for non-empty tokens, which `Tokenizer.TokenizeTextSpec` shows the tokenizer always produces. With `''` tokens in the input, dropping the `''` entries would drop those tokens too.
- Alignment.LabelKeepsDocument1 and Alignment.LabelKeepsDocument2: they require non-empty tokens, for the same reason.
- Tokenizer.IsSpace: Unicode is limited to the code points Python's `str.isspace` accepts. There is no normalisation or case folding.
