# convert_annotation, modelled in Dafny

`convert_annotation` converts genomic coordinates between two versions of a
genome annotation. A table of aligned blocks gives, for each block, its
chromosome, start and end in version A and in version B. A query
`chr:start..end` in version A is looked up in that table through a small
keyword filter language, and then translated by offset into the matching
block of version B.

The model covers the three core files:

- `classes.py`. This is the `Database` table with its keyword filter
  (`filter`, `__len__`, `__getitem__`), the `GenomicCoordinate` record, and
  `ConvertCoordinates.query_parser` / `get_dmel_coordinates`.
- `read.py`. This is `parse_query_list`, taken over the lines of the query file.
- `formatter.py`. This is `from_GenomicCoord_list_to_DataFrame`, up to the
  column dictionary.

Modules:

- `Values` (values.dfy) holds cells (`Num`/`Str`), rows (maps from column
  name to cell), and the Python exceptions as an `Error` datatype with a
  `Result` wrapper. It also holds the parts of Python `str` and `int`
  behaviour that the code relies on: `split`, `rstrip`, `startswith`,
  substring tests, `str(n)` and `int(s)`.
- `Predicates` (predicates.dfy) decodes one keyword value (`*`, `gtN`,
  `gteN`, `ltN`, `lteN`, `neN`, `c/x/`, `nc/x/`, or anything else). This
  follows the regular expressions of classes.py:44-69, including their
  quirks:
  - Python's `$` also matches before a final newline.
  - The `lte` and `ne` patterns lack the `^` anchor, so they search the
    whole value.
  - A guard that matches while its full pattern does not gives the
    `AttributeError` of `None.group`.
  - `EvalCell` evaluates a decoded predicate on one cell. Ordering a string
    is a `TypeError`, `.str` on a number is an `AttributeError`, and `==`,
    `!=` and `isin` never raise.
- `Database` (database.dfy) builds the filter from four pieces:
  - one keyword step (`Step`);
  - the tuple branch, which filters and merges back (`TupleFold`);
  - the keyword loop (`KwargsFold`);
  - the optional sort (`SortFrame`).

  `FilterSpec` combines them into the specification of the whole call. The
  class `Database` holds the stored table. Its method `Filter` runs the
  keyword loop imperatively over a local frame, the way `res_df` is
  reassigned in the source. A `shared` flag records whether `res_df` is
  still the stored `self.df`. While that holds, an in-place sort
  (classes.py:88) reaches the stored table, and the method's postcondition
  says so.
- `Coordinates` (coordinates.dfy) holds `QueryParser`, Python `range`
  indexing, `Translate` (classes.py:138-150) and `GetDmelCoordinates`.
  `GetDmelCoordinates` builds the three filter keywords, runs `FilterSpec`,
  takes `.iloc[0]` and translates. A three-block example table is also
  worked through.
- `Read` (read.dfy) has `ParseQueryList`, a method with the source's two
  nested loops. It is proved equal to the specification `QueryListSpec`,
  which is built from `KeptLines` and `HeaderFold`.
- `Formatter` (formatter.dfy) has `FromGenomicCoordList`, the loop that
  fills four lists, its inverse `Zip`, and `ColumnDict`.

The record `GenomicCoordinate` (classes.py:118-120) is the datatype
`Coordinates.GenomicCoordinate`. The four lists of formatter.py:4-7 are the
datatype `Formatter.Columns`.

The tests ask for more than the code holds in two places:
- tests/test_classes.py:4 imports `PairedGenomicCoord`, which classes.py does
  not define.
- tests/test_classes.py:30-33 pairs the version-5 block `2L 1..10` with the
  version-6 block `2L 11..20`.

That pairing reads as inclusive block ends. The translation at
classes.py:142-147 indexes `range(ref_start, ref_end)`, which leaves out
`ref_end`. The model keeps the code as written and states the inclusive
reading as a separate, corrected translation (see Findings).

The conversion uses the first containing block. Despite the comment at
classes.py:137, no check is made that only one block contains the query. A
missing block raises `IndexError`.

A negative query start produces a keyword such as `lte-5`, and a negative
end one such as `gte-1`. Neither is a comparison, so each filters by string
equality. No numeric block bound equals it, so the filter finds nothing and
ends in `IndexError`. This happens even when a block contains the query, as
`2L:0..-1` does for a block starting at 0
(`Predicates.DecodeNegativeBound`, `Coordinates.GetDmelNegativeStart`,
`Coordinates.GetDmelNegativeEnd`). The model keeps all of this as written.

## Model

| member | source | states |
|---|---|---|
| Values.RStrip | read.py:26 | the result is a prefix of the input, does not end in a whitespace character, and everything removed is whitespace in Python's `isspace` sense |
| Values.SplitFirst | classes.py:153-155 | `(x + sep + y).split(sep)` is `[x]` followed by `y.split(sep)` when `x` does not contain the separator's first character |
| Values.SplitNone | classes.py:153-155 | a string without the separator's first character splits into itself alone |
| Values.NatToString | classes.py:134-135 | `str(n)` is a non-empty digit string denoting n |
| Values.ParseInt | classes.py:154-155 | any refusal is `ValueError` carrying the refused text |
| Values.ParseIntToString | classes.py:134-135 | `int(str(i)) == i` for every integer, and `str(i)` holds no `:` and no `.` |
| Values.Find | classes.py:153-155 | the result is -1 when the separator does not occur from `from` on, and otherwise the first position from `from` where it occurs |
| Values.Split | classes.py:153-155 | `str.split(sep)` for a non-empty separator: the pieces between successive leftmost occurrences, at least one piece |
| Values.SplitJoin | classes.py:153-155 | joining the pieces of `s.split(sep)` with `sep` gives back `s` |
| Values.SplitAbsent | classes.py:154-155 | a string in which the separator does not occur splits into itself alone |
| Values.IntToString | classes.py:134-135 | the f-string `str(i)`: a `-` before the digits of a negative number |
| Values.IsSpace | read.py:26 | exactly the characters `str.isspace` accepts, which `rstrip()` removes |
| Values.RStripTrailing | read.py:26 | `rstrip()` removes exactly a run of trailing whitespace after a non-space character |
| Predicates.Decode | classes.py:44-69 | decoding a keyword value fails only with `AttributeError` (a guard matched, its pattern did not) |
| Predicates.EvalCell | classes.py:47-73 | the test on one cell fails exactly when an ordering meets a string cell or a substring test meets a number cell |
| Predicates.DecodeGt | classes.py:47-49 | `gt` followed by `str(n)` decodes to `> n` |
| Predicates.DecodeGte | classes.py:50-52 | `gte` followed by `str(n)` decodes to `>= n` and is not taken for `gt` |
| Predicates.DecodeLt | classes.py:53-55 | `lt` followed by `str(n)` decodes to `< n` |
| Predicates.DecodeLte | classes.py:56-58 | `lte` followed by `str(n)` decodes to `<= n` and is not taken for `lt` |
| Predicates.DecodeNe | classes.py:59-61 | `ne` followed by `str(n)` decodes to `!= n` |
| Predicates.TrailingJunkRefused | classes.py:47-55 | for `gt`, `gte` and `lt`, a number followed by anything other than more digits or one final newline is an `AttributeError` |
| Predicates.GteNotGt | classes.py:47-58 | the `gt` and `lt` guards never match a value that starts with `gte` or `lte` |
| Predicates.LteSearchesWholeValue | classes.py:56-58 | the `lte` pattern lacks `^`, so for all N and M the value `lteNxlteM` decodes to `<= M`, taken from the second occurrence |
| Predicates.SearchFrom | classes.py:57 | the unanchored search returns the match at the first position where the anchored pattern matches |
| Predicates.DecodeSubstring | classes.py:62-67 | `c/x/` decodes to the substring test on x and `nc/x/` to its negation, for any non-empty x without a newline |
| Predicates.DecodePlain | classes.py:68-69 | any string that matches none of the guards (`*`, `^gt\d`, `^gte\d`, `^lt\d`, `^lte\d`, `^ne\d`, `^c/`, `^nc/`) means equality with itself |
| Predicates.DecodePlainExamples | classes.py:68-69 | `gtx`, `neon` and `gte` match no guard and mean equality with themselves |
| Predicates.DecodeNegativeBound | classes.py:56-69 | `lte` or `gte` followed by a negative number matches no guard and means equality with the whole string |
| Predicates.DigitsToEnd | classes.py:48-60 | `\d+$`: all digits to the end, or all digits and one final newline |
| Predicates.Anchored | classes.py:48-54 | `^tag(\d+)$`: the tag at the start, then a number to the end |
| Predicates.Search | classes.py:57-60 | the unanchored search from a position finds the number at the first later position where the anchored pattern matches, or none when no position does |
| Predicates.SlashBody | classes.py:63-66 | `(.+)\/$` matches exactly when the text is a non-empty run without newline, a `/`, then the end or one final newline, and the group is that run |
| Predicates.ContainsComplement | classes.py:64-67 | on every cell the `c/x/` and `nc/x/` tests fail together, and when they succeed they disagree |
| Database.Mask | classes.py:49-73 | boolean indexing fails exactly when some row's test fails; otherwise it keeps exactly the rows whose test holds, in order, as a subsequence |
| Database.Apply | classes.py:43-75 | `*` returns the frame unchanged; a missing column is a `KeyError` |
| Database.Relabel | classes.py:82 | the merged frame keeps its rows and gets the fresh index 0, 1, 2, ... |
| Database.Insert | classes.py:87-88 | insertion adds exactly one record, and the result stays a permutation |
| Database.InsertSorted | classes.py:87-88 | inserting into a sorted frame keeps it sorted by the key |
| Database.SortRecords | classes.py:87-88 | the sorted frame is a permutation of the input |
| Database.SortRecordsSorted | classes.py:87-88 | the sorted frame is ordered by the key, ascending or descending |
| Database.SortFrame | classes.py:87-88 | the sort succeeds exactly when the key is a column present in every row and the keys are all numbers or all strings; the result is then a sorted permutation |
| Database.MergeBack | classes.py:80-82 | filtering by one tuple element and merging back keeps exactly the rows that satisfy that element |
| Database.TupleKeeps | classes.py:78-82 | a tuple value keeps exactly the rows that satisfy all its elements, in order; the frame is still the stored table only for an empty tuple |
| Database.ApplyKeeps | classes.py:43-75 | a successful single test keeps exactly the rows that satisfy it |
| Database.StepKeeps | classes.py:77-86 | one keyword keeps exactly the rows satisfying its condition, and the frame stays the stored table only if nothing was filtered |
| Database.StepStrKeeps | classes.py:83-84 | a string keyword keeps exactly the rows satisfying its decoded condition |
| Database.StepListKeeps | classes.py:70-71 | a list keyword keeps exactly the rows whose cell is in the list |
| Database.StepIntKeeps | classes.py:85-86 | an int keyword keeps exactly the rows whose cell equals it |
| Database.FoldKeeps | classes.py:77-86 | the keyword loop keeps exactly the rows that meet every keyword's condition, in order; a frame still shared is the untouched input |
| Database.FilterKeepsPassingRows | classes.py:42-90 | with no sort, the result is the input rows that satisfy the conjunction of all keywords, as a subsequence in input order |
| Database.FilterSortedPermutation | classes.py:87-88 | with a sort, the result holds the same rows the unsorted filter keeps, each as often, ordered by the key |
| Database.RowsPermutation | classes.py:87-88 | reordering records reorders their rows the same way (the multisets of rows agree) |
| Database.SharedIsStored | classes.py:42 | a frame that is still shared after the loop is the stored table itself |
| Database.StarsKeepTable | classes.py:45-46 | `*` values filter nothing and leave the frame shared |
| Database.FilterStarsIsIdentity | classes.py:20 | with no keywords, or only `*` keywords, and no sort, `filter` returns the stored rows unchanged |
| Database.SingleKeyword | classes.py:77-86 | a filter with one keyword and no sort is exactly that keyword's step |
| Database.StringStep | classes.py:83-84 | a string keyword that decodes to a column test is that test's mask |
| Database.SingleStringKeyword | classes.py:83-84 | a single such keyword succeeds exactly when its mask does, and returns the mask |
| Database.DecodeCmp | classes.py:47-61 | each comparison tag followed by `str(n)` decodes to its comparison |
| Database.ComparisonFilter | classes.py:47-61 | on a numeric column, `gtN`, `gteN`, `ltN`, `lteN` and `neN` succeed and keep exactly the rows whose value is `>`, `>=`, `<`, `<=`, `!=` N |
| Database.MaskPartition | classes.py:62-67 | the `c/x/` and `nc/x/` masks succeed together and between them hold every row exactly once |
| Database.ContainsPartition | classes.py:62-67 | the filters `k=c/x/` and `k=nc/x/` succeed together and partition the table |
| Database.EvalRow | classes.py:49-73 | one row's test: `*` holds on every row, a missing column is a `KeyError`, else the cell test |
| Database.MergeInner | classes.py:82 | `pd.merge(how='inner')` of a frame with a subset of itself: the left rows found in the right frame, in order, with a fresh index |
| Database.Step | classes.py:43-86 | one keyword: a string is decoded then applied, a list is `isin`, an int is equality, a tuple is folded, anything else leaves the frame; only `*` strings, empty tuples and unsupported values (a float, say) keep it the stored table |
| Database.TupleFold | classes.py:78-82 | each tuple element filters the current frame and is merged back; the first failing element ends the fold |
| Database.KwargsFold | classes.py:77-86 | the keywords applied in order from the stored table; the first failure is the result |
| Database.FilterSpec | classes.py:42-90 | the keyword loop, then the sort when `sort_by` is given; the frame is shared with the stored table while no keyword changed it |
| Database.ValueLe | classes.py:88 | the order pandas sorts by: numbers by value, strings by code point, never a number against a string |
| Database.Sorted | classes.py:88 | every row's key is in order with the next row's key |
| Database.Database.constructor | classes.py:9-11 | the object holds the given table and description |
| Database.Database.Valid | classes.py:9-11 | every stored row has exactly the table's columns |
| Database.Database.Len | classes.py:101-102 | `len(db)` is the number of rows |
| Database.Database.GetItem | classes.py:107-111 | `db['*']` is the whole table; any other string is a `KeyError`; a label fails exactly when no row carries it |
| Database.Database.KeywordStep | classes.py:78-86 | one turn of the keyword loop computes exactly `Step`; a frame still shared afterwards is the frame it was given |
| Database.Database.TupleStep | classes.py:78-82 | the tuple loop computes exactly `TupleFold`, including its first failure |
| Database.Database.Filter | classes.py:13-90 | the result matches `FilterSpec`. The stored table changes only when a sort was requested and the frame was still the stored table; it then becomes the sorted frame |
| Database.StarIsWholeTable | classes.py:101-111 | `db['*']` is the stored table and `len(db)` counts its rows |
| Database.GetItemUniqueLabel | classes.py:107-111 | a label carried by exactly one row selects that row |
| Coordinates.QueryParser | classes.py:152-157 | a parsed query keeps the given version and the text before the first `:`; failures are `IndexError` or `ValueError` only |
| Coordinates.QueryParserRoundTrip | classes.py:152-157 | parsing `c:s..e` gives back c, s and e for every c without `:` and all integers s, e, with no `s <= e` check |
| Coordinates.QueryParserNoColon | classes.py:153-154 | a query without `:` is an `IndexError` |
| Coordinates.QueryParserNoDots | classes.py:154-155 | for text without any `..` (a single `.` allowed) the start is still converted first: an integer start gives `IndexError`, anything else the `ValueError` of `int()` |
| Coordinates.QueryParserBadNumber | classes.py:154-155 | a start or end that is not an integer (`1.5` included) is a `ValueError` on that text, the start checked first; the texts hold no `..` and the start does not end in `.` |
| Coordinates.SplitDotsFirst | classes.py:154-155 | `x..y` comes apart first at the `..` after `x` when `..` does not occur in `x` and `x` does not end in `.` |
| Coordinates.QueryParserFraction | classes.py:154-155 | `2L:1.5..3` is the `ValueError` of `int('1.5')` |
| Coordinates.QueryParserDecimal | classes.py:154-155 | `2L:5.6` is the `ValueError` of `int('5.6')`, raised before the missing `..` is noticed |
| Coordinates.QueryText | classes.py:152-155 | the text `c:s..e` that `query_parser` reads |
| Coordinates.RangeLen | classes.py:146-147 | `len(range(lo, hi))`: zero when `hi <= lo` |
| Coordinates.PyIndex | classes.py:146-147 | Python sequence indexing, negative indices from the end, otherwise `IndexError` |
| Coordinates.LookupKwargs | classes.py:132-136 | the `filt_kw` dict: chromosome equality, `lte<start>` and `gte<end>` on the query version's columns, in that order |
| Coordinates.PyRangeIndex | classes.py:146-147 | `range(lo, hi)[i]` succeeds exactly for `-len <= i < len` and then lies in `[lo, hi)`, counting from the end for negative i; otherwise `IndexError` |
| Coordinates.RangeSeq | classes.py:146-147 | the integers `range(lo, hi)` enumerates |
| Coordinates.PyRangeIndexIsIndex | classes.py:146-147 | indexing a range is Python sequence indexing of the integers it enumerates |
| Coordinates.Lookup | classes.py:142-150 | `conv_dict[key]` succeeds exactly for a present key; otherwise `KeyError` |
| Coordinates.Minus | classes.py:142-143 | `q - cell` succeeds exactly for a number cell and undoes adding it |
| Coordinates.RangeAt | classes.py:146-147 | `range` on two number cells is Python range indexing; on any other cell it is a `TypeError` |
| Coordinates.Translate | classes.py:138-150 | a translated coordinate has the reference version and chromosome, and both of its ends lie in `[ref_start, ref_end)` |
| Coordinates.TranslateInsideBlock | classes.py:142-147 | in an equal-length block with `b_start <= q_start <= q_end < b_end`, the result is `(ref_chr, ref_start + (q_start - b_start), ref_end - (b_end - q_end))`, as long as the query |
| Coordinates.TranslateAtBlockEnd | classes.py:143-147 | a query ending at the block end gets `ref_start` as its end |
| Coordinates.TranslateStartPastRange | classes.py:142-146 | a start offset at or beyond `ref_end - ref_start` is an `IndexError` |
| Coordinates.GetDmelCoordinates | classes.py:127-150 | a converted coordinate carries the reference version, and only a parsable query converts |
| Coordinates.MaskedStep | classes.py:132-138 | a lookup keyword whose test cannot fail on the rows is its mask |
| Coordinates.ThreeSteps | classes.py:132-138 | the three lookup keywords run one after another |
| Coordinates.ChrStep | classes.py:133 | the chromosome keyword keeps exactly the rows on that chromosome |
| Coordinates.StartStep | classes.py:134 | `lte<start>` keeps exactly the rows whose block starts at or before the query |
| Coordinates.EndStep | classes.py:135 | `gte<end>` keeps exactly the rows whose block ends at or after the query |
| Coordinates.LookupKeepsContainingBlocks | classes.py:132-138 | for a plain chromosome name and non-negative bounds, the lookup keeps exactly the rows whose block contains the query, in table order |
| Coordinates.GetDmelTakesFirstHit | classes.py:129-150 | for a non-negative start and end, the conversion translates the first containing row, and is an `IndexError` when there is none |
| Coordinates.GetDmelUsesFirstMatch | classes.py:132-138 | for a non-negative start and end, the row used is the first one, in table order, whose block contains the query; with no such row the call fails |
| Coordinates.NegativeStartStep | classes.py:134 | with a negative start the `lte` keyword keeps no row of numeric block starts |
| Coordinates.EndStepEmpty | classes.py:135 | the `gte<end>` keyword keeps an empty frame empty, whatever the end's sign |
| Coordinates.GetDmelNegativeStart | classes.py:129-138 | a query with a negative start fails with `IndexError` on any table of numeric block bounds |
| Coordinates.NegativeEndStep | classes.py:135 | with a negative end the `gte` keyword keeps no row of numeric block ends |
| Coordinates.GetDmelNegativeEnd | classes.py:129-138 | a query with a non-negative start and a negative end fails with `IndexError` on any table of numeric block bounds, even when a block contains it |
| Coordinates.FirstHit | classes.py:138 | `.iloc[0]` of a filtered sequence is its first passing element, and a filter that nothing passes is empty |
| Coordinates.TranslateInclusive | classes.py:146-147 | corrected translation: both ends lie in the inclusive reference block `[ref_start, ref_end]` |
| Coordinates.TranslateInclusiveInsideBlock | classes.py:142-147 | corrected translation: in an equal-length block with `b_start <= q_start <= q_end <= b_end`, both ends move by `ref_start - b_start` |
| Coordinates.TranslateInclusiveAgrees | classes.py:142-147 | short of the block end, the corrected translation agrees with the code as written |
| Coordinates.TranslateInclusiveRoundTrip | classes.py:142-150 | corrected translation: converting to the reference version and back through the same block returns the query |
| Coordinates.GetDmelCoordinatesInclusive | classes.py:127-150 | the conversion with the corrected translation carries the reference version |
| Coordinates.ExampleTexts | classes.py:152-157 | the example queries' texts are written `c:s..e` |
| Coordinates.ExampleWholeBlock | classes.py:127-150 | `2L:1..10` on the block `2L 1-10` to `2L 11-20` converts to `2L 11..11` |
| Coordinates.ExampleChromosomeChange | classes.py:127-150 | `2L:23..27` converts to `2R 24..28` through the second block |
| Coordinates.ExampleNotFound | classes.py:138 | `3L:100..200` lies in no block and is an `IndexError` |
| Coordinates.ExampleWholeBlockInclusive | classes.py:127-150 | with the corrected translation `2L:1..10` converts to `2L 11..20` |
| Read.Hits | read.py:28-31 | the count of matching ignored prefixes is positive exactly when the line starts with one of them |
| Read.KeptLines | read.py:28-35 | the lines without an ignored prefix, right-stripped, in order |
| Read.HeaderFold | read.py:23-26 | the last header line's integer; the first header line without one ends the read with its error |
| Read.QueryListSpec | read.py:21-44 | without a header prefix the kept lines; otherwise unbound, zero, wrong and right counts give `UnboundLocalError`, the not-parsed exception, `AssertionError` or the kept lines |
| Read.HeaderValueOf | read.py:26 | the prefix, `str(n)` and trailing whitespace give n |
| Read.HeaderValue | read.py:26 | reading the count fails only with `IndexError` (nothing after the prefix) or `ValueError` |
| Read.CountHits | read.py:28-31 | the inner loop counts exactly the ignored prefixes the line starts with |
| Read.KeptLinesAppend | read.py:28-35 | the query list of two parts of a file is the two lists joined |
| Read.ParseQueryList | read.py:9-44 | the nested loops return or raise exactly what `QueryListSpec` says |
| Read.KeptLinesIsFilter | read.py:28-35 | the query list is, in input order, each line without an ignored prefix, right-stripped |
| Read.KeptLinesAvoidNothing | read.py:28-35 | no line in the query list starts with an ignored prefix |
| Read.QueryListIsKeptLines | read.py:21-44 | a returned list is exactly the kept lines, and none starts with an ignored prefix |
| Read.DefaultsDropHeadersAndComments | read.py:9 | with the default arguments, no `itemnum` header line and no `/*` line is ever returned |
| Read.HeaderFoldAppend | read.py:24-26 | the header count carries over from one part of the file to the next |
| Read.HeaderFoldNoHeader | read.py:24-26 | lines without the prefix leave the count unchanged |
| Read.HeaderLine | read.py:23-26 | a header line made of the prefix, `str(n)` and any trailing whitespace (its newline) sets the count to n |
| Read.LastHeaderWins | read.py:23-26 | the count is the one on the last header line (with or without trailing whitespace), whatever earlier headers said |
| Read.HeaderLineWithNewline | read.py:23-26 | `itemnum: 5` read with its newline sets the count to 5 |
| Read.NoHeaderPrefixNoCheck | read.py:24-36 | with an empty prefix there is no header parsing and no count check |
| Read.CountCheck | read.py:36-42 | with a prefix: an unset count means the unbound-variable failure, 0 means "not parsed", a count different from the list length is an assertion failure, and only an equal nonzero count returns |
| Read.NoHeaderUnbound | read.py:36-42 | a file with no header line fails because `exp_itemnum` is unbound |
| Formatter.Zip | formatter.py:9-13 | reading the four columns back row by row gives one coordinate per row with those fields |
| Formatter.FromGenomicCoordList | formatter.py:3-13 | every column is as long as the input; its entry i is the corresponding field of input i; zipping the columns gives back the input (nothing filtered or reordered, and empty input gives empty columns) |
| Formatter.ColumnDict | formatter.py:15-22 | the columns are named exactly `chromosome`, `start`, `end`, `version` and hold the four lists in order |

## Left out

- The following I/O and construction are not modelled: file and CSV I/O (`pd.read_csv`, `open`, `to_csv`), `pd.DataFrame` construction, and `from_CSV_to_ConvertCoordinates`, which passes four arguments to a two-argument constructor. Tables are sequences of indexed rows, and query files are sequences of lines.
- main.py is only orchestration, and the two functions it calls are not defined in the code, so it is not part of this model.
- The thin pandas wrappers `groupby`, `head`, `tail`, `__iter__` and `__repr__` are not modelled.
- Predicates.Decode: thresholds are whole numbers only. The source's pattern `\d+\.*\d*` and its `float()` would also accept values such as `gt1.5`; the model treats those as a failed pattern. `\d` also matches non-ASCII decimal digits (Arabic-Indic digits, for example), which `float()` accepts; `IsDigit` is ASCII only, so the model reads such values as plain equality or as a failed pattern. A value such as `gt1..5` matches the source's pattern, and `float('1..5')` then raises `ValueError`; the model gives `AttributeError`, so the Decode row's "fails only with `AttributeError`" is a statement about the model.
- Predicates.EvalCell: `str.contains` treats its argument as a regular expression; the model uses a plain substring test. Comparisons compare integers, not floats.
- Predicates.EvalCell: errors are modelled cell by cell. For a column holding both numbers and strings, pandas may raise a different exception kind, for example a `ValueError` from masking with NaN after `.str.contains`.
- Database.MergeInner: `pd.merge` can produce duplicate rows when rows repeat. The model assumes distinct rows and keeps the left rows found in the right frame, in order, with a fresh index.
- Database.SortFrame: the tie order among equal keys, sort stability and NaN placement are not stated. Only sortedness, the permutation, the error cases and the in-place effect on the stored table are.
- Database.Database.GetItem: a string key other than `*` is a `KeyError`, as under the default integer index. Other index types are not modelled.
- Values.ParseInt: Python's `int()` also accepts surrounding whitespace, a `+` sign, underscores and non-ASCII digits. The model refuses them.
- Coordinates.Translate: integers are unbounded, so numpy `int64` overflow is not modelled.
- Versions are text. The source formats them into column names with an f-string, and the tests also use integers.
- Coordinates.LookupKeepsContainingBlocks: proved for chromosome names that the filter reads as plain equality (any name starting with a digit, for example). A name such as `gt5` or `*` is decoded as a predicate. `GetDmelCoordinates` models that too, but no lemma states it.
- Exception messages are not modelled. This includes the assertion's text and the "Expected number has not been parsed." text, which is kept only as the `NotParsedError` value.
- `PairedGenomicCoord`, which tests/test_classes.py:4 imports, is not defined in classes.py, so it is not modelled.

## Findings

| source | as written | input that shows it | evidently intended | confidence | as-written member | corrected member |
|---|---|---|---|---|---|---|
| classes.py:143-147 | the end is `range(ref_start, ref_end)[q_end - b_end]`, so a query ending at the block end indexes element 0 | query `2L:1..10` against the block v5 `2L 1-10` ↔ v6 `2L 11-20` gives v6 `2L 11..11` | block ends are inclusive (tests/test_classes.py:30-33 pairs `2L 1..10` with `2L 11..20`), so the end should map to `ref_end`, giving `2L 11..20` | not executed | Coordinates.ExampleWholeBlock | Coordinates.TranslateInclusiveInsideBlock |
| classes.py:142-146 | the start is `range(ref_start, ref_end)[q_start - b_start]`, which excludes `ref_end` | a query starting at the block end, such as `2L:10..10` on the same block, raises `IndexError` | the last position of an inclusive block maps to `ref_end` | not executed | Coordinates.TranslateStartPastRange | Coordinates.TranslateInclusiveInsideBlock |
