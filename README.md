# newfacematch — a verified model of the matcher and the reconciliation ledger

newfacematch matches the product names of an order sheet against a product
catalog and writes the chosen match back into the order sheet. The catalog
is an Excel workbook with one tab per product group. The order sheet is the
tab "시트1" of a Google spreadsheet. This project models the two parts of
that system that hold its logic, and proves what they promise.

**The matcher** (`src/matcher.py`):
- `normalize_string` is `Text.Normalize`.
- The ranked search `find_matching_products`:
  - it runs over the tabs in order and finds each tab's product column by substring tests;
  - it keeps the rows scoring at or above the threshold;
  - it sorts them stably by score, highest first, and keeps the first `top_n`.
- Its wrappers are `get_best_match` and `batch_match_products`.
- The first-hit pipeline is `auto_match_products`. Its three-tier column resolver `get_col_value` is `Resolver.Resolve`.

**The ledger writer** (`src/utils.py`):
- `batch_update_matching_results`:
  - makes sure the six result columns exist;
  - reads the sheet once to find the rows already reconciled;
  - stages six cell writes for every other result;
  - sends them as one batched update;
  - asks for sold-out formatting through `_apply_soldout_formatting`.
- `update_matching_result` is a batch of one.
- The pending-row filter of `load_matching_sheet_orders` selects the orders that still need a match.

Module layout:

| module | what it holds |
|---|---|
| `Text` | `str.strip()`, ASCII lower-casing, the `in` test on strings, `normalize_string` |
| `Seqs` | search loops (`FirstWhere`, `IndexOf`), `Filter`, and loop specifications (`Concat` for list appends, `Tabulate` for dict fills) |
| `Catalog` | tabs as column names plus rows; the product and model column searches |
| `Resolver` | `get_col_value` |
| `Ranking` | the stable descending sort |
| `Search` | `find_matching_products`, `get_best_match`, `batch_match_products` |
| `AutoMatch` | `auto_match_products` |
| `Grid` | the worksheet as a grid of strings with 1-based addressing, and batched cell writes |
| `Ledger` | header extension, the reconciled set, staging, format requests, and the whole commit as the function `Ledger.Commit` |
| `CommitFacts` | what a commit promises |
| `Sheet` | the worksheet as a class whose methods update its grid and its format requests, with the batch writer as methods proved equal to `Ledger.Commit` |
| `Pending` | the pending-row filter and how it interacts with the writer |
| `A1` | the column letters of the cell ranges (see Findings) |

The fuzzy scorers of the scoring library are parameters of type
`Catalog.Scorer`, which returns an integer from 0 to 100. The sheet calls that
can raise are represented by `Ledger.Fault`, which names the call that fails.
A failing formatting call is a boolean parameter.

## Model

| member | source | states |
|---|---|---|
| Text.NormalizeSpec | src/matcher.py:23-34 | normalising "" gives ""; the output is never longer than the input; every output character is a-z, 0-9 or a Hangul syllable 가-힣; every a-z, 0-9 or 가-힣 character of the stripped, lower-cased input survives, as often as it occurs |
| Text.NormalizeFixesKept | src/matcher.py:23-34 | a string made only of a-z, 0-9 and 가-힣 normalises to itself |
| Text.NormalizeIdempotent | src/matcher.py:23-34 | normalising a normalised string changes nothing |
| Text.TrimStartSpec | src/matcher.py:26 | the left half of strip removes exactly the leading run of whitespace: the result is a suffix of the input, empty or starting with a non-space |
| Text.TrimEndSpec | src/matcher.py:26 | the right half of strip removes exactly the trailing run of whitespace: the result is a prefix of the input, empty or ending with a non-space |
| Text.KeepOnlySpec | src/matcher.py:32 | the character filter keeps only a-z, 0-9 and 가-힣, never lengthens its input, and keeps every occurrence of every such character |
| Text.KeepOnlyAppend | src/matcher.py:32 | the filter works left to right: the kept characters of a + b are those of a followed by those of b, so the survivors keep their order |
| Text.LowerAscii | src/matcher.py:29 | lower-casing keeps the length (ASCII letters only, see Left out) |
| Text.LowerAsciiSpec | src/matcher.py:29 | position by position, A-Z becomes the matching a-z and every other character is kept |
| Text.DecimalString | src/matcher.py:247 | `int(similarity)` renders as a non-empty string of decimal digits |
| Text.DecimalStringValue | src/matcher.py:247 | the rendering denotes the number itself and has no leading zero, as `str(int)` |
| Seqs.FirstWhere | src/matcher.py:75-78 | a `for … if test: …; break` search returns the first index that passes, and None only when no element passes |
| Seqs.IndexOf | src/utils.py:292 | `headers.index(name)` returns the first position of name; it fails (None) exactly when name is absent |
| Seqs.Filter | src/utils.py:114 | a row filter keeps only passing elements, drops none that pass, and never lengthens the list |
| Seqs.FilterAppend | src/utils.py:114 | filtering distributes over concatenation |
| Seqs.ConcatLength | src/utils.py:400-456 | when every element appends n entries, the loop appends n entries per element |
| Seqs.ConcatMembership | src/matcher.py:72-114 | an element of the appended list comes from the contribution of some element of the loop |
| Seqs.ConcatFilter | src/matcher.py:96 | filtering every contribution is filtering the appended list |
| Seqs.TabulateKeys | src/matcher.py:136-143 | a dictionary filled in a loop has exactly the loop's keys |
| Seqs.TabulateLastWins | src/matcher.py:136-143 | a key's entry is the value of the last element carrying that key |
| Seqs.PyPrefix | src/matcher.py:120 | `matches[:top_n]` is a prefix whose length is `top_n` capped by the list's length, with Python's meaning for a negative `top_n` |
| Seqs.PyPrefixMonotone | src/matcher.py:120 | slicing keeps the prefix relation |
| Catalog.ProductColumnIsFirst | src/matcher.py:74-81 | the product column is the first column whose name contains 상품명, 제품명 or "product" ignoring case; None when no column does |
| Catalog.ModelColumnIsFirst | src/matcher.py:202-206 | the model column is the first column whose name contains 모델명 or "model" ignoring case; None when no column does |
| Catalog.FirstColumn | src/matcher.py:75-78 | the column-search loop returns the same column as the first-match specification |
| Catalog.CellByName | src/matcher.py:108-111 | `row.get(name, '')` is "" when the tab has no column of that name, and otherwise the row's cell in the first column of that name |
| Resolver.NormalizedTargets | src/matcher.py:231 | the normalised target list normalises each target, position by position |
| Resolver.FuzzyRatio | src/matcher.py:241-247 | the inner tier-3 loop accepts a target exactly when some target passes (both normalised names non-empty, ratio at least 95); the reported ratio is at least 95 |
| Resolver.Resolve | src/matcher.py:209-250 | a resolved column is a column of the tab |
| Resolver.ResolveExactTier | src/matcher.py:223-228 | tier 1 applies exactly when some literal column name is a target, and it picks the first such column |
| Resolver.ResolveNormalizedTier | src/matcher.py:230-237 | tier 2 applies only when no literal name matched, and it picks the first column whose normalised name is a normalised target |
| Resolver.ResolveFuzzyTier | src/matcher.py:239-247 | tier 3 applies only with similarity on and tiers 1-2 empty; the column's normalised name is non-empty; the ratio is that of the first accepted target and is at least 95; the column is the first accepted |
| Resolver.ResolveUnresolved | src/matcher.py:248-250 | nothing resolves exactly when no column passes any tier that was tried |
| Resolver.ResolvedValue | src/matcher.py:226-250 | the value is "" when nothing resolved, and otherwise the row's cell in the resolved column |
| Resolver.TierLabel | src/matcher.py:227-247 | every tier has a non-empty log text |
| Resolver.TierLabelText | src/matcher.py:227-247 | the log text is "1단계:정확" for an exact hit and "2단계:정규화" for a normalised one; for a fuzzy hit it is "3단계:유사도", then decimal digits that denote the ratio rounded down (with no leading zero), then "%" |
| Ranking.Insert | src/matcher.py:117 | one insertion step of the sort adds exactly the element |
| Ranking.InsertSorted | src/matcher.py:117 | inserting into a list sorted by descending score keeps it sorted |
| Ranking.SortByScore | src/matcher.py:117 | the sort result is a permutation of its input, sorted by descending score |
| Ranking.SortCommutesWithFilter | src/matcher.py:117 | sorting then filtering equals filtering then sorting |
| Ranking.SortIsStable | src/matcher.py:117 | stability: the elements with one score keep their input order |
| Ranking.SortedAtLeastIsPrefix | src/matcher.py:96-117 | sorting the candidates scoring at least h gives a prefix of the sorted candidates |
| Ranking.SortedHeadIsMax | src/matcher.py:117 | the first sorted element is an input element with the highest score |
| Ranking.SortedHeadIsFirstWithScore | src/matcher.py:117 | the first sorted element is the first input element with its score |
| Ranking.SortedHeadIsFirstBest | src/matcher.py:117-120 | the first sorted element is the earliest input element with the highest score |
| Search.MatchOf | src/matcher.py:104-113 | a candidate carries its tab's name, the row's stripped name and the score of that name; its prices, vendor and image are the row's cells in the columns named 입고가계, 공급가(V+) 배송비 포함, 운영사 and 대표 1, and its option is the option value |
| Search.OptionValue | src/matcher.py:97-102 | the option is "" when the tab has none of the option columns, and otherwise the row's cell in the first option column the tab has |
| Search.RowCandidates | src/matcher.py:84-114 | a row contributes at most one candidate |
| Search.RowCandidateShape | src/matcher.py:84-114 | a row contributes exactly when its product cell is not blank and its stripped name scores at least the threshold; the candidate's name is non-empty |
| Search.RankedSearch | src/matcher.py:62-120 | a blank query gives []; the result has at most `top_n` entries |
| Search.CollectRows | src/matcher.py:84-114 | the row loop appends exactly the rows' contributions, in row order |
| Search.CollectTable | src/matcher.py:72-114 | a tab without a product column contributes nothing; otherwise its rows do |
| Search.CollectTables | src/matcher.py:72-114 | the tab loop appends the tabs' contributions in tab order |
| Search.FindMatchingProducts | src/matcher.py:37-120 | the search method returns the ranked search: the stable descending sort of the candidates, cut at `top_n` |
| Search.TableMembership | src/matcher.py:72-96 | a tab's candidate comes from one of its rows, in a tab that has a product column |
| Search.CandidatesMembership | src/matcher.py:72-96 | something is a candidate exactly when some row of some tab contributes it |
| Search.RankedSearchMembership | src/matcher.py:62-96 | every returned entry comes from a row of a tab with a product column; its name is non-empty; its score is at least the threshold and is the score of its name; the query was not blank |
| Search.RankedSearchIsPrefixOfSortedCandidates | src/matcher.py:116-120 | the result is a prefix of the sorted candidates; with `top_n` at least their number it holds all of them |
| Search.RankedSearchOrder | src/matcher.py:116-120 | the result is in descending score order; entries of equal score keep tab-then-row encounter order |
| Search.TableRaiseThreshold | src/matcher.py:96 | a tab's candidates at a higher threshold are its lower-threshold candidates that score at least the higher one |
| Search.CandidatesRaiseThreshold | src/matcher.py:96 | the same holds for all tabs together |
| Search.ThresholdMonotone | src/matcher.py:96-120 | raising the threshold only removes entries: the stricter result is a prefix of the looser one |
| Search.GetBestMatch | src/matcher.py:146-162 | None exactly for a blank query or no candidates; otherwise the earliest candidate with the highest score |
| Search.BatchResultsSpec | src/matcher.py:136-143 | the result keys are exactly the order indices; each index maps to the ranked search of its last order line |
| Search.BatchMatchProducts | src/matcher.py:123-143 | the order loop fills the dictionary as the specification says |
| AutoMatch.MethodLabel | src/matcher.py:288-299 | the method text is non-empty and is "100%일치" exactly for the exact-name test |
| AutoMatch.InfoAt | src/matcher.py:261-286 | the match info carries its tab, the stripped name and similarity 100; the log has only the key 매출(공급가), present exactly when the supply price resolved, holding that tier's text; an unresolved supply price is ""; no model column gives "" |
| AutoMatch.InfoAtFields | src/matcher.py:263-268 | the supply price is the row's cell in the column resolved with similarity; purchase price, vendor, image and option are the values resolved for their target lists; the model field is the row's model cell |
| AutoMatch.RowVerdict | src/matcher.py:253-299 | a row with a blank product cell never hits; 모델명100%일치 needs a model column whose cell normalises to a non-empty name |
| AutoMatch.TestRow | src/matcher.py:253-299 | the per-row tests give the row verdict: blank name, exact name, then model containment |
| AutoMatch.ScanTab | src/matcher.py:190-299 | the row loop returns the first hitting row of a tab, or None when no row hits |
| AutoMatch.AutoMatchProducts | src/matcher.py:165-301 | a blank query gives None; otherwise the result is the first hit in tab-then-row order with its outcome; None means no row of any tab hits |
| AutoMatch.ExactNameFirst | src/matcher.py:288-290 | within a row the verdict is 100%일치 exactly when the stripped names are equal |
| AutoMatch.EmptyModelNeverMatches | src/matcher.py:292-299 | a model name that normalises to "", or no model column, never gives 모델명100%일치 |
| AutoMatch.ModelVerdictMeaning | src/matcher.py:253-299 | the verdict is 모델명100%일치 exactly when the product cell is not blank, its stripped name differs from the query, the tab has a model column whose cell is not blank, and the non-empty normalised model name occurs in the normalised query |
| AutoMatch.NanModelMatchesAsWritten | src/matcher.py:268-299 | a model cell holding the text "nan" (what `str()` makes of a missing value) matches every query whose normalised form contains "nan" (see Findings) |
| AutoMatch.BananaContainsNan | src/matcher.py:23-34 | the query "banana" normalises to a string containing "nan" |
| AutoMatch.BlankModelNeverMatches | src/matcher.py:292-299 | a blank or missing model cell never gives 모델명100%일치 |
| AutoMatch.OutcomeShape | src/matcher.py:275-290 | a successful auto-match reports similarity 100, its tab and a non-empty name, which equals the query for 100%일치 |
| Grid.PadTo | src/utils.py:310 | padding a row keeps its cells and reads "" beyond them |
| Grid.SetCell | src/utils.py:378 | writing a cell grows the grid to reach its row |
| Grid.SetCellCell | src/utils.py:378 | writing a cell changes that cell and no other |
| Grid.LastWrite | src/utils.py:378 | there is no last write to a cell exactly when no write addresses it |
| Grid.ApplyWritesCell | src/utils.py:378 | after a batched update each cell holds its last write; cells nobody wrote keep their value |
| Grid.ApplyWritesRows | src/utils.py:378 | a batched update never shrinks the grid, and every written row exists afterwards |
| Grid.ApplyWritesRowKept | src/utils.py:378 | a row no write addresses is unchanged |
| Grid.LastWriteAppend | src/utils.py:378 | in a concatenated batch the later part's write to a cell wins |
| Grid.WriteHeader | src/utils.py:300 | rewriting the header row keeps the number of rows (one row for an empty sheet) |
| Grid.WriteHeaderCell | src/utils.py:300 | rewriting the header sets the first cells of row 1 and leaves every other cell as it was |
| Ledger.ResultColumnsDistinct | src/utils.py:281-288 | the six result column names are distinct |
| Ledger.ExtendHeader | src/utils.py:290-296 | the header loop assigns one column per name |
| Ledger.ExtendHeaderColsPositive | src/utils.py:290-296 | every assigned column is 1-based |
| Ledger.ExtendHeaderPrefix | src/utils.py:290-296 | existing header entries never move: the old header is a prefix of the new one |
| Ledger.IndexOfFirstAt | src/utils.py:292 | `headers.index(x) == i` exactly when i is the first occurrence of x |
| Ledger.ExtendHeaderPositions | src/utils.py:290-296 | each name gets the 1-based position of its first occurrence in the new header, which is its old position when the header already had it |
| Ledger.ExtendHeaderAppends | src/utils.py:293-296 | the new header is the old one followed by the missing result columns, in the fixed order |
| Ledger.HeaderGrows | src/utils.py:299 | the header grows, and so is rewritten, exactly when some result column was missing |
| Ledger.HeaderComplete | src/utils.py:290-296 | a header holding every name is kept, and each name keeps its first position |
| Ledger.ExtendHeaderStable | src/utils.py:290-300 | extending an extended header changes nothing |
| Ledger.ResultValue | src/utils.py:330-365 | the first five result values are the payload fields, "" when a key is missing; the sixth is the match type, 수동매칭 when there is none |
| Ledger.Reconciled | src/utils.py:303-313 | the header row is never reconciled; a sheet without body rows has none; a reconciled row exists and its 매칭상품_상품명 cell is not blank |
| Ledger.WritesFor | src/utils.py:330-365 | a committed result gets six writes at its row, one per result column, holding the five payload values ("" when missing) and the match type |
| Ledger.StagedWriteOrigin | src/utils.py:319-365 | every staged write is one of the six writes of a non-skipped result |
| Ledger.StagedSoldOutMembership | src/utils.py:367-372 | the sold-out rows are exactly the non-skipped results whose tab label contains 품절, with the 매칭_탭 column |
| Ledger.StagedWritesEmpty | src/utils.py:319-378 | there is something to write exactly when some result is not skipped |
| Ledger.StagedLastWrite | src/utils.py:330-365 | the last staged write to a result cell is the value of the last result for that row |
| Ledger.LastWriteOfSix | src/utils.py:330-365 | within one result's writes, the write to the k-th result column holds the k-th value |
| Ledger.SoldOutRequests | src/utils.py:400-456 | the request list holds two requests per sold-out row, and none for none |
| Ledger.SoldOutRequestsShape | src/utils.py:400-456 | two requests per sold-out row, in order: the whole row over columns [0, total) and the 매칭_탭 cell [tab-1, tab), both at 0-based row row-1 |
| Ledger.ResultCols | src/utils.py:290-296 | the six result columns are valid 1-based positions |
| Ledger.StagedWritesValid | src/utils.py:332-365 | every staged write addresses a 1-based cell |
| Ledger.WriteBatch | src/utils.py:303-384 | the count is between 0 and the batch size; a failing batched write returns 0 and leaves the sheet as the header step left it |
| Ledger.Commit | src/utils.py:250-388 | the count is between 0 and the batch size; a count above 0 means no call failed but possibly a header write that was not needed; failing to open, read or write cells leaves the sheet as it was or with only the header row rewritten |
| CommitFacts.CommitEmpty | src/utils.py:270-271 | an empty batch returns 0 and leaves the sheet unchanged |
| CommitFacts.CommitFault | src/utils.py:265-388 | a count above 0 means no call failed; failing to open, or failing the header write when the header grew, changes nothing; failing the read or the batched cell write of a non-empty batch returns 0 with only the header row rewritten |
| CommitFacts.AfterHeaderHeader | src/utils.py:298-300 | after the header step row 1 is the extended header and no other row changes |
| CommitFacts.ResultColsFacts | src/utils.py:290-296 | the six result columns are distinct positions in the new header, each holding its name |
| CommitFacts.CommitGrid | src/utils.py:376-378 | without a fault the new sheet is the staged writes applied after the header step |
| CommitFacts.CommitCellKept | src/utils.py:330-378 | no cell is written except the result cells of committed results |
| CommitFacts.CommitReconciledRowKept | src/utils.py:322-324 | a row found reconciled keeps every cell |
| CommitFacts.CommitCellWritten | src/utils.py:330-365 | a committed result's six cells hold its six values when no later result writes its row |
| CommitFacts.CommitKeepsHeader | src/utils.py:298-378 | after a batch of body rows row 1 is the extended header, and the sheet did not shrink |
| CommitFacts.CommittedRowInGrid | src/utils.py:378 | a committed result's row exists in the new sheet |
| CommitFacts.CommitMarksRows | src/utils.py:306-335 | after a commit a row of the batch is reconciled when it already was, or when the last result on it carries a non-blank product name |
| CommitFacts.CommitLeavesBlankRow | src/utils.py:306-335 | a fresh row whose last result carries a blank product name is still not reconciled after the commit |
| CommitFacts.SecondCommitSkipsAll | src/utils.py:281-324 | on the committed sheet the header step changes nothing and the result columns are the same; a row of the batch is skipped exactly when it was reconciled before or its last result carried a non-blank product name |
| CommitFacts.CommitAllSkipped | src/utils.py:319-384 | when the header is complete and every row is skipped, the batch returns 0 and writes nothing |
| CommitFacts.CommitTwice | src/utils.py:304-384 | idempotence: when every row of a batch of body rows was reconciled before or received a non-blank product name last, repeating the batch returns 0 and changes nothing |
| CommitFacts.RepeatCommitCount | src/utils.py:304-384 | a repeated batch counts exactly the results whose row was fresh the first time and received a blank product name last |
| CommitFacts.CommitOne | src/utils.py:319-374 | a batch of one counts 1 exactly when its row is not reconciled |
| CommitFacts.CommitCountsDuplicates | src/utils.py:304-378 | two results for one row in a batch are both counted when the row is fresh (none when it is reconciled), and the row's result cells then hold the second one's values |
| Sheet.Worksheet.constructor | src/utils.py:275 | a worksheet holds the given grid and no format requests |
| Sheet.Worksheet.RowValues1 | src/utils.py:278 | `row_values(1)` returns the header row |
| Sheet.Worksheet.GetAllValues | src/utils.py:303 | `get_all_values()` returns the grid |
| Sheet.Worksheet.UpdateHeaderRow | src/utils.py:300 | the header update rewrites row 1 and nothing else |
| Sheet.Worksheet.BatchUpdate | src/utils.py:378 | `batch_update` applies the writes in order and changes no formatting |
| Sheet.Worksheet.BatchFormat | src/utils.py:460 | the spreadsheet's `batch_update` appends the requests and changes no cell |
| Sheet.LocateResultColumns | src/utils.py:290-296 | the header loop returns the extended header and the columns of the specification |
| Sheet.ReadReconciled | src/utils.py:303-311 | the read loop collects exactly the body rows whose 매칭상품_상품명 cell exists and is not blank |
| Sheet.StageResult | src/utils.py:319-374 | one pass of the batch loop stages that result's writes and sold-out row, and commits it exactly when its row is not reconciled |
| Sheet.StageResults | src/utils.py:314-374 | the batch loop builds the staged writes and sold-out rows and counts the committed results |
| Sheet.ApplySoldoutFormatting | src/utils.py:391-463 | the formatting sends two requests per sold-out row and touches no cell; a failing call is swallowed and sends nothing |
| Sheet.BatchUpdateMatchingResults | src/utils.py:250-388 | the worksheet ends as `Ledger.Commit` says; the count is the commit's count whether or not formatting fails; formatting is requested for the commit's sold-out rows |
| Sheet.UpdateMatchingResult | src/utils.py:168-203 | the single update succeeds exactly when the one-element batch counts more than 0; the sheet ends as that batch leaves it, and the formatting requests sent are that batch's sold-out requests, or none when formatting fails |
| Sheet.SingleUpdateOutcome | src/utils.py:168-203 | a single update succeeds exactly when no sheet call fails and its row is not reconciled; its six cells then hold the new values |
| Pending.PendingOrders | src/utils.py:97-116 | an empty sheet has no orders; the orders are at most the body rows |
| Pending.ColumnOf | src/utils.py:108-114 | a header holds a name not at all, exactly once (at the given index), or repeatedly |
| Pending.ColumnOfOnce | src/utils.py:112-114 | a name found at one index and nowhere else occurs once there |
| Pending.SheetRows | src/utils.py:101-105 | the frame rows are the rows below the header, numbered from sheet row 2, with their cells |
| Pending.PendingOrdersErrors | src/utils.py:97-116 | an empty sheet has no orders; loading fails exactly when 상품명 is missing from the header, or when 매칭상품_상품명 is present more than once |
| Pending.FilteredRowsIncreasing | src/utils.py:114 | filtering the body rows keeps sheet order |
| Pending.FilteredRowsCells | src/utils.py:114 | filtering the body rows keeps each with its own sheet row and cells |
| Pending.PendingOrdersShape | src/utils.py:101-116 | the loaded orders are body rows with their own cells, in sheet order |
| Pending.PendingOrdersAll | src/utils.py:112-116 | without a 매칭상품_상품명 column every body row is an order |
| Pending.FilteredRowsListed | src/utils.py:114 | a body row survives the filter exactly when it passes the test |
| Pending.PendingOrdersMembership | src/utils.py:112-114 | with one 매칭상품_상품명 column a body row is an order exactly when its cell there is blank after strip |
| Pending.MatchedColumnLocated | src/utils.py:290-296 | the batch writes 매칭상품_상품명 in the column the loader reads |
| Pending.PendingIffNotSkipped | src/utils.py:112-114 | a body row is pending exactly when the batch writer would not skip it |
| Pending.AppendKeepsOnce | src/utils.py:293-296 | appending other names keeps a single occurrence where it was |
| Pending.NewHeaderKeepsColumns | src/utils.py:290-300 | the header step keeps 상품명 and the single 매칭상품_상품명 column in place |
| Pending.UpdatePendingCommits | src/utils.py:168-203 | updating a pending order's row commits it, with count 1 |
| Pending.CommitKeepsColumns | src/utils.py:298-378 | committing a body row keeps 상품명 and the single 매칭상품_상품명 column |
| Pending.CommitReconcilesRow | src/utils.py:330-335 | committing a body row with a non-blank product name fills its 매칭상품_상품명 cell |
| Pending.CommitLeavesPending | src/utils.py:112-114 | after that commit the sheet still loads, and the row is no longer pending |
| Pending.UpdateClearsPending | src/utils.py:168-203 | updating a pending order with a non-blank product name commits it and removes it from the pending orders |
| A1.LetterAsWritten | src/utils.py:333 | `chr(64 + c)` is a column letter exactly for columns up to 26 |
| A1.LetterAsWrittenUpToZ | src/utils.py:333 | up to column 26 the source's letter is the A1 column name |
| A1.LetterAsWrittenPast26 | src/utils.py:300 | column 27 is written "[", which is not a column name; A1 notation calls it "AA" |
| A1.LetterAsWrittenLowerCase | src/utils.py:333 | columns 33 to 58 are written as the lower-case letters a to z, the letter of column c - 32 |
| A1.ColumnName | src/utils.py:300 | every column has a name made of the letters A-Z |
| A1.ColumnNumberOfName | src/utils.py:333-363 | the A1 name of a column denotes that column |
| A1.ColumnNameOfNumber | src/utils.py:333-363 | every column name is the A1 name of the column it denotes, so names and columns correspond one to one |

## Left out

- Missing values: pandas NaN and `pd.isna` are not modelled. Cells are strings, and a cell that is missing or that a row does not reach reads as "". This is the corrected behaviour of the NaN row under Findings; the source's `str(NaN) == "nan"` (src/matcher.py:268) is shown by `AutoMatch.NanModelMatchesAsWritten`.
- Text.Normalize: its properties are stated by the lemmas `Text.NormalizeSpec`, `Text.NormalizeFixesKept` and `Text.NormalizeIdempotent`, not by a postcondition of the function.
- Text.LowerAscii: lower-cases only ASCII A-Z, where Python's `str.lower()` lowers all of Unicode. Non-ASCII capitals are then dropped by the character filter either way, except for characters whose lower case is a-z (such as the Kelvin sign).
- Scores: the scoring library (`fuzz.token_set_ratio`, `fuzz.ratio`) is not part of this model. Scorers are function parameters returning integers from 0 to 100, so the rounding to one decimal (src/matcher.py:107) is not modelled.
- Cell addresses: writes are addressed by (row, column) numbers, not A1 strings. This is the behaviour of the corrected letters under Findings, not of `chr(64 + c)`.
- The header update writes the range A1 to the last header column. The model writes the whole new header into row 1.
- Sheet shape: `get_all_values()` is the grid as stored. Trimming of trailing empty rows and columns by the spreadsheet service is not modelled. The loader's DataFrame is modelled on a rectangular grid, and a short row reads "" beyond its end. A write beyond the grid grows the modelled grid with empty cells. The service's own limit on a sheet's size, and any error it raises for a range beyond that limit, are not modelled.
- Failures: the spreadsheet calls that can raise are represented by `Ledger.Fault`, which names the failing call. A failure of either `row_values(1)` read is folded into the failure to open the sheet. The messages printed on failure are not modelled.
- Sheet.ApplySoldoutFormatting: a failing `batch_update` is a boolean parameter. The colours, the bold flag, the `fields` masks and the sheet id in the requests are not modelled; each request keeps its style and its range.
- Ledger.ResultValue: `result.get('match_type', '수동매칭')` is modelled as an optional match type, so the default applies only when the key is absent.
- Pending.PendingOrders: a duplicated 매칭상품_상품명 column makes the source's `.str` access raise, and the load re-raises it as a generic error; the model returns `Err(RepeatedMatchedColumn)`. Sheet-opening errors of the loader are not modelled.
- Not part of this model:
  - authentication and credential discovery (`get_gspread_client`, `get_service_account_file`);
  - `get_spreadsheet_url` and `get_matching_sheet_headers`;
  - Excel loading (`load_excel_products`);
  - src/image_handler.py, src/excel_processor.py, app.py and scripts/setup_streamlit.py, which are network, file and UI code.
- Catalog order: the catalog dictionary's tab order is the order of the `Table` sequence.

Two behaviours of the code worth knowing:
- The product and model columns are found by the substring tests of src/matcher.py:75-78 and 193-206, not by the three-tier resolver.
- `auto_match_products` returns the first hit in tab-then-row order. An exact-name match in a later row does not take priority over a model-name match in an earlier row; the exact test comes first only within a row (`AutoMatch.AutoMatchProducts`, `AutoMatch.ExactNameFirst`).

## Findings

| source | as written | input that shows it | evidently intended | confidence | as-written member | corrected member |
|---|---|---|---|---|---|---|
| src/utils.py:300, 333-363, 386-388 | the column of a cell range is the single character `chr(64 + c)` | a sheet whose new header has 27 columns: the header range ends in "[", and so does the address of every cell written in column 27, so the update raises and the batch returns 0 with nothing written; columns 33 to 58 come out as "a" to "z", which can silently address columns A to Z | A1 column names past Z (27 is "AA") | high, not executed | A1.LetterAsWrittenPast26, A1.LetterAsWrittenLowerCase | A1.ColumnNumberOfName |
| src/utils.py:152, src/matcher.py:268, 292-294 | the catalog is read without filling missing cells, `str()` turns a missing model name into "nan", and `pd.isna` on that string is false | a row with product name 바나나우유 and an empty model cell, and the query "banana": the normalised query contains "nan", so the row matches as 모델명100%일치 | a missing model name never matches | medium, not executed | AutoMatch.NanModelMatchesAsWritten | AutoMatch.BlankModelNeverMatches |
