# SpMM on a wafer-scale PE grid: host-side planning and encoding, in Dafny

The benchmark suite multiplies a sparse matrix A (N x K) by a dense B (K x M)
on a rectangular grid of processing elements (PEs). Each PE owns one Nt x Kt
tile of A. Everything the host does around a run is arithmetic or bookkeeping,
and that is what this project models and proves:

- **Tile scanner** (`check_memory.c`, module `TileScan`). It walks a dense
  matrix tile by tile and reports the largest per-tile buffer lengths of the
  CSC, CSR, COO ("custom") and ELLPACK layouts. Each scan is an imperative
  method with loop invariants, proved against a specification of nonzero
  counts.
- **Memory planner** (`calculate_memory_limits.py`, modules `MemoryModel` and
  `ConfigSearch`):
  - the per-PE memory formulas of the five formats;
  - the search over grid shapes and dense widths M, with its 5% filters and
    tie-breaks;
  - the six lines the planner prints.
- **Plan checker** (`verify_limits.py`, modules `VerifyLimits` and
  `DecimalText`). It parses the printed lines back and re-checks every row
  against the memory budget. The end-to-end lemma `SearchVerifies` shows that
  whatever the search prints passes the checker.
- **CSV padding** (both `add_padding.py` copies, modules `CsvPadding` and
  `PadSummary`). Ragged CSV files are widened to their longest line. An
  all-missing last column is dropped, and the remaining gaps are filled with -1.
- **Grid COO encoder/decoder** (`idea_filip/helper.py`, module `GridCoo`).
  Nonzeros are listed tile by tile with a start pointer per tile, and a matrix
  is rebuilt from the list. The round trip is proved.
- **Launchers** (`run_memcpy.py` of gemm, grid_csr, grid_custom and
  grid_ellpack_dsr, modules `Layout`, `Timestamps` and `Bits`):
  - the tile shape and its asserts;
  - `split_matrix_into_grids`;
  - the host <-> PE index maps (each proved a bijection);
  - padding of B and trimming of C;
  - the FLOP and access counters;
  - the decoding of the 48-bit cycle counters and the min/max/mean loop.

Shared helpers: `Wrappers` (Option/Result), `Arith` (ceiling division,
quotient/remainder uniqueness, `int()` truncation of a float) and `Bits`
(Python `<<`, `>>`, `&`, `|` on naturals).

## Model

| member | source | states |
|---|---|---|
| Arith.CeilDivBounds | src/memory_limits/check_memory.c:150-151 | the tile extent `n%p==0 ? n/p : n/p+1` covers `n` with `p` parts and is the least count that does |
| Arith.CeilDivAtMost | src/memory_limits/check_memory.c:150-151 | a tile extent never exceeds the dimension and is positive for a non-empty dimension |
| Arith.TruncReal | src/idea_filip/helper.py:90 | Python `int()` on a float truncates toward zero: the floor for non-negative values, the ceiling (within 1 above) for negative ones |
| TileScan.InBounds | src/memory_limits/check_memory.c:163-169 | the number of indices a tile loop visits before its `>= n` break: at most the tile extent, ending at the matrix edge, 0 for a tile past the edge |
| TileScan.RowSegment | src/memory_limits/check_memory.c:258-274 | the inner column loop counts exactly the nonzeros of the row segment inside the tile |
| TileScan.ColSegment | src/memory_limits/check_memory.c:174-190 | the inner row loop of the CSC scan counts exactly the nonzeros of the column segment inside the tile |
| TileScan.RowMajorTile | src/memory_limits/check_memory.c:245-276 | the row-major walk of one tile counts its nonzeros and the rows it visits (the row-pointer increments) |
| TileScan.ColMajorTile | src/memory_limits/check_memory.c:163-192 | the column-major walk of one tile counts its nonzeros and the columns it visits (the column-pointer increments) |
| TileScan.EllpackTile | src/memory_limits/check_memory.c:391-422 | after one tile the running maximum is at least its start, bounds every row segment of the tile, and is either the start or some row's count |
| TileScan.ScanTileByRows | src/memory_limits/check_memory.c:326-351 | the count of tile (i, j) is its nonzero count and the rows seen are the tile's height |
| TileScan.ScanTileByCols | src/memory_limits/check_memory.c:163-192 | the column-major count of tile (i, j) equals the row-major nonzero count of the same tile |
| TileScan.ScanTileEllpack | src/memory_limits/check_memory.c:391-422 | the running maximum over the rows of tile (i, j) bounds every row and is attained or unchanged |
| TileScan.CooGridParams | src/memory_limits/check_memory.c:307-362 | the COO length returned is the largest nonzero count of any tile: it bounds every tile and some tile attains it |
| TileScan.CsrGridParams | src/memory_limits/check_memory.c:226-296 | values and column-index lengths are the largest tile nonzero count; the row-pointer length is the largest tile height plus one |
| TileScan.CscGridParams | src/memory_limits/check_memory.c:143-212 | values and row-index lengths are the largest tile nonzero count; the column-pointer length is the largest tile width plus one |
| TileScan.EllpackGridParams | src/memory_limits/check_memory.c:374-428 | the ELLPACK line length is the largest nonzero count of any row segment of any tile |
| TileScan.MeasureFormat | src/memory_limits/check_memory.c:478-501 | type 0..3 dispatch to CSC, CSR, COO, ELLPACK with the grid width passed as Px and the height as Py; any other type prints no numbers, whatever the grid size |
| TileScan.ByRowsByCols | src/memory_limits/check_memory.c:163-192 | counting a block row by row and column by column gives the same number |
| TileScan.RowInTile | src/memory_limits/check_memory.c:248-251 | every row lies in exactly one tile row: tile `r / H` is the only one whose extent contains it |
| TileScan.BlockAtMost | src/memory_limits/check_memory.c:326-351 | a block has at most height x width nonzeros |
| TileScan.TileAtMostArea | src/memory_limits/check_memory.c:313-314 | a tile's nonzero count is bounded by the full tile area `grid_height * grid_width` |
| TileScan.CooAtMostTileArea | src/memory_limits/check_memory.c:307-362 | the COO length never exceeds the tile area |
| TileScan.TileRowWithinTile | src/memory_limits/check_memory.c:399-416 | one row of a tile has no more nonzeros than the whole tile, nor more than the tile width |
| TileScan.EllpackWithinCoo | src/memory_limits/check_memory.c:374-428 | the ELLPACK line length is at most the COO length and at most the tile width |
| TileScan.RowPtrIsTileHeight | src/memory_limits/check_memory.c:255-286 | the CSR row-pointer length is exactly `ceil(n / Py) + 1` |
| TileScan.ColPtrIsTileWidth | src/memory_limits/check_memory.c:171-202 | the CSC column-pointer length is exactly `ceil(m / Px) + 1` |
| MemoryModel.PaddedM | src/memory_limits/calculate_memory_limits.py:68-70 | `ceil((M+1)/4)*4` is a multiple of 4 strictly above M and at most M + 4 |
| MemoryModel.PaddedMLeast | src/memory_limits/calculate_memory_limits.py:68-70 | padded_M is the least multiple of 4 above M |
| MemoryModel.PaddedMMonotone | src/memory_limits/calculate_memory_limits.py:68-70 | padded_M grows with M |
| MemoryModel.WholeWords | src/memory_limits/calculate_memory_limits.py:123-129 | every format's memory is a whole number of 4-byte words |
| MemoryModel.CsrAgainstCsc | src/memory_limits/calculate_memory_limits.py:123-161 | CSR and CSC differ only by their pointer arrays: `4 * (Nt - Kt)` bytes |
| MemoryModel.GrowsWithBound | src/memory_limits/calculate_memory_limits.py:119-192 | CSR, CSC and ELLPACK memory grow with the nonzero bound |
| MemoryModel.GrowsWithM | src/memory_limits/calculate_memory_limits.py:194-219 | all dense-width-dependent memories grow with M |
| MemoryModel.CsrAgainstGemm | src/memory_limits/calculate_memory_limits.py:123-129 | CSR needs no more memory than GEMM exactly when `2k + Nt + 1 <= Nt * Kt` |
| MemoryModel.EllpackAgainstGemm | src/memory_limits/calculate_memory_limits.py:187-192 | ELLPACK needs no more than GEMM exactly when `2 * Nt * k <= Nt * Kt` |
| MemoryModel.CooSkipsMeasurement | src/memory_limits/calculate_memory_limits.py:73-83 | when the 15%-inflated estimate exceeds the budget, the estimate is returned and the measurement is never consulted |
| MemoryModel.CooFitsOnlyMeasured | src/memory_limits/calculate_memory_limits.py:82-97 | a COO memory within budget is always the measured one, sized by `get_nnz_coo(Nt*height, Kt*width, ...)` |
| ConfigSearch.DivisorsMembers | src/memory_limits/calculate_memory_limits.py:231-232 | the candidate heights/widths are exactly the divisors below the grid limit |
| ConfigSearch.DivisorsIncreasing | src/memory_limits/calculate_memory_limits.py:231-232 | the candidate list is strictly increasing |
| ConfigSearch.ProductMembers | src/memory_limits/calculate_memory_limits.py:233 | `itertools.product` holds exactly the pairs of a height and a width |
| ConfigSearch.CandidatesAdmissible | src/memory_limits/calculate_memory_limits.py:231-233 | a (height, width) pair is a candidate iff both divide their dimension and lie below AVAIL_HEIGHT / AVAIL_WIDTH |
| ConfigSearch.FittingMembers | src/memory_limits/calculate_memory_limits.py:244-250 | the kept configs are exactly the priced candidates strictly below `MEM - RESERVED` |
| ConfigSearch.MaxKey | src/memory_limits/calculate_memory_limits.py:251-252 | `sorted(..., key)[-1][key]` is the largest key: it bounds every config and one attains it |
| ConfigSearch.KeepMembers | src/memory_limits/calculate_memory_limits.py:255-258 | a filter keeps exactly the configs that meet its criterion |
| ConfigSearch.KeepFirst | src/memory_limits/calculate_memory_limits.py:278-281 | `final_output[0]` is the first config in the original order that meets the criterion |
| ConfigSearch.KeepKeep | src/memory_limits/calculate_memory_limits.py:264-278 | filtering twice is filtering once by both criteria |
| ConfigSearch.CollectFails | src/memory_limits/calculate_memory_limits.py:235-258 | collection fails iff some M has no fitting config; the error names the first such M |
| ConfigSearch.CollectKept | src/memory_limits/calculate_memory_limits.py:255-258 | every collected config is within 5% of the largest memory among the fitting configs of its M |
| ConfigSearch.CollectPriced | src/memory_limits/calculate_memory_limits.py:244-258 | every collected config is a priced candidate for one of the widths M, below the budget |
| ConfigSearch.ChooseBest | src/memory_limits/calculate_memory_limits.py:262-281 | the choice has the largest Nt*Kt, is within 5% of the best memory among those, has the largest M among such, and is the first of them in order |
| ConfigSearch.ChooseFirst | src/memory_limits/calculate_memory_limits.py:276-281 | the pick `final_output[0]` is the earliest qualifying config with the chosen M |
| ConfigSearch.ChooseFails | src/memory_limits/calculate_memory_limits.py:262-277 | selection fails exactly on an empty output, or when the largest memory among the top-Nt*Kt configs is not positive |
| ConfigSearch.AppendNear | src/memory_limits/calculate_memory_limits.py:255-258 | the append loop adds exactly the configs within 5% of `mem_max`, in order |
| ConfigSearch.CollectOutput | src/memory_limits/calculate_memory_limits.py:235-258 | the M loop builds the specified output or fails as the specification does |
| ConfigSearch.ChooseFrom | src/memory_limits/calculate_memory_limits.py:262-281 | the selection code computes the specified choice |
| ConfigSearch.PlanOne | src/memory_limits/calculate_memory_limits.py:229-282 | planning one (N, K, density) computes the specified plan row |
| ConfigSearch.PlanShapes | src/memory_limits/calculate_memory_limits.py:228-282 | the (N, K) loop yields the specified rows or the first failure |
| ConfigSearch.PlanSweep | src/memory_limits/calculate_memory_limits.py:227-282 | the density loop yields the specified table or the first failure |
| ConfigSearch.PlansAtRows | src/memory_limits/calculate_memory_limits.py:228-282 | a successful shape loop has one row per shape, each the plan of that shape |
| ConfigSearch.SweepRows | src/memory_limits/calculate_memory_limits.py:227-282 | a successful sweep has `|densities| * |shapes|` rows, each from some density |
| ConfigSearch.Column | src/memory_limits/calculate_memory_limits.py:285-290 | column k of the table holds field k of every row, in order |
| ConfigSearch.Numerals | src/memory_limits/calculate_memory_limits.py:285-290 | `str(x)` of every value, in order |
| ConfigSearch.PrintedLines | src/memory_limits/calculate_memory_limits.py:285-290 | the six printed lines are `name=(v1 v2 ...)` for the six column names |
| ConfigSearch.PlanForAdmitted | src/memory_limits/calculate_memory_limits.py:229-282 | every planned row fits the budget under the same formula, keeps its N, K and density, and has M among 32..512 |
| ConfigSearch.SweepAdmitted | src/memory_limits/calculate_memory_limits.py:221-290 | every row of a successful sweep is admitted, and there are `|densities| * |shapes|` of them |
| DecimalText.DigitChar | src/memory_limits/calculate_memory_limits.py:285 | a digit below 10 is printed as the character whose value it is |
| DecimalText.NatToString | src/memory_limits/calculate_memory_limits.py:285-290 | `str(n)` is a non-empty digit string without a leading zero |
| DecimalText.ValueOfNatToString | src/memory_limits/verify_limits.py:13 | the digits of `str(n)` have value n |
| DecimalText.ParseNatToString | src/memory_limits/verify_limits.py:13 | `int(str(n)) == n` |
| DecimalText.ParseNegated | src/memory_limits/verify_limits.py:13 | `int("-" + str(n)) == -n` |
| DecimalText.ParseRejectsSpace | src/memory_limits/verify_limits.py:13 | `int()` rejects a token with an inner space |
| DecimalText.LStrip | src/memory_limits/verify_limits.py:11 | removes exactly the leading whitespace |
| DecimalText.RStrip | src/memory_limits/verify_limits.py:11 | removes exactly the trailing whitespace |
| DecimalText.Strip | src/memory_limits/verify_limits.py:11 | the result neither starts nor ends with whitespace |
| DecimalText.StripLine | src/memory_limits/verify_limits.py:11 | stripping a printed line with its newline gives the line back |
| DecimalText.RStripChar | src/memory_limits/verify_limits.py:13 | `rstrip(')')` removes exactly the trailing ')' characters |
| DecimalText.Token | src/memory_limits/verify_limits.py:13 | the first whitespace-free token is a prefix ending at whitespace or at the end |
| DecimalText.SplitWs | src/memory_limits/verify_limits.py:13 | `split()` yields non-empty tokens without whitespace |
| DecimalText.TokenOf | src/memory_limits/verify_limits.py:13 | a token followed by whitespace is read back whole |
| DecimalText.SplitWsJoin | src/memory_limits/verify_limits.py:13 | `' '.join(ts).split() == ts` for non-empty, space-free tokens |
| DecimalText.SplitOn | src/memory_limits/verify_limits.py:12 | `split('=(')` yields at least one part |
| DecimalText.JoinSplitOn | src/memory_limits/verify_limits.py:12 | joining the parts of `split(sep)` with sep gives the string back |
| DecimalText.SplitOnAbsent | src/memory_limits/verify_limits.py:12 | a string without the separator splits into itself |
| DecimalText.SplitOnOnce | src/memory_limits/verify_limits.py:12 | `(a + sep + b).split(sep) == [a, b]` when neither part holds the separator |
| DecimalText.JoinDigits | src/memory_limits/calculate_memory_limits.py:285-290 | a joined numeral list holds only digits and spaces |
| DecimalText.RStripCharOnce | src/memory_limits/verify_limits.py:13 | `(s + ')').rstrip(')') == s` when s does not end in ')' |
| VerifyLimits.ParseInts | src/memory_limits/verify_limits.py:13 | a successful `int()` over the tokens gives one integer per token |
| VerifyLimits.TruncDiv | src/memory_limits/verify_limits.py:19-20 | `int(a / b)` is the floor quotient for non-negative a and positive b |
| VerifyLimits.FormatOfFileName | src/memory_limits/verify_limits.py:27-38 | a file name selects a memory formula iff it is that format's `*_params.txt` name |
| VerifyLimits.ParseStops | src/memory_limits/verify_limits.py:10-14 | once a line fails to parse, later lines do not change the outcome |
| VerifyLimits.ParseNext | src/memory_limits/verify_limits.py:10-14 | each parsed line stores its array under its name, overwriting an earlier one |
| VerifyLimits.ParseFailsAt | src/memory_limits/verify_limits.py:12-13 | the first malformed line decides the error |
| VerifyLimits.ParseFile | src/memory_limits/verify_limits.py:8-14 | the parsing loop computes the specified map or error |
| VerifyLimits.CheckRowsAll | src/memory_limits/verify_limits.py:16-38 | the check loop passes iff every row passes |
| VerifyLimits.CheckRowsFrom | src/memory_limits/verify_limits.py:17-38 | the first failing row ends the check |
| VerifyLimits.CheckAll | src/memory_limits/verify_limits.py:16-38 | the check loop computes the specified outcome |
| VerifyLimits.VerifyMem | src/memory_limits/verify_limits.py:6-40 | `verify_mem` parses, then checks `len(A_heights)` rows, and reports how many passed |
| VerifyLimits.UnknownFileRow | src/memory_limits/verify_limits.py:37-38 | any row of an unknown file name fails (`assert()`) |
| VerifyLimits.UnknownFile | src/memory_limits/verify_limits.py:16-38 | an unknown file name passes only when it parses and lists no rows |
| VerifyLimits.ParseNumerals | src/memory_limits/verify_limits.py:13 | the printed numerals parse back to the values |
| VerifyLimits.ParsePrintedLine | src/memory_limits/verify_limits.py:11-14 | a line printed as `name=(v1 ... vn)` parses back to (name, values) |
| VerifyLimits.PrintedLineStrip | src/memory_limits/verify_limits.py:11 | stripping a printed line leaves `name=(...)` without its newline |
| VerifyLimits.PrintedLineSplit | src/memory_limits/verify_limits.py:12 | a printed line splits at `=(` into the name and the rest |
| VerifyLimits.PrintedValues | src/memory_limits/verify_limits.py:13 | removing ')' and splitting the rest of a printed line gives the values back |
| VerifyLimits.ParseEntries | src/memory_limits/verify_limits.py:8-14 | parsing lines that each parse gives the map of their entries, the last write winning |
| VerifyLimits.UpdatesLookup | src/memory_limits/verify_limits.py:14 | a name written once more is not overwritten by later distinct names |
| VerifyLimits.ColumnEntries | src/memory_limits/calculate_memory_limits.py:285-290 | the printed table as (name, column) entries, one per printed line |
| VerifyLimits.ColumnNamesPlain | src/memory_limits/calculate_memory_limits.py:285-290 | the six column names are distinct, non-empty, start with no space and hold no `=` |
| VerifyLimits.ColumnLookup | src/memory_limits/verify_limits.py:19-24 | each column name maps to its column |
| VerifyLimits.ParsePrinted | src/memory_limits/verify_limits.py:8-14 | parsing the planner's six lines gives back exactly the printed columns |
| VerifyLimits.RowPasses | src/memory_limits/verify_limits.py:17-36 | an admitted row passes the `<= MEM - RESERVED` assertion under its format's file name |
| VerifyLimits.VerifyAdmitted | src/memory_limits/verify_limits.py:6-40 | a table of admitted rows verifies, with all its rows checked |
| VerifyLimits.SearchVerifies | src/memory_limits/verify_limits.py:43-46 | whatever a successful planner sweep prints passes the checker for the same format |
| CsvPadding.MaxFields | src/sparse_format_convertors/add_padding.py:36-40 | `max(col_count)` bounds every line's field count and is attained |
| CsvPadding.CastSentinel | src/sparse_format_convertors/add_padding.py:51-53 | the -1 fill survives `astype(int)` and `astype(float)` |
| CsvPadding.Frame.ReadCsv | src/sparse_format_convertors/add_padding.py:43 | `read_csv` with `max(col_count)` names yields one row per line, missing cells NaN |
| CsvPadding.Frame.DropLast | src/sparse_format_convertors/add_padding.py:45-47 | dropping the last column removes it and keeps every other cell |
| CsvPadding.FillCells | src/sparse_format_convertors/add_padding.py:51-53 | `replace(nan, -1)` then `astype` keeps present values (cast) and fills missing ones |
| CsvPadding.Padded | src/sparse_format_convertors/add_padding.py:51-55 | the written table has one row per line, `width` cells each, every cell the line's value or -1 |
| CsvPadding.PadFile | src/sparse_format_convertors/add_padding.py:22-55 | `pad_file` prints and returns the specified width and writes the specified table; a missing or empty file is an error |
| CsvPadding.FillWidened | src/sparse_format_convertors/add_padding.py:43-53 | filling the frame read from the lines is the padded table |
| CsvPadding.PaddedWidthDrop | src/sparse_format_convertors/add_padding.py:40-47 | the printed width is the longest line, less one exactly when the last column is missing on every line |
| CsvPadding.PadKeepsValues | src/sparse_format_convertors/add_padding.py:45-53 | every present value stays inside the padded width and is written (cast) in its place |
| CsvPadding.PadFillsMissing | src/sparse_format_convertors/add_padding.py:51 | every missing cell inside the width is written as -1 |
| CsvPadding.GridRunOrder | src/sparse_format_convertors/add_padding.py:58-137 | a grid run prints a title and a width per file, and writes one padded file per step, in order |
| CsvPadding.PadStep | src/sparse_format_convertors/add_padding.py:70-71 | one step appends its title, the width, and the padded output file |
| CsvPadding.GridRunSnoc | src/sparse_format_convertors/add_padding.py:58-137 | one more step extends a run by that step alone |
| CsvPadding.PadCscGrid | src/sparse_format_convertors/add_padding.py:58-77 | val (float), row_idx and col_ptr (int), in that order |
| CsvPadding.PadCsrGrid | src/sparse_format_convertors/add_padding.py:79-98 | val (float), col_idx and row_ptr (int), in that order |
| CsvPadding.PadCustomGrid | src/sparse_format_convertors/add_padding.py:100-119 | val (float), x and y (int), in that order |
| CsvPadding.PadEllpackGrid | src/sparse_format_convertors/add_padding.py:121-137 | val (float) and indices (int), in that order |
| CsvPadding.PadMain | src/sparse_format_convertors/add_padding.py:139-155 | types 0..3 run their grid on prefix `tmp`; any other type prints the error message and writes nothing |
| CsvPadding.MainTypes | src/sparse_format_convertors/add_padding.py:142-155 | exactly types 0..3 are handled, with three files each except ELLPACK's two |
| PadSummary.SummaryParses | src/grid_csc_arb/test_vectors/add_padding.py:74 | the summary line `( a b c )` splits into five tokens whose middle three read back as a, b, c |
| PadSummary.PadCscSummary | src/grid_csc_arb/test_vectors/add_padding.py:59-74 | three padded files, their widths printed, then the one-line summary |
| PadSummary.PadCsrSummary | src/grid_csc_arb/test_vectors/add_padding.py:77-98 | titled widths for the three files, then the summary |
| PadSummary.RunScript | src/grid_csc_arb/test_vectors/add_padding.py:101 | the script pads the CSC files of prefix `test` |
| PadSummary.CsrSummarySucceeds | src/grid_csc_arb/test_vectors/add_padding.py:77-98 | the CSR summary run fails exactly when the plain CSR grid run fails |
| PadSummary.CsrSummaryExtends | src/grid_csc_arb/test_vectors/add_padding.py:77-98 | the CSR summary run prints what the plain run prints, then more, and writes the same files |
| PadSummary.CscSummarySucceeds | src/grid_csc_arb/test_vectors/add_padding.py:59-74 | the CSC summary run fails exactly when the plain CSC grid run fails |
| PadSummary.CscSummaryWidths | src/grid_csc_arb/test_vectors/add_padding.py:59-74 | the CSC summary run prints the widths of the plain run, without titles, and writes the same files |
| PadSummary.CscSummaryReadsBack | src/grid_csc_arb/test_vectors/add_padding.py:56-74 | the summary line reads back as the three padded widths |
| GridCoo.ExactJoinCols | src/idea_filip/helper.py:58-66 | listing two side-by-side regions one after the other lists the union, each nonzero once |
| GridCoo.ExactJoinRows | src/idea_filip/helper.py:57-66 | listing two stacked regions one after the other lists the union, each nonzero once |
| GridCoo.RowScanExact | src/idea_filip/helper.py:58-66 | one row of a tile lists exactly its nonzeros, with their values |
| GridCoo.TileScanExact | src/idea_filip/helper.py:57-66 | a tile lists exactly its nonzeros |
| GridCoo.BandScanExact | src/idea_filip/helper.py:54-66 | a band of tiles lists exactly its nonzeros |
| GridCoo.GridScanExact | src/idea_filip/helper.py:53-66 | the whole grid lists exactly the nonzeros of the covered rows and columns |
| GridCoo.BeforeOrder | src/idea_filip/helper.py:53-55 | what is listed before a tile is a prefix of what is listed before any later tile |
| GridCoo.BeforeNext | src/idea_filip/helper.py:53-66 | the next tile's start is this tile's start plus its entries, across band ends too |
| GridCoo.Slot | src/idea_filip/helper.py:55 | the corrected slot `x*py+y` is in range and recovers (x, y) by `/` and `%` |
| GridCoo.SlotOnto | src/idea_filip/helper.py:49-55 | every slot of the pointer array belongs to exactly one tile |
| GridCoo.ScanRow | src/idea_filip/helper.py:58-66 | appending one tile row's nonzeros to the arrays, or an IndexError exactly when they overflow `nnz` |
| GridCoo.ScanTile | src/idea_filip/helper.py:57-66 | appending one tile's nonzeros, or an IndexError exactly when they overflow |
| GridCoo.ScanBand | src/idea_filip/helper.py:54-66 | one band of tiles appended and each tile's start recorded in its slot |
| GridCoo.ScanGrid | src/idea_filip/helper.py:51-66 | all tiles appended in order with every tile's start in its slot, or an IndexError exactly when the entries overflow the arrays (corrected slot `x*py+y`, see Findings) |
| GridCoo.StartsBySlot | src/idea_filip/helper.py:55 | the pointer array filled slot by slot is the specified start list |
| GridCoo.GridFormat | src/idea_filip/helper.py:24-68 | `get_grid_format` returns the specified arrays or error (corrected slot `x*py+y`, see Findings) |
| GridCoo.EntriesExact | src/idea_filip/helper.py:24-68 | when Nt and Kt divide N and K, the listing holds every nonzero exactly once and its length is `count_nonzero` (corrected slot `x*py+y`, see Findings) |
| GridCoo.GridFormatFails | src/idea_filip/helper.py:43-66 | encoding fails exactly on a zero tile dimension, a negative nnz, or more nonzeros than nnz; the last case is the IndexError (corrected slot `x*py+y`, see Findings) |
| GridCoo.GridOf | src/idea_filip/helper.py:46-68 | the arrays hold the listing followed by zeros, and the pointer of each tile's slot is the count listed before it |
| GridCoo.TileEntries | src/idea_filip/helper.py:55-66 | the entries from a tile's pointer onward are whole-number coordinates inside that tile, with the matrix value, nonzero |
| GridCoo.TileEnds | src/idea_filip/helper.py:55-66 | a tile's entries end where the next tile's pointer starts |
| GridCoo.StartsSorted | src/idea_filip/helper.py:55 | with the corrected slot the pointer array is sorted |
| GridCoo.NumpyIndex | src/idea_filip/helper.py:90 | numpy indexing: valid from -n to n-1, negatives counting from the end |
| GridCoo.Build | src/idea_filip/helper.py:86-92 | the rebuilt matrix is N x K, or an IndexError |
| GridCoo.BuildFailsOnward | src/idea_filip/helper.py:87-90 | once an index is out of range, the rebuild fails |
| GridCoo.BuildMatrix | src/idea_filip/helper.py:70-92 | `build_matrix_from_grid` computes the specified matrix or error |
| GridCoo.BuildStep | src/idea_filip/helper.py:90 | one assignment writes its cell and leaves the others |
| GridCoo.BuildCells | src/idea_filip/helper.py:86-92 | rebuilding from in-range entries gives the matrix value at every written cell and 0 elsewhere |
| GridCoo.RebuildExact | src/idea_filip/helper.py:70-92 | rebuilding from an exact listing of A gives A |
| GridCoo.RoundTrip | src/idea_filip/helper.py:108-112 | with nnz the true nonzero count, encoding then rebuilding gives A back (corrected slot `x*py+y`, see Findings) |
| GridCoo.BuildLastZero | src/idea_filip/helper.py:86-90 | a trailing zero entry writes 0 into cell (0, 0) |
| GridCoo.CountMustBeExact | src/idea_filip/helper.py:46-66 | too small an nnz raises IndexError; too large an nnz with A[0][0] nonzero breaks the round trip |
| GridCoo.AsWrittenSlotCollides | src/idea_filip/helper.py:55 | as written, a 2 x 3 tile grid gives two tiles slot 2 and never uses slot 5 |
| GridCoo.AsWrittenSlotOverruns | src/idea_filip/helper.py:49-55 | as written, every grid with more tile rows than tile columns writes the last tile's start past the `px*py` pointer array |
| GridCoo.AsWrittenSlotShared | src/idea_filip/helper.py:55 | as written, every grid with more tile columns than tile rows (at least two) gives tiles (0, px) and (1, 0) the same slot |
| GridCoo.SlotsAgreeWhenSquare | src/idea_filip/helper.py:55 | on a square tile grid (as in the script's own test) the written and the corrected slot agree |
| Layout.TileShape | src/gemm/run_memcpy.py:246-250 | `N // height`, `K // width` succeed iff both divide exactly, the asserts failing otherwise |
| Layout.StartInside | src/gemm/run_memcpy.py:59-60 | `range(0, N, Nt)` visits exactly `ceil(N / Nt)` block starts |
| Layout.GridAtStep | src/gemm/run_memcpy.py:56-63 | block (bi, bj) is appended `bi * cb + bj`-th and is the clipped block at (bi*Nt, bj*Kt) |
| Layout.GridPrefixAppend | src/gemm/run_memcpy.py:61-62 | each append extends the list of blocks in loop order |
| Layout.GridPrefixFull | src/gemm/run_memcpy.py:56-63 | the completed loops have built the whole list of blocks |
| Layout.SplitMatrixIntoGrids | src/gemm/run_memcpy.py:56-63 | the two loops build the list of row-major blocks; a zero step is Python's ValueError |
| Layout.GemmTileOnPE | src/gemm/run_memcpy.py:348-351 | `A_prep[i][j][k]` goes to PE (j, i) and is cell k of tile (i, j) of A |
| Layout.CellInTile | src/gemm/run_memcpy.py:348-351 | every cell of A is in one tile, at index `(r % Nt) * Kt + c % Kt` |
| Layout.BMapRoundTrip | src/gemm/run_memcpy.py:356 | the B map sends each row to the first PE row and its inverse brings it back |
| Layout.BSourceRoundTrip | src/gemm/run_memcpy.py:356 | every local slot of the first PE row is filled from B by exactly one row |
| Layout.ARowMapRoundTrip | src/grid_custom/run_memcpy.py:361-368 | the per-PE A row map `PE[i % width, i // width]` is injective and inverted by its source map |
| Layout.ARowSourceRoundTrip | src/grid_csr/run_memcpy.py:372-378 | every PE of the grid receives exactly one host row |
| Layout.GatherRoundTrip | src/gemm/run_memcpy.py:364 | the C/timestamp gather map takes each output element from the last PE column, inverted by its source map |
| Layout.GatherSourceRoundTrip | src/grid_custom/run_memcpy.py:386-389 | every slot of the last PE column is gathered exactly once |
| Layout.CGather | src/grid_ellpack_dsr/run_memcpy.py:354 | gathering C brings C[row][col] from PE row `row / Nt` at `(row % Nt) * M + col` |
| Layout.EllpackTransfer | src/grid_ellpack_dsr/run_memcpy.py:368-380 | a flat row-major transfer of `Nt * A_len` words per PE gives PE (x, y) rows `(y*width+x)*Nt ...` whole |
| Layout.PadColumns | src/grid_csr/run_memcpy.py:279-280 | `np.pad` appends `extra` zero columns and keeps each row's prefix |
| Layout.SliceTo | src/grid_csr/run_memcpy.py:428 | a Python slice `[:stop]` with negative stop counting from the end, clipped |
| Layout.TrimKeepsM | src/grid_csr/run_memcpy.py:427-428 | `C[:, :-(padded_M - M)]` keeps exactly the first M cells of each row |
| Layout.TrimByZeroEmpties | src/grid_csr/run_memcpy.py:428 | a zero padding would make the slice `[:-0]` and empty every row |
| Layout.PadTrimRoundTrip | src/grid_csr/run_memcpy.py:247-280 | padding B to padded_M and trimming back gives B |
| Layout.GemmFlopTotal | src/gemm/run_memcpy.py:441 | the FLOP count equals the dense product's `2 N K M` |
| Layout.GemmAccessesOrdered | src/gemm/run_memcpy.py:439-441 | absolute accesses are relative accesses plus `4 * flop`, never fewer |
| Layout.CsrAccessesOrdered | src/grid_csr/run_memcpy.py:475-477 | absolute accesses are relative accesses plus `2 * flop`, never fewer |
| Bits.Pow2Values | src/gemm/run_memcpy.py:69-70 | the shift widths 16, 32, 48 as numbers |
| Bits.AndLowMask | src/gemm/run_memcpy.py:411-416 | `& 0x0000ffff` keeps the low 16 bits: the remainder by 2^16 |
| Bits.OrDisjoint | src/grid_custom/run_memcpy.py:83 | or-ing a value below 2^k into a value shifted by k adds them |
| Timestamps.MakeU48 | src/gemm/run_memcpy.py:69-70 | three 16-bit words pack into a 48-bit value, least significant first |
| Timestamps.MakeU48Fields | src/gemm/run_memcpy.py:69-70 | the three 16-bit fields of the packed value are the words again |
| Timestamps.FieldsRoundTrip | src/gemm/run_memcpy.py:69-70 | packing and splitting into 16-bit fields are inverse |
| Timestamps.SubTs | src/gemm/run_memcpy.py:72-73 | the difference of the two 48-bit stamps, non-negative iff the second is not earlier |
| Timestamps.Low | src/gemm/run_memcpy.py:411 | `t & 0xffff` is `t mod 2^16` |
| Timestamps.High | src/gemm/run_memcpy.py:412 | `(t >> 16) & 0xffff` is the second 16-bit field |
| Timestamps.Halves | src/gemm/run_memcpy.py:411-416 | a 32-bit word is its low half plus its high half shifted up |
| Timestamps.SplitWords | src/gemm/run_memcpy.py:411-416 | the six-word buffer holds the start stamp then the end stamp |
| Timestamps.StartStamp | src/grid_ellpack_dsr/run_memcpy.py:424-428 | the start stamp is t0 and the low half of t1 |
| Timestamps.EndStamp | src/grid_ellpack_dsr/run_memcpy.py:429-432 | the end stamp is the high half of t1 and t2 |
| Timestamps.NoBitsLost | src/gemm/run_memcpy.py:408-416 | the two stamps together hold all 96 bits of the three words |
| Timestamps.Cycles | src/gemm/run_memcpy.py:418 | the PE's cycle count is end stamp minus start stamp |
| Timestamps.VisitOrder | src/gemm/run_memcpy.py:406-407 | the `(w, h)` visit comes `w * height + h`-th and reads PE triple `h * width + w` |
| Timestamps.ReshapeAt | src/gemm/run_memcpy.py:398 | entry [h][w] of the reshape to (height, width, 3) is triple `h * width + w` |
| Timestamps.VisitCyclesAt | src/gemm/run_memcpy.py:406-418 | the n-th count of the loop is the count of entry [h][w] |
| Timestamps.VisitCyclesIndex | src/gemm/run_memcpy.py:398-418 | the o-th visited count is the count of the PE triple the visit order names |
| Timestamps.ColumnsPrefix | src/gemm/run_memcpy.py:406-407 | visiting more PE columns only extends the counts visited so far |
| Timestamps.ReadCycles | src/gemm/run_memcpy.py:408-418 | the loop body fills the six-word buffer with the halves and returns the PE's cycle count |
| Timestamps.AccumulateStep | src/gemm/run_memcpy.py:419-427 | one visit keeps the sum, minimum and maximum (with their first PE) correct |
| Timestamps.Tally | src/gemm/run_memcpy.py:407-427 | the inner loop body extends the accumulators by one visit |
| Timestamps.TallyColumn | src/gemm/run_memcpy.py:407-427 | the inner loop extends the accumulators by one PE column |
| Timestamps.CycleLoop | src/gemm/run_memcpy.py:402-429 | the loop's min, max (from 0), their PEs and the floor mean summarise all PE counts; an empty grid is a division by zero |
| Timestamps.SumBounds | src/gemm/run_memcpy.py:419 | the sum of n counts lies between n times their minimum and n times their maximum |
| Timestamps.MeanBetween | src/gemm/run_memcpy.py:429 | the floor mean lies between the minimum and the maximum |
| Timestamps.StampsFilledStep | src/grid_ellpack_dsr/run_memcpy.py:421-432 | one iteration fills row h's start and end stamps and keeps the earlier ones |
| Timestamps.SplitStamps | src/grid_ellpack_dsr/run_memcpy.py:416-432 | the split loop fills every row's start and end stamp |
| Timestamps.Difference | src/grid_ellpack_dsr/run_memcpy.py:434 | elementwise difference: `d[i] + b[i] == a[i]` |
| Timestamps.EllpackCyclesAgree | src/grid_ellpack_dsr/run_memcpy.py:416-434 | the ELLPACK counts are the same per-row cycle counts the gemm loop computes |
| Timestamps.ShrWord | src/grid_custom/run_memcpy.py:78-80 | `>> 16` of a 32-bit word is its high half |
| Timestamps.PackWords | src/grid_custom/run_memcpy.py:83 | `(i1 << 32) \| (i2 << 16) \| i3` is make_u48 of the words, least significant first |
| Timestamps.TripleToU48 | src/grid_custom/run_memcpy.py:69-83 | the result's three 16-bit fields are the high halves of the three words, b1 on top |
| Timestamps.ConvertArray | src/grid_custom/run_memcpy.py:85-91 | a ValueError when the array does not have three columns or, from `np.apply_along_axis`, has no rows; otherwise one stamp per row |
| Timestamps.Rows3 | src/grid_custom/run_memcpy.py:447-448 | reshape to (height, 3): row h is the h-th triple |
| Timestamps.Reverse | src/grid_custom/run_memcpy.py:451-452 | a reversed row |
| Timestamps.FlipRows | src/grid_custom/run_memcpy.py:451-452 | `np.fliplr` reverses every row |
| Timestamps.ConvertedRow | src/grid_custom/run_memcpy.py:447-456 | row h of the reshaped, flipped and converted buffer is the row's stamp |
| Timestamps.ConvertedStamps | src/grid_custom/run_memcpy.py:447-456 | one stamp per grid row, built from the row's three words with the last most significant; the grid has a row since run_memcpy.py:238 already divides by `height` |
| Timestamps.CustomCycles | src/grid_custom/run_memcpy.py:447-459 | the custom launcher's count per grid row is finish stamp minus start stamp |

## Left out

- Device I/O is not modelled: memcpy to and from the PEs, the simulator, `runtime_utils` and the kernels. The index maps are modelled as the functions their strings describe. The ELLPACK transfer assumes the row-major memcpy order.
- `generate_sparse_matrix`, `generate_random_matrix` and reading or writing matrix files are randomness or file I/O. Matrices are parameters.
- `get_nnz_coo` (calculate_memory_limits.py:23-51) runs the compiled scanner and the padding script through subprocesses. It is passed in as a function, and so is `find_upper_bound_nnz`. calculate_memory_limits.py calls that function at lines 119, 151 and 183 but neither defines nor imports it, so it is not part of this model.
- The planner's and checker's loops over the five formats use one format at a time. The format is a parameter (the script selects it by editing line 244).
- Floating-point arithmetic is modelled as exact reals: the 15% and 5% factors and `density/100`. Rounding effects are not modelled. The Nt*Kt key (`N/h * K/w`, calculate_memory_limits.py:247) is a float product in the script and an integer product of quotients in the model; the two are equal because every candidate h divides N and every candidate w divides K (`ConfigSearch.CandidatesAdmissible`).
- C `int` overflow in check_memory.c is not modelled; integers are unbounded.
- numpy's fixed-width integer behaviour is not modelled. The uint16 buffers are taken to hold the masked 16-bit values, and `make_u48` is computed with Python integers. A 32-bit reinterpretation of each float (`float_to_hex`, `struct.pack`) is taken as the input bit pattern.
- `np.array` of ragged lists and `A.flatten()` of blocks clipped at the matrix edge are modelled as a list of row-major sequences.
- The `iportmap_A_val`/`iportmap_A_indices` strings of the ELLPACK launcher (grid_ellpack_dsr/run_memcpy.py:338-341) are printed but not used. The transfer at 368-380 is modelled instead.
- The cycle loops leave `min_w`/`max_w` unset when no count exceeds the initial values. Printing them then raises a NameError. The model records that case as an unset position (`None`) and does not model the print.
- Progress bars, plots and the CSV result files of the launchers are output only.
- The planner raises an IndexError when no grid shape fits for some M. The model follows that code and returns a failure naming that M. It does not skip the shape and continue.
- `VerifyLimits.ParseInts`: the contract only states the length. Its values are stated by `VerifyLimits.ParseNumerals` for printed numerals.
- `GridCoo.GridFormat`: models `get_grid_format` with line 55's slot corrected to `x*py+y`. As written, helper.py:49 allocates `px*py` slots and line 55 writes slot `x*px+y`, so whenever px > py >= 1 (for example N = 2·Nt, K = Kt) the last tile's slot lies past the array and raises an IndexError whatever nnz is (`GridCoo.AsWrittenSlotOverruns`), and when py > px >= 2 tiles (0, px) and (1, 0) share a slot (`GridCoo.AsWrittenSlotShared`). The failure set of `GridCoo.GridFormatFails`, the listing of `GridCoo.EntriesExact` and the round trip of `GridCoo.RoundTrip` hold for the corrected code; the as-written slot is `GridCoo.AsWrittenSlot` (see Findings).
- A zero `grid_height` or `grid_width` given to check_memory.c divides by zero in the tile extent `n % Py` / `m % Px` of every scanner (check_memory.c:150-151 and the matching lines of the other three scanners). The scanners require a grid of at least 1 x 1, and `TileScan.MeasureFormat` requires it only for the formats 0..3 that reach a scanner. A negative `atoi` value is not modelled (grid sizes are naturals).
- `CsvPadding.PadStep`, `CsvPadding.GridRun`: when `pad_file` raises at step k, the script has already printed the earlier titles and widths and step k's title (add_padding.py:70-71). The model returns only the error, without that partial output.
- `CsvPadding.PadMain`: takes the format as an integer, so the ValueError of `int(argv[1])` on a non-numeric argument (add_padding.py:141) is not modelled.
- `Timestamps.Tally`, `Timestamps.TallyColumn`: the inner loop body of the cycle loop is split into these two methods. The behaviour is the same.

## Findings

| source | as written | input that shows it | evidently intended | confidence | as-written member | corrected member |
|---|---|---|---|---|---|---|
| src/idea_filip/helper.py:55 | `A_grid_ptr[x*px+y]` indexes the pointer of tile (x, y) by the number of tile rows | N = 2·Nt, K = 3·Kt (a 2 x 3 tile grid): tiles (0, 2) and (1, 0) both write slot 2 and slot 5 stays 0; N = 2·Nt, K = Kt: tile (1, 0) writes slot 2 of a 2-slot array | `A_grid_ptr[x*py+y]`, row-major over a px x py grid, one slot per tile | high, not executed | GridCoo.AsWrittenSlotCollides | GridCoo.StartsSorted |
